/** The new-task form (src/components/TodoInput.tsx): its `text` and `priority` state. */
module TodoInput {
  import opened Wrappers
  import opened TodoTypes
  import opened Strings

  /** The arguments of one `onAdd(text, priority)` call. */
  datatype AddRequest = AddRequest(text: string, priority: Priority)

  /** `disabled={!text.trim()}`: the button is disabled exactly when the text is only white space. */
  predicate SubmitDisabled(text: string): (r: bool)
    ensures r <==> Blank(text)
  {
    Trim(text) == ""
  }

  class TaskForm {
    var text: string
    var priority: Priority

    /** `useState('')` and `useState('medium')`. */
    constructor ()
      ensures text == "" && priority == Medium
    {
      text := "";
      priority := Medium;
    }

    /** The text input's `onChange`. */
    method SetText(value: string)
      modifies this
      ensures text == value && priority == old(priority)
    {
      text := value;
    }

    /** The priority select's `onChange`. */
    method SetPriority(value: Priority)
      modifies this
      ensures priority == value && text == old(text)
    {
      priority := value;
    }

    /**
     * `handleSubmit`: with only white space nothing happens; otherwise the
     * untrimmed text and the chosen priority go to `onAdd` (returned here) and
     * the form is reset.
     */
    method HandleSubmit() returns (request: Option<AddRequest>)
      modifies this
      ensures request.None? <==> Blank(old(text))
      ensures request.None? ==> text == old(text) && priority == old(priority)
      ensures request.Some? ==> request.value == AddRequest(old(text), old(priority))
      ensures request.Some? ==> text == "" && priority == Medium
    {
      if Trim(text) != "" {
        request := Some(AddRequest(text, priority));
        text := "";
        priority := Medium;
      } else {
        request := None;
      }
    }
  }
}
