/** The editor inside one task row (src/components/TodoItem.tsx). */
module TodoItem {
  import opened Wrappers
  import opened TodoTypes
  import opened Strings
  import UseTodos

  /** The arguments of one `onUpdate(todo.id, { text, priority })` call. */
  datatype UpdateRequest = UpdateRequest(id: string, updates: UseTodos.Updates)

  /** The keys the edit field reacts to. */
  datatype Key = Enter | Escape | OtherKey

  /** The row's `todo` prop and its three state cells. */
  class TaskEditor {
    var todo: Todo
    var isEditing: bool
    var editText: string
    var editPriority: Priority

    /** The state cells start from the task given at mount. */
    constructor (todo: Todo)
      ensures this.todo == todo
      ensures !isEditing && editText == todo.text && editPriority == todo.priority
    {
      this.todo := todo;
      isEditing := false;
      editText := todo.text;
      editPriority := todo.priority;
    }

    /** A re-render with a new `todo` prop: the state cells keep their values. */
    method ReceiveTodo(t: Todo)
      modifies this
      ensures todo == t
      ensures isEditing == old(isEditing) && editText == old(editText) && editPriority == old(editPriority)
    {
      todo := t;
    }

    /** The edit button: `setIsEditing(true)`. */
    method StartEditing()
      modifies this
      ensures isEditing
      ensures todo == old(todo) && editText == old(editText) && editPriority == old(editPriority)
    {
      isEditing := true;
    }

    /** The edit field's `onChange`. */
    method SetEditText(value: string)
      modifies this
      ensures editText == value
      ensures todo == old(todo) && isEditing == old(isEditing) && editPriority == old(editPriority)
    {
      editText := value;
    }

    /** The edit select's `onChange`. */
    method SetEditPriority(value: Priority)
      modifies this
      ensures editPriority == value
      ensures todo == old(todo) && isEditing == old(isEditing) && editText == old(editText)
    {
      editPriority := value;
    }

    /**
     * `handleSave`: with only white space nothing is sent and editing goes on;
     * otherwise the trimmed text and the chosen priority go to `onUpdate`
     * (returned here) and editing ends.
     */
    method HandleSave() returns (request: Option<UpdateRequest>)
      modifies this
      ensures todo == old(todo) && editText == old(editText) && editPriority == old(editPriority)
      ensures request.None? <==> Blank(old(editText))
      ensures request.None? ==> isEditing == old(isEditing)
      ensures request.Some? ==> !isEditing
      ensures request.Some? ==>
        request.value == UpdateRequest(todo.id, UseTodos.Updates(Some(Trim(editText)), Some(editPriority)))
    {
      if Trim(editText) != "" {
        request := Some(UpdateRequest(todo.id, UseTodos.Updates(Some(Trim(editText)), Some(editPriority))));
        isEditing := false;
      } else {
        request := None;
      }
    }

    /** `handleCancel`: the edit cells go back to the task's values and editing ends. */
    method HandleCancel()
      modifies this
      ensures todo == old(todo)
      ensures !isEditing && editText == todo.text && editPriority == todo.priority
    {
      editText := todo.text;
      editPriority := todo.priority;
      isEditing := false;
    }

    /** The edit field's `onKeyDown`: Enter saves, Escape cancels, other keys do nothing. */
    method HandleKeyDown(key: Key) returns (request: Option<UpdateRequest>)
      modifies this
      ensures todo == old(todo)
      ensures key == Enter ==>
        && editText == old(editText) && editPriority == old(editPriority)
        && (request.None? <==> Blank(old(editText)))
        && (request.None? ==> isEditing == old(isEditing))
        && (request.Some? ==>
              && !isEditing
              && request.value == UpdateRequest(todo.id, UseTodos.Updates(Some(Trim(editText)), Some(editPriority))))
      ensures key == Escape ==>
        request == None && !isEditing && editText == todo.text && editPriority == todo.priority
      ensures key == OtherKey ==>
        request == None && isEditing == old(isEditing) && editText == old(editText) && editPriority == old(editPriority)
    {
      request := None;
      if key == Enter {
        request := HandleSave();
      }
      if key == Escape {
        HandleCancel();
      }
    }
  }
}
