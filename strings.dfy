/** String.prototype.trim of ECMAScript, on strings as sequences of characters. */
module Strings {

  /** The WhiteSpace and LineTerminator code points that `trim` removes. */
  predicate IsWhiteSpace(c: char) {
    || c == '\t' || c == '\n' || c == '\U{000B}' || c == '\U{000C}' || c == '\r'
    || c == ' ' || c == '\U{00A0}' || c == '\U{1680}'
    || ('\U{2000}' <= c <= '\U{200A}')
    || c == '\U{2028}' || c == '\U{2029}' || c == '\U{202F}' || c == '\U{205F}'
    || c == '\U{3000}' || c == '\U{FEFF}'
  }

  /** Every character of `s` is white space (this includes the empty string). */
  predicate Blank(s: string) {
    forall k :: 0 <= k < |s| ==> IsWhiteSpace(s[k])
  }

  /** The length of the white space that `s` starts with. */
  function Lead(s: string): (i: nat)
    ensures i <= |s|
    ensures forall k :: 0 <= k < i ==> IsWhiteSpace(s[k])
    ensures i < |s| ==> !IsWhiteSpace(s[i])
    decreases |s|
  {
    if s != [] && IsWhiteSpace(s[0]) then
      var i := 1 + Lead(s[1..]);
      assert forall k :: 1 <= k < i ==> s[k] == s[1..][k - 1];
      i
    else 0
  }

  /** Where the white space that ends `s` begins, searching no further left than `lo`. */
  function TrailEnd(s: string, lo: nat): (j: nat)
    requires lo <= |s|
    ensures lo <= j <= |s|
    ensures forall k :: j <= k < |s| ==> IsWhiteSpace(s[k])
    ensures j > lo ==> !IsWhiteSpace(s[j - 1])
    decreases |s|
  {
    if |s| > lo && IsWhiteSpace(s[|s| - 1]) then
      var j := TrailEnd(s[..|s| - 1], lo);
      assert forall k :: j <= k < |s| - 1 ==> s[k] == s[..|s| - 1][k];
      j
    else |s|
  }

  /** `s.trim()`: the slice of `s` between its leading and its trailing white space. */
  function Trim(s: string): (r: string)
    ensures var i := Lead(s);
      var j := TrailEnd(s, i);
      && r == s[i..j]
      && (forall k :: 0 <= k < i ==> IsWhiteSpace(s[k]))
      && (forall k :: j <= k < |s| ==> IsWhiteSpace(s[k]))
    ensures r != [] ==> !IsWhiteSpace(r[0]) && !IsWhiteSpace(r[|r| - 1])
    ensures r == [] <==> Blank(s)
  {
    var i := Lead(s);
    var j := TrailEnd(s, i);
    if i == j then
      assert Blank(s) by {
        forall k | 0 <= k < |s| ensures IsWhiteSpace(s[k]) {
          if k >= i {}
        }
      }
      []
    else
      assert s[i..j][0] == s[i];
      s[i..j]
  }

  /** Trimming an already trimmed string changes nothing. */
  lemma TrimIdempotent(s: string)
    ensures Trim(Trim(s)) == Trim(s)
  {
    var r := Trim(s);
    assert Lead(r) == 0;
    assert TrailEnd(r, 0) == |r|;
    assert r[0..|r|] == r;
  }
}
