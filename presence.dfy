/**
 * ActiveSupport's `blank?` / `present?` on strings, which both the filter
 * guards of the event service and Mongoid's presence validators rely on.
 * A string is blank when every character is white space (so the empty string
 * is blank); `nil` is blank; a value is present when it is not blank.
 */
module Presence {
  import opened Wrappers

  /** The ASCII white-space characters matched by `[[:space:]]`. */
  predicate IsSpace(c: char) {
    c == ' ' || c == '\t' || c == '\n' || c == '\U{B}' || c == '\U{C}' || c == '\r'
  }

  predicate Blank(s: string) {
    forall i :: 0 <= i < |s| ==> IsSpace(s[i])
  }

  /** `v.present?` for an optional string. */
  predicate Present(v: Option<string>)
    ensures Present(v) ==> v.Some? && |v.value| > 0
    ensures Present(v) <==> v.Some? && exists i :: 0 <= i < |v.value| && !IsSpace(v.value[i])
  {
    v.Some? && !Blank(v.value)
  }

  /** Nil, the empty string and strings of spaces are not present. */
  lemma NotPresentExamples()
    ensures !Present(None) && !Present(Some("")) && !Present(Some("  \t\n"))
    ensures Present(Some("concert")) && Present(Some(" x "))
  {
    assert !IsSpace("concert"[0]);
    assert !IsSpace(" x "[1]);
  }
}
