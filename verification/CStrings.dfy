/** NUL-terminated strings. */
module CStrings {

  /** The characters before the terminator. */
  type CString = s: string | '\0' !in s

  function At(s: CString, i: nat): (c: char)
    requires i <= |s|
    ensures c == '\0' <==> i == |s|
  {
    if i < |s| then s[i] else '\0'
  }
}
