/** Byte buffers as C string functions see them. A `string` stands for a buffer, one
    `char` a byte. */
module CStrings {
  /** Everything before the first NUL. */
  function CString(s: string): string {
    if s == [] || s[0] == '\0' then [] else [s[0]] + CString(s[1..])
  }

  /** Only an embedded NUL cuts a string short. */
  lemma {:induction false} CStringExact(s: string)
    ensures CString(s) <= s && '\0' !in CString(s)
    ensures |CString(s)| < |s| ==> s[|CString(s)|] == '\0'
    ensures CString(s) == s <==> '\0' !in s
  {
    if s != [] && s[0] != '\0' {
      CStringExact(s[1..]);
    }
  }
}
