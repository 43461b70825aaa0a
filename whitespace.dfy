/** JavaScript's String.prototype.trim, as used by the validator to decide
    whether a required field holds anything but white space. */
module Whitespace {

  /** The characters ECMAScript's trim removes: WhiteSpace (tab, vertical tab,
      form feed, space, no-break space, byte order mark and the other Unicode
      space separators) and LineTerminator (line feed, carriage return, line
      and paragraph separators). */
  predicate IsWhitespace(c: char) {
    c == '\t' || c == '\n' || c == '\U{B}' || c == '\U{C}' || c == '\r' ||
    c == ' ' || c == '\U{A0}' || c == '\U{1680}' ||
    ('\U{2000}' <= c <= '\U{200A}') ||
    c == '\U{2028}' || c == '\U{2029}' || c == '\U{202F}' || c == '\U{205F}' ||
    c == '\U{3000}' || c == '\U{FEFF}'
  }

  /** Every character of `s` is white space. */
  ghost predicate AllWhitespace(s: string) {
    forall i :: 0 <= i < |s| ==> IsWhitespace(s[i])
  }

  /** `s` with its leading white space removed. */
  function TrimStart(s: string): string {
    if s != [] && IsWhitespace(s[0]) then TrimStart(s[1..]) else s
  }

  /** `s` with its trailing white space removed. */
  function TrimEnd(s: string): string {
    if s != [] && IsWhitespace(s[|s| - 1]) then TrimEnd(s[..|s| - 1]) else s
  }

  /** `s.trim()`. */
  function Trim(s: string): string {
    TrimEnd(TrimStart(s))
  }

  /** The validator's test `!field.value.trim()`: the trimmed value is the
      empty string, which JavaScript treats as false. */
  predicate Blank(s: string) {
    Trim(s) == ""
  }

  /** TrimStart keeps a suffix, drops only white space, and stops at the first
      character that is not white space. */
  lemma {:induction false} TrimStartDropsLeadingWhitespace(s: string)
    ensures |TrimStart(s)| <= |s| && TrimStart(s) == s[|s| - |TrimStart(s)|..]
    ensures forall i :: 0 <= i < |s| - |TrimStart(s)| ==> IsWhitespace(s[i])
    ensures TrimStart(s) != [] ==> !IsWhitespace(TrimStart(s)[0])
  {
    if s != [] && IsWhitespace(s[0]) {
      var tail := s[1..];
      TrimStartDropsLeadingWhitespace(tail);
      var t := TrimStart(tail);
      assert TrimStart(s) == t;
      assert tail[|tail| - |t|..] == s[|s| - |t|..];
      forall i | 0 <= i < |s| - |t|
        ensures IsWhitespace(s[i])
      {
        if i > 0 { assert s[i] == tail[i - 1]; }
      }
    }
  }

  /** TrimEnd keeps a prefix, drops only white space, and stops at the last
      character that is not white space. */
  lemma {:induction false} TrimEndDropsTrailingWhitespace(s: string)
    ensures |TrimEnd(s)| <= |s| && TrimEnd(s) == s[..|TrimEnd(s)|]
    ensures forall i :: |TrimEnd(s)| <= i < |s| ==> IsWhitespace(s[i])
    ensures TrimEnd(s) != [] ==> !IsWhitespace(TrimEnd(s)[|TrimEnd(s)| - 1])
  {
    if s != [] && IsWhitespace(s[|s| - 1]) {
      var init := s[..|s| - 1];
      TrimEndDropsTrailingWhitespace(init);
      var t := TrimEnd(init);
      assert TrimEnd(s) == t;
      assert init[..|t|] == s[..|t|];
      forall i | |t| <= i < |s|
        ensures IsWhitespace(s[i])
      {
        if i < |s| - 1 { assert s[i] == init[i]; }
      }
    }
  }

  /** `s.trim()` is the infix of `s` starting after the leading white space
      that neither starts nor ends with white space, everything after it
      being white space too. */
  lemma TrimIsStrippedInfix(s: string)
    ensures |TrimStart(s)| <= |s|
    ensures var a := |s| - |TrimStart(s)|;
      a + |Trim(s)| <= |s| && Trim(s) == s[a..a + |Trim(s)|] &&
      (forall i :: 0 <= i < a ==> IsWhitespace(s[i])) &&
      (forall i :: a + |Trim(s)| <= i < |s| ==> IsWhitespace(s[i])) &&
      (Trim(s) != [] ==> !IsWhitespace(Trim(s)[0]) && !IsWhitespace(Trim(s)[|Trim(s)| - 1]))
  {
    TrimStartDropsLeadingWhitespace(s);
    TrimEndDropsTrailingWhitespace(TrimStart(s));
  }

  /** A value is blank exactly when it consists of white space only; in
      particular the empty string is blank and so is "  \t". */
  lemma BlankIffAllWhitespace(s: string)
    ensures Blank(s) <==> AllWhitespace(s)
  {
    TrimIsStrippedInfix(s);
    var r := Trim(s);
    var a := |s| - |TrimStart(s)|;
    if r != "" {
      assert s[a] == r[0];
      assert !AllWhitespace(s);
    }
  }
}
