/** Letter case and white space of texts, and the identifiers that names must be. */
module Texts {

  function LowerChar(c: char): char {
    if 'A' <= c <= 'Z' then 'a' + (c - 'A') else c
  }

  function Lower(s: string): (r: string)
    ensures |r| == |s|
  {
    seq(|s|, i requires 0 <= i < |s| => LowerChar(s[i]))
  }

  function UpperChar(c: char): char {
    if 'a' <= c <= 'z' then 'A' + (c - 'a') else c
  }

  function Upper(s: string): (r: string)
    ensures |r| == |s|
  {
    seq(|s|, i requires 0 <= i < |s| => UpperChar(s[i]))
  }

  /** Lower case has no capitals, upper case no small letters, and each undoes the other. */
  lemma CaseFolds(s: string)
    ensures Lower(Upper(s)) == Lower(s) && Upper(Lower(s)) == Upper(s)
    ensures forall i :: 0 <= i < |s| ==> !('A' <= Lower(s)[i] <= 'Z') && !('a' <= Upper(s)[i] <= 'z')
  {
    forall i | 0 <= i < |s|
      ensures LowerChar(UpperChar(s[i])) == LowerChar(s[i]) && UpperChar(LowerChar(s[i])) == UpperChar(s[i])
    {
      CharFolds(s[i]);
    }
  }

  lemma CharFolds(c: char)
    ensures LowerChar(UpperChar(c)) == LowerChar(c) && UpperChar(LowerChar(c)) == UpperChar(c)
  {
    if 'A' <= c <= 'Z' {
      assert 'a' <= LowerChar(c) <= 'z' && 'A' + (LowerChar(c) - 'a') == c;
    } else if 'a' <= c <= 'z' {
      assert 'A' <= UpperChar(c) <= 'Z' && 'a' + (UpperChar(c) - 'A') == c;
    }
  }

  predicate SafeChar(c: char) {
    'A' <= c <= 'Z' || 'a' <= c <= 'z' || '0' <= c <= '9' || c == '.' || c == '_' || c == ':' || c == '-'
  }

  predicate SafeIdentifier(s: string) {
    1 <= |s| <= 128 && forall i :: 0 <= i < |s| ==> SafeChar(s[i])
  }

  /** A name that passes is one path component and, in a search pattern, stands only for itself. */
  lemma SafeNameIsLiteral(s: string)
    requires SafeIdentifier(s)
    ensures forall c :: c in s ==> c !in {'/', '\\', '*', '?', '[', ']', '\0'} && !IsSpace(c)
  {
  }

  /*** White space ***/

  /** `str.isspace` of one character. */
  predicate IsSpace(c: char) {
    || '\t' <= c <= '\r' || '\U{1c}' <= c <= ' ' || c == '\U{85}' || c == '\U{a0}' || c == '\U{1680}'
    || '\U{2000}' <= c <= '\U{200a}' || c == '\U{2028}' || c == '\U{2029}' || c == '\U{202f}' || c == '\U{205f}'
    || c == '\U{3000}'
  }

  function StripLeft(s: string): string {
    if s != "" && IsSpace(s[0]) then StripLeft(s[1..]) else s
  }

  function StripRight(s: string): string {
    if s != "" && IsSpace(s[|s| - 1]) then StripRight(s[..|s| - 1]) else s
  }

  /** `str.strip`. */
  function Strip(s: string): string {
    StripLeft(StripRight(s))
  }

  predicate AllSpace(s: string) {
    forall i :: 0 <= i < |s| ==> IsSpace(s[i])
  }

  lemma {:induction false} StripLeftSplits(s: string) returns (pad: string)
    ensures AllSpace(pad) && s == pad + StripLeft(s)
    ensures StripLeft(s) != "" ==> !IsSpace(StripLeft(s)[0])
  {
    if s != "" && IsSpace(s[0]) {
      var rest := StripLeftSplits(s[1..]);
      pad := [s[0]] + rest;
    } else {
      pad := "";
    }
  }

  lemma {:induction false} StripRightSplits(s: string) returns (pad: string)
    ensures AllSpace(pad) && s == StripRight(s) + pad
    ensures StripRight(s) != "" ==> !IsSpace(StripRight(s)[|StripRight(s)| - 1])
  {
    if s != "" && IsSpace(s[|s| - 1]) {
      var rest := StripRightSplits(s[..|s| - 1]);
      pad := rest + [s[|s| - 1]];
    } else {
      pad := "";
    }
  }

  /** Stripping takes white space off both ends, all of it, and nothing else. */
  lemma StripSplits(s: string) returns (before: string, after: string)
    ensures AllSpace(before) && AllSpace(after) && s == before + Strip(s) + after
    ensures Strip(s) == "" || Trimmed(Strip(s))
  {
    after := StripRightSplits(s);
    before := StripLeftSplits(StripRight(s));
    if Strip(s) != "" {
      assert StripRight(s)[|StripRight(s)| - 1] == Strip(s)[|Strip(s)| - 1];
    }
  }

  lemma {:induction false} StripKeepsText(s: string)
    requires s != "" && !IsSpace(s[0])
    ensures Strip(s) == StripRight(s) && StripRight(s) != "" && StripRight(s)[0] == s[0]
  {
    if !IsSpace(s[|s| - 1]) {
    } else {
      StripKeepsText(s[..|s| - 1]);
    }
  }

  /** Neither end is white space, as of a JSON text between its braces. */
  predicate Trimmed(s: string) {
    s != "" && !IsSpace(s[0]) && !IsSpace(s[|s| - 1])
  }
}
