/** Optional values, and the ASCII part of the string operations the services use. */
module Common {

  datatype Option<+T> = None | Some(value: T)

  /** The white space that `strings.TrimSpace` removes, within Latin-1. */
  predicate IsSpace(c: char) {
    c == ' ' || '\t' <= c <= '\r' || c == '\U{85}' || c == '\U{A0}'
  }

  function TrimLeft(s: string): string {
    if s != "" && IsSpace(s[0]) then TrimLeft(s[1..]) else s
  }

  function TrimRight(s: string): string {
    if s != "" && IsSpace(s[|s| - 1]) then TrimRight(s[..|s| - 1]) else s
  }

  function TrimSpace(s: string): string {
    TrimRight(TrimLeft(s))
  }

  predicate Blank(s: string) {
    TrimSpace(s) == ""
  }

  function LowerChar(c: char): char {
    if 'A' <= c <= 'Z' then (c as int + 32) as char else c
  }

  function ToLower(s: string): (r: string) {
    seq(|s|, i requires 0 <= i < |s| => LowerChar(s[i]))
  }

  /** The form in which every enumeration word is compared. */
  function Folded(s: string): string {
    ToLower(TrimSpace(s))
  }

  predicate Contains(s: string, sub: string) {
    sub <= s || (s != "" && Contains(s[1..], sub))
  }

  /** A trimmed string that is not empty neither starts nor ends with white space. */
  lemma {:induction false} TrimmedEnds(s: string)
    ensures var t := TrimSpace(s);
            t != "" ==> !IsSpace(t[0]) && !IsSpace(t[|t| - 1])
  {
    TrimLeftEnds(s);
    TrimRightEnds(TrimLeft(s));
  }

  lemma {:induction false} TrimLeftEnds(s: string)
    ensures var t := TrimLeft(s); t != "" ==> !IsSpace(t[0])
  {
    if s != "" && IsSpace(s[0]) {
      TrimLeftEnds(s[1..]);
    }
  }

  lemma {:induction false} TrimRightEnds(s: string)
    ensures var t := TrimRight(s); t <= s && (t != "" ==> !IsSpace(t[|t| - 1]))
  {
    if s != "" && IsSpace(s[|s| - 1]) {
      TrimRightEnds(s[..|s| - 1]);
    }
  }

  lemma TrimSpaceIdempotent(s: string)
    ensures TrimSpace(TrimSpace(s)) == TrimSpace(s)
  {
    TrimmedEnds(s);
  }

  /** A lower-case word is its own normal form. */
  lemma LowerWord(w: string)
    requires w != "" && forall c | c in w :: 'a' <= c <= 'z'
    ensures Folded(w) == w && !Blank(w)
  {
    assert w[0] in w && w[|w| - 1] in w;
    assert TrimSpace(w) == w;
    assert forall i | 0 <= i < |w| :: LowerChar(w[i]) == w[i] by {
      assert forall i | 0 <= i < |w| :: w[i] in w;
    }
    assert ToLower(w) == w;
  }
}
