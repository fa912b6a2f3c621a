/** White space at the ends of strings, as `str.strip` removes it. */
module Text {

  /** The space, the control characters from tab to carriage return, and the four separators. */
  predicate IsSpace(c: char) { c == ' ' || '\t' <= c <= '\r' || '\U{1C}' <= c <= '\U{1F}' }

  /** By code points, the ASCII characters that count as white space. */
  lemma SpacesAre(c: char)
    ensures IsSpace(c) <==> c as int in {9, 10, 11, 12, 13, 28, 29, 30, 31, 32}
  {
  }

  function StripLeft(s: string): string { if s != [] && IsSpace(s[0]) then StripLeft(s[1..]) else s }

  function StripRight(s: string): string {
    if s != [] && IsSpace(s[|s| - 1]) then StripRight(s[..|s| - 1]) else s
  }

  function Strip(s: string): string { StripRight(StripLeft(s)) }

  predicate Trimmed(s: string) { s == [] || (!IsSpace(s[0]) && !IsSpace(s[|s| - 1])) }

  lemma {:induction false} StripRightKeepsStart(s: string)
    ensures StripRight(s) <= s && (StripRight(s) == [] || !IsSpace(StripRight(s)[|StripRight(s)| - 1]))
  {
    if s != [] && IsSpace(s[|s| - 1]) { StripRightKeepsStart(s[..|s| - 1]); }
  }

  lemma {:induction false} StripLeftStart(s: string)
    ensures StripLeft(s) == [] || !IsSpace(StripLeft(s)[0])
  {
    if s != [] && IsSpace(s[0]) { StripLeftStart(s[1..]); }
  }

  lemma StripTrims(s: string)
    ensures Trimmed(Strip(s)) && (Trimmed(s) <==> Strip(s) == s)
  {
    StripLeftStart(s);
    StripRightKeepsStart(StripLeft(s));
  }

  ghost predicate AllSpace(s: string) { forall i | 0 <= i < |s| :: IsSpace(s[i]) }

  lemma {:induction false} LeftPart(s: string) returns (l: string)
    ensures s == l + StripLeft(s) && AllSpace(l)
  {
    l := [];
    if s != [] && IsSpace(s[0]) {
      l := LeftPart(s[1..]);
      l := [s[0]] + l;
    }
  }

  lemma {:induction false} RightPart(s: string) returns (r: string)
    ensures s == StripRight(s) + r && AllSpace(r)
  {
    r := [];
    if s != [] && IsSpace(s[|s| - 1]) {
      r := RightPart(s[..|s| - 1]);
      r := r + [s[|s| - 1]];
    }
  }

  /** Only white space is taken away, only at the ends, and all of it. */
  lemma StripTakesSpace(s: string) returns (l: string, r: string)
    ensures s == l + Strip(s) + r && AllSpace(l) && AllSpace(r) && Trimmed(Strip(s))
  {
    l := LeftPart(s);
    r := RightPart(StripLeft(s));
    StripTrims(s);
  }

  lemma {:induction false} StripLeftSpace(l: string, s: string)
    requires AllSpace(l) && (s == [] || !IsSpace(s[0]))
    ensures StripLeft(l + s) == s
  {
    if l == [] {
      assert l + s == s;
    } else {
      StripLeftSpace(l[1..], s);
      assert (l + s)[1..] == l[1..] + s;
    }
  }

  lemma {:induction false} StripRightSpace(s: string, r: string)
    requires AllSpace(r) && (s == [] || !IsSpace(s[|s| - 1]))
    ensures StripRight(s + r) == s
  {
    if r == [] {
      assert s + r == s;
    } else {
      StripRightSpace(s, r[..|r| - 1]);
      assert (s + r)[..|s + r| - 1] == s + r[..|r| - 1];
    }
  }

  /** Stripping gives back any trimmed text that white space is put around. */
  lemma StripSpace(l: string, s: string, r: string)
    requires AllSpace(l) && AllSpace(r) && Trimmed(s) && s != []
    ensures Strip(l + s + r) == s
  {
    assert l + s + r == l + (s + r) && (s + r)[0] == s[0];
    StripLeftSpace(l, s + r);
    StripRightSpace(s, r);
  }
}
