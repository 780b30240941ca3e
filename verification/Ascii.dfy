/** Letter case and white space of ASCII characters, which stand for those of Unicode in this project. */
module Ascii {
  function LowerChar(c: char): char {
    if 'A' <= c <= 'Z' then (c as int + 32) as char else c
  }

  function UpperChar(c: char): char {
    if 'a' <= c <= 'z' then (c as int - 32) as char else c
  }

  // `toLowerCase`
  function Lower(s: string): string {
    seq(|s|, i requires 0 <= i < |s| => LowerChar(s[i]))
  }

  // `toUpperCase`
  function Upper(s: string): string {
    seq(|s|, i requires 0 <= i < |s| => UpperChar(s[i]))
  }

  predicate IsSpace(c: char) {
    c == ' ' || 9 <= c as int <= 13
  }

  function TrimStart(s: string): string {
    if s != "" && IsSpace(s[0]) then TrimStart(s[1..]) else s
  }

  function TrimEnd(s: string): string {
    if s != "" && IsSpace(s[|s| - 1]) then TrimEnd(s[..|s| - 1]) else s
  }

  // `trim`
  function Trim(s: string): string {
    TrimEnd(TrimStart(s))
  }

  predicate IsTrimmed(s: string) {
    s == "" || (!IsSpace(s[0]) && !IsSpace(s[|s| - 1]))
  }

  lemma {:induction false} TrimStartTrims(s: string)
    ensures TrimStart(s) == "" || !IsSpace(TrimStart(s)[0])
  {
    if s != "" && IsSpace(s[0]) { TrimStartTrims(s[1..]); }
  }

  lemma {:induction false} TrimEndTrims(s: string)
    requires s == "" || !IsSpace(s[0])
    ensures IsTrimmed(TrimEnd(s))
  {
    if s != "" && IsSpace(s[|s| - 1]) { TrimEndTrims(s[..|s| - 1]); }
  }

  lemma {:induction false} TrimTrims(s: string)
    ensures IsTrimmed(Trim(s))
  {
    TrimStartTrims(s);
    TrimEndTrims(TrimStart(s));
  }

  predicate AllSpace(s: string) {
    forall k :: 0 <= k < |s| ==> IsSpace(s[k])
  }

  lemma {:induction false} TrimStartCuts(s: string) returns (blanks: string)
    ensures s == blanks + TrimStart(s) && AllSpace(blanks)
  {
    if s != "" && IsSpace(s[0]) {
      var rest := TrimStartCuts(s[1..]);
      blanks := [s[0]] + rest;
    } else {
      blanks := "";
    }
  }

  lemma {:induction false} TrimEndCuts(s: string) returns (blanks: string)
    ensures s == TrimEnd(s) + blanks && AllSpace(blanks)
  {
    if s != "" && IsSpace(s[|s| - 1]) {
      var rest := TrimEndCuts(s[..|s| - 1]);
      blanks := rest + [s[|s| - 1]];
    } else {
      blanks := "";
    }
  }

  // Trimming cuts off the blanks at both ends and nothing else.
  lemma {:induction false} TrimCuts(s: string) returns (before: string, after: string)
    ensures s == before + Trim(s) + after && AllSpace(before) && AllSpace(after) && IsTrimmed(Trim(s))
  {
    before := TrimStartCuts(s);
    after := TrimEndCuts(TrimStart(s));
    TrimTrims(s);
  }

  // Blanks around a text do not change its trimmed form.
  lemma {:induction false} TrimIgnoresBlanks(before: string, s: string, after: string)
    requires AllSpace(before) && AllSpace(after)
    ensures Trim(before + s + after) == Trim(s)
  {
    hide TrimStart, TrimEnd, IsSpace;
    var b, a := TrimCuts(s);
    assert before + s + after == (before + b) + (Trim(s) + (a + after));
    assert s == b + (Trim(s) + a);
    TrimOf(before + b, Trim(s), a + after);
  }

  lemma {:induction false} TrimOf(before: string, s: string, after: string)
    requires AllSpace(before) && AllSpace(after) && IsTrimmed(s)
    ensures Trim(before + (s + after)) == s
  {
    SkipStart(before, s + after);
    if s == "" {
      assert s + after == after + "";
      SkipStart(after, "");
    } else {
      SkipEnd(s, after);
    }
  }

  lemma {:induction false} SkipStart(blanks: string, s: string)
    requires AllSpace(blanks)
    ensures TrimStart(blanks + s) == TrimStart(s)
  {
    if blanks == "" {
      assert blanks + s == s;
    } else {
      SkipStart(blanks[1..], s);
      assert (blanks + s)[1..] == blanks[1..] + s;
    }
  }

  lemma {:induction false} SkipEnd(s: string, blanks: string)
    requires AllSpace(blanks) && s != "" && IsTrimmed(s)
    ensures TrimEnd(s + blanks) == s
  {
    if blanks == "" {
      assert s + blanks == s;
    } else {
      var n := |blanks| - 1;
      SkipEnd(s, blanks[..n]);
      assert (s + blanks)[..|s + blanks| - 1] == s + blanks[..n];
    }
  }

  // The same letters, in upper or lower case.
  predicate SameLetter(a: char, b: char) {
    a == b || ('A' <= a <= 'Z' && b as int == a as int + 32) || ('A' <= b <= 'Z' && a as int == b as int + 32)
  }

  predicate SameUpToCase(a: string, b: string) {
    |a| == |b| && forall k :: 0 <= k < |a| ==> SameLetter(a[k], b[k])
  }

  lemma {:induction false} CasesDecide(a: string, b: string)
    ensures Lower(a) == Lower(b) <==> SameUpToCase(a, b)
    ensures Upper(a) == Upper(b) <==> SameUpToCase(a, b)
  {
    forall x: char, y: char
      ensures LowerChar(x) == LowerChar(y) <==> SameLetter(x, y)
      ensures UpperChar(x) == UpperChar(y) <==> SameLetter(x, y)
    {
    }
    if |a| == |b| {
      assert forall k :: 0 <= k < |a| ==> Lower(a)[k] == LowerChar(a[k]) && Lower(b)[k] == LowerChar(b[k]);
      assert forall k :: 0 <= k < |a| ==> Upper(a)[k] == UpperChar(a[k]) && Upper(b)[k] == UpperChar(b[k]);
    }
  }
}
