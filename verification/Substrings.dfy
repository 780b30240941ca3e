/** Finding and replacing parts of a string. */
module Substrings {
  predicate IncludedAt(text: string, part: string, i: nat) {
    i + |part| <= |text| && text[i..i + |part|] == part
  }

  predicate Includes(text: string, part: string) {
    exists i :: 0 <= i <= |text| && IncludedAt(text, part, i)
  }

  // Every occurrence from left to right replaced.
  function Replace(text: string, mark: string, value: string): string
    requires mark != ""
  {
    if text == "" then ""
    else if mark <= text then value + Replace(text[|mark|..], mark, value)
    else [text[0]] + Replace(text[1..], mark, value)
  }

  lemma {:induction false} IncludesRest(text: string, part: string)
    requires text != ""
    ensures Includes(text, part) <==> part <= text || Includes(text[1..], part)
  {
    if part <= text { assert IncludedAt(text, part, 0); }
    forall i | 0 <= i <= |text| - 1 ensures IncludedAt(text[1..], part, i) <==> IncludedAt(text, part, i + 1) {
      if i + 1 + |part| <= |text| { assert text[1..][i..i + |part|] == text[i + 1..i + 1 + |part|]; }
    }
    if Includes(text, part) && !(part <= text) {
      var k :| 0 <= k <= |text| && IncludedAt(text, part, k);
      assert IncludedAt(text[1..], part, k - 1);
    }
  }

  lemma {:induction false} NothingReplaced(text: string, mark: string, value: string)
    requires mark != "" && !Includes(text, mark)
    ensures Replace(text, mark, value) == text
  {
    hide Includes;
    if text != "" {
      IncludesRest(text, mark);
      NothingReplaced(text[1..], mark, value);
    }
  }

  // The first occurrence is replaced where it stands, and then those in the text behind it.
  lemma {:induction false} FirstReplaced(text: string, mark: string, value: string) returns (i: nat)
    requires mark != "" && Includes(text, mark)
    ensures IncludedAt(text, mark, i) && forall j :: 0 <= j < i ==> !IncludedAt(text, mark, j)
    ensures Replace(text, mark, value) == text[..i] + value + Replace(text[i + |mark|..], mark, value)
  {
    hide Includes, Replace;
    i := 0;
    NotInEmpty(text, mark);
    IncludesRest(text, mark);
    if mark <= text {
      ReplacedAtStart(text, mark, value);
    } else {
      var rest := FirstReplaced(text[1..], mark, value);
      i := rest + 1;
      OneLater(text, mark, rest);
      ReplacedLater(text, mark, value, rest);
    }
  }

  lemma {:induction false} ReplacedAtStart(text: string, mark: string, value: string)
    requires mark != "" && mark <= text
    ensures Replace(text, mark, value) == text[..0] + value + Replace(text[0 + |mark|..], mark, value)
  {
    assert text[..0] + value == value;
  }

  lemma {:induction false} ReplacedLater(text: string, mark: string, value: string, rest: nat)
    requires text != "" && mark != "" && !(mark <= text) && rest + |mark| <= |text[1..]|
    requires Replace(text[1..], mark, value)
          == text[1..][..rest] + value + Replace(text[1..][rest + |mark|..], mark, value)
    ensures Replace(text, mark, value) == text[..rest + 1] + value + Replace(text[rest + 1 + |mark|..], mark, value)
  {
    hide Replace;
    ReplacedRest(text, mark, value);
    var before, after := text[1..][..rest], Replace(text[rest + 1 + |mark|..], mark, value);
    assert text[1..][rest + |mark|..] == text[rest + 1 + |mark|..];
    assert text[..rest + 1] == [text[0]] + before;
    assert [text[0]] + (before + value + after) == [text[0]] + before + value + after;
  }

  lemma {:induction false} ReplacedRest(text: string, mark: string, value: string)
    requires text != "" && mark != "" && !(mark <= text)
    ensures Replace(text, mark, value) == [text[0]] + Replace(text[1..], mark, value)
  {
  }

  lemma {:induction false} NotInEmpty(text: string, part: string)
    requires part != "" && Includes(text, part)
    ensures text != ""
  {
  }

  lemma {:induction false} OneLater(text: string, part: string, i: nat)
    requires text != "" && !(part <= text)
    requires IncludedAt(text[1..], part, i) && forall j :: 0 <= j < i ==> !IncludedAt(text[1..], part, j)
    ensures IncludedAt(text, part, i + 1) && forall j :: 0 <= j < i + 1 ==> !IncludedAt(text, part, j)
  {
    forall k: nat ensures IncludedAt(text[1..], part, k) <==> IncludedAt(text, part, k + 1) {
      if k + 1 + |part| <= |text| { assert text[1..][k..k + |part|] == text[k + 1..k + 1 + |part|]; }
    }
    forall j | 0 <= j < i + 1 ensures !IncludedAt(text, part, j) {
      if j > 0 { assert !IncludedAt(text[1..], part, j - 1); }
    }
  }

  // Texts joined by a colon come apart at the first colon.
  lemma {:induction false} SplitAtFirstColon(a: string, x: string, b: string, y: string)
    requires ':' !in a && ':' !in b && a + ":" + x == b + ":" + y
    ensures a == b && x == y
  {
    var whole, other := a + ":" + x, b + ":" + y;
    assert whole[|a|] == ':' && other[|b|] == ':';
    assert forall k :: 0 <= k < |a| ==> whole[k] == a[k] != ':';
    assert forall k :: 0 <= k < |b| ==> other[k] == b[k] != ':';
    assert |a| == |b|;
    assert whole[..|a|] == a && other[..|b|] == b;
    assert whole[|a| + 1..] == x && other[|b| + 1..] == y;
  }
}
