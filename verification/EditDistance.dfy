/** The edit distance behind label correction (`levenshtein`). */
module EditDistance {
  import opened Integers

  function Init(s: string): string
    requires s != ""
  {
    s[..|s| - 1]
  }

  function Last(s: string): char
    requires s != ""
  {
    s[|s| - 1]
  }

  function Distance(a: string, b: string): nat
    decreases |a| + |b|
  {
    if a == "" then |b|
    else if b == "" then |a|
    else
      Min(Min(Distance(Init(a), b) + 1, Distance(a, Init(b)) + 1),
          Distance(Init(a), Init(b)) + if Last(a) == Last(b) then 0 else 1)
  }

  // ---------- The one-row table ----------

  // One row of the table: the distances from a prefix of `left` to the prefixes of `right`.
  ghost predicate RowUpTo(row: seq<nat>, left: string, right: string, from: nat, to: nat) {
    |row| == |right| + 1 && to <= |row| && forall j :: from <= j < to ==> row[j] == Distance(left, right[..j])
  }

  lemma {:induction false} Cell(left: string, right: string, i: nat, j: nat)
    requires 0 < i <= |left| && 0 < j <= |right|
    ensures Distance(left[..i], right[..j])
         == Min(Min(Distance(left[..i - 1], right[..j]) + 1, Distance(left[..i], right[..j - 1]) + 1),
                Distance(left[..i - 1], right[..j - 1]) + if left[i - 1] == right[j - 1] then 0 else 1)
  {
    assert Init(left[..i]) == left[..i - 1] && Init(right[..j]) == right[..j - 1];
  }

  lemma {:induction false} Edges(left: string, right: string, i: nat, j: nat)
    requires i <= |left| && j <= |right|
    ensures Distance(left[..i], right[..0]) == i && Distance(left[..0], right[..j]) == j
  {
  }

  method Levenshtein(left: string, right: string) returns (distance: nat)
    ensures distance == Distance(left, right)
  {
    hide Distance, Min;
    var previous := new nat[|right| + 1](i => i);
    forall j | 0 <= j <= |right| ensures previous[..][j] == Distance(left[..0], right[..j]) {
      Edges(left, right, 0, j);
    }
    for i := 1 to |left| + 1
      invariant RowUpTo(previous[..], left[..i - 1], right, 0, |right| + 1)
    {
      var diagonal := previous[0];
      previous[0] := i;
      Edges(left, right, i, 0);
      for j := 1 to |right| + 1
        invariant RowUpTo(previous[..], left[..i], right, 0, j)
        invariant RowUpTo(previous[..], left[..i - 1], right, j, |right| + 1)
        invariant diagonal == Distance(left[..i - 1], right[..j - 1])
      {
        var above := previous[j];
        Cell(left, right, i, j);
        previous[j] := Min(Min(previous[j] + 1, previous[j - 1] + 1),
                           diagonal + if left[i - 1] == right[j - 1] then 0 else 1);
        diagonal := above;
      }
    }
    assert left[..|left|] == left && right[..|right|] == right;
    assert previous[|right|] == previous[..][|right|];
    distance := previous[|right|];
  }

  // ---------- The distance is a metric ----------

  lemma {:induction false} LengthBounds(a: string, b: string)
    ensures Distance(a, b) >= |a| - |b| && Distance(a, b) >= |b| - |a|
    ensures Distance(a, b) <= if |a| < |b| then |b| else |a|
    decreases |a| + |b|
  {
    if a != "" && b != "" {
      LengthBounds(Init(a), b);
      LengthBounds(a, Init(b));
      LengthBounds(Init(a), Init(b));
    }
  }

  lemma {:induction false} Symmetric(a: string, b: string)
    ensures Distance(a, b) == Distance(b, a)
    decreases |a| + |b|
  {
    if a != "" && b != "" {
      Symmetric(Init(a), b);
      Symmetric(a, Init(b));
      Symmetric(Init(a), Init(b));
    }
  }

  lemma {:induction false} ZeroIffEqual(a: string, b: string)
    ensures Distance(a, b) == 0 <==> a == b
    decreases |a| + |b|
  {
    if a != "" && b != "" {
      ZeroIffEqual(Init(a), Init(b));
      assert a == Init(a) + [Last(a)] && b == Init(b) + [Last(b)];
    }
  }

  lemma {:induction false} Triangle(a: string, b: string, c: string)
    ensures Distance(a, c) <= Distance(a, b) + Distance(b, c)
    decreases |a| + |b| + |c|
  {
    if a == "" || b == "" || c == "" {
      LengthBounds(a, b);
      LengthBounds(b, c);
      LengthBounds(a, c);
    } else {
      Triangle(Init(a), b, c);
      Triangle(a, b, Init(c));
      Triangle(a, Init(b), c);
      Triangle(a, Init(b), Init(c));
      Triangle(Init(a), Init(b), c);
      Triangle(Init(a), Init(b), Init(c));
    }
  }

  // ---------- The distance counts single-character edits ----------

  function InsertAt(s: string, i: nat, c: char): string
    requires i <= |s|
  {
    s[..i] + [c] + s[i..]
  }

  ghost predicate Inserts(s: string, t: string) {
    exists i: nat, c: char :: i <= |s| && t == InsertAt(s, i, c)
  }

  function ReplaceAt(s: string, i: nat, c: char): string
    requires i < |s|
  {
    s[i := c]
  }

  ghost predicate Replaces(s: string, t: string) {
    exists i: nat, c: char :: i < |s| && t == ReplaceAt(s, i, c)
  }

  ghost predicate OneEdit(s: string, t: string) {
    Inserts(s, t) || Inserts(t, s) || Replaces(s, t)
  }

  // A sequence of strings from a to b, each one edit away from the next.
  ghost predicate EditPath(path: seq<string>, a: string, b: string) {
    && path != [] && path[0] == a && path[|path| - 1] == b
    && forall k :: 0 <= k < |path| - 1 ==> OneEdit(path[k], path[k + 1])
  }

  lemma {:induction false} CommonSuffix(x: string, y: string, suffix: string)
    ensures Distance(x + suffix, y + suffix) <= Distance(x, y)
  {
    if suffix == "" {
      assert x + suffix == x && y + suffix == y;
    } else {
      CommonSuffix(x, y, Init(suffix));
      assert Init(x + suffix) == x + Init(suffix) && Init(y + suffix) == y + Init(suffix);
    }
  }

  lemma {:induction false} InsertIsNear(s: string, i: nat, c: char)
    requires i <= |s|
    ensures Distance(s, InsertAt(s, i, c)) <= 1
  {
    ZeroIffEqual(s[..i], s[..i]);
    assert Init(s[..i] + [c]) == s[..i];
    assert Distance(s[..i], s[..i] + [c]) <= 1;
    CommonSuffix(s[..i], s[..i] + [c], s[i..]);
    assert s == s[..i] + s[i..];
  }

  lemma {:induction false} ReplaceIsNear(s: string, i: nat, c: char)
    requires i < |s|
    ensures Distance(s, ReplaceAt(s, i, c)) <= 1
  {
    var x, y := s[..i] + [s[i]], s[..i] + [c];
    ZeroIffEqual(s[..i], s[..i]);
    assert Init(x) == s[..i] && Init(y) == s[..i];
    CommonSuffix(x, y, s[i + 1..]);
    assert s == x + s[i + 1..] && ReplaceAt(s, i, c) == y + s[i + 1..];
  }

  lemma {:induction false} OneEditIsNear(s: string, t: string)
    requires OneEdit(s, t)
    ensures Distance(s, t) <= 1
  {
    Symmetric(s, t);
    if Inserts(s, t) {
      var i: nat, c: char :| i <= |s| && t == InsertAt(s, i, c);
      InsertIsNear(s, i, c);
    } else if Inserts(t, s) {
      var i: nat, c: char :| i <= |t| && s == InsertAt(t, i, c);
      InsertIsNear(t, i, c);
    } else {
      var i: nat, c: char :| i < |s| && t == ReplaceAt(s, i, c);
      ReplaceIsNear(s, i, c);
    }
  }

  // No sequence of edits is shorter than the distance ...
  lemma {:induction false} PathIsLong(path: seq<string>, a: string, b: string)
    requires EditPath(path, a, b)
    ensures Distance(a, b) <= |path| - 1
  {
    if |path| == 1 {
      ZeroIffEqual(a, b);
    } else {
      var prefix := path[..|path| - 1];
      PathIsLong(prefix, a, prefix[|prefix| - 1]);
      assert OneEdit(path[|path| - 2], path[|path| - 1]);
      OneEditIsNear(prefix[|prefix| - 1], b);
      Triangle(a, prefix[|prefix| - 1], b);
    }
  }

  lemma {:induction false} LiftEdit(s: string, t: string, c: char)
    requires OneEdit(s, t)
    ensures OneEdit(s + [c], t + [c])
  {
    if Inserts(s, t) {
      var i: nat, d: char :| i <= |s| && t == InsertAt(s, i, d);
      assert t + [c] == InsertAt(s + [c], i, d);
    } else if Inserts(t, s) {
      var i: nat, d: char :| i <= |t| && s == InsertAt(t, i, d);
      assert s + [c] == InsertAt(t + [c], i, d);
    } else {
      var i: nat, d: char :| i < |s| && t == ReplaceAt(s, i, d);
      assert t + [c] == ReplaceAt(s + [c], i, d);
    }
  }

  function Lift(path: seq<string>, c: char): (lifted: seq<string>)
    ensures |lifted| == |path|
  {
    seq(|path|, k requires 0 <= k < |path| => path[k] + [c])
  }

  lemma {:induction false} LiftPath(path: seq<string>, a: string, b: string, c: char)
    requires EditPath(path, a, b)
    ensures EditPath(Lift(path, c), a + [c], b + [c])
  {
    forall k | 0 <= k < |path| - 1 ensures OneEdit(Lift(path, c)[k], Lift(path, c)[k + 1]) {
      LiftEdit(path[k], path[k + 1], c);
    }
  }

  lemma {:induction false} ExtendPath(path: seq<string>, a: string, b: string, c: string)
    requires EditPath(path, a, b) && OneEdit(b, c)
    ensures EditPath(path + [c], a, c)
  {
  }

  lemma {:induction false} PrependPath(a: string, path: seq<string>, b: string, c: string)
    requires EditPath(path, b, c) && OneEdit(a, b)
    ensures EditPath([a] + path, a, c)
  {
  }

  lemma {:induction false} AppendIsEdit(s: string)
    requires s != ""
    ensures OneEdit(Init(s), s) && OneEdit(s, Init(s))
  {
    assert s == InsertAt(Init(s), |s| - 1, Last(s));
  }

  lemma {:induction false} ReplaceLast(s: string, c: char)
    requires s != ""
    ensures OneEdit(Init(s) + [c], s)
  {
    assert s == ReplaceAt(Init(s) + [c], |s| - 1, Last(s));
  }

  lemma {:induction false} DistanceCases(a: string, b: string)
    ensures || (a == "" && b == "" && Distance(a, b) == 0)
            || (b != "" && Distance(a, b) == Distance(a, Init(b)) + 1)
            || (a != "" && Distance(a, b) == Distance(Init(a), b) + 1)
            || (a != "" && b != ""
                && Distance(a, b) == Distance(Init(a), Init(b)) + if Last(a) == Last(b) then 0 else 1)
  {
  }

  // ... and one sequence of edits is as short as the distance.
  lemma {:induction false} ShortestPath(a: string, b: string) returns (path: seq<string>)
    ensures EditPath(path, a, b) && |path| == Distance(a, b) + 1
    decreases |a| + |b|
  {
    hide OneEdit, EditPath, Distance;
    DistanceCases(a, b);
    if a == "" && b == "" {
      path := [a];
      TrivialPath(a);
    } else if b != "" && Distance(a, b) == Distance(a, Init(b)) + 1 {
      path := ShortestPath(a, Init(b));
      AppendIsEdit(b);
      ExtendPath(path, a, Init(b), b);
      path := path + [b];
    } else if a != "" && Distance(a, b) == Distance(Init(a), b) + 1 {
      path := ShortestPath(Init(a), b);
      AppendIsEdit(a);
      PrependPath(a, path, Init(a), b);
      path := [a] + path;
    } else {
      path := ShortestPath(Init(a), Init(b));
      LiftPath(path, Init(a), Init(b), Last(a));
      path := Lift(path, Last(a));
      assert a == Init(a) + [Last(a)] && b == Init(b) + [Last(b)];
      if Last(a) != Last(b) {
        ReplaceLast(b, Last(a));
        ExtendPath(path, a, Init(b) + [Last(a)], b);
        path := path + [b];
      }
    }
  }

  lemma {:induction false} TrivialPath(a: string)
    ensures EditPath([a], a, a)
  {
  }
}
