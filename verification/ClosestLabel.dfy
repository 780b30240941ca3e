/** Resolving a misspelt category label (`findClosestLabel`). */
module ClosestLabel {
  import opened Options
  import opened EditDistance

  // A candidate and its comparison key.
  datatype Candidate<T> = Candidate(value: T, key: string)

  datatype Ranked<T> = Ranked(candidate: Candidate<T>, distance: nat)

  function Rank<T>(requested: string, candidates: seq<Candidate<T>>): (ranked: seq<Ranked<T>>)
    ensures |ranked| == |candidates|
  {
    seq(|candidates|, i requires 0 <= i < |candidates| =>
      Ranked(candidates[i], Distance(requested, candidates[i].key)))
  }

  // Sorting by distance is stable.
  function Insert<T>(r: Ranked<T>, sorted: seq<Ranked<T>>): seq<Ranked<T>> {
    if sorted == [] || r.distance <= sorted[0].distance then [r] + sorted
    else [sorted[0]] + Insert(r, sorted[1..])
  }

  function Sort<T>(ranked: seq<Ranked<T>>): seq<Ranked<T>> {
    if ranked == [] then [] else Insert(ranked[0], Sort(ranked[1..]))
  }

  function FindExact<T>(requested: string, candidates: seq<Candidate<T>>): Option<Candidate<T>> {
    if candidates == [] then None
    else if candidates[0].key == requested then Some(candidates[0])
    else FindExact(requested, candidates[1..])
  }

  function Threshold(requested: string): nat {
    if |requested| <= 8 then 1 else 2
  }

  function FindClosest<T>(requested: string, candidates: seq<Candidate<T>>): Option<Candidate<T>> {
    var exact := FindExact(requested, candidates);
    if exact.Some? then exact
    else if |requested| < 5 then None
    else
      var ranked := Sort(Rank(requested, candidates));
      if ranked == [] || ranked[0].distance > Threshold(requested)
         || (|ranked| > 1 && ranked[0].distance == ranked[1].distance) then None
      else Some(ranked[0].candidate)
  }

  // A candidate that occurs once and is nearer than every other: no order of the candidates is involved.
  ghost predicate UniqueNearest<T(!new)>(requested: string, candidates: multiset<Candidate<T>>, c: Candidate<T>) {
    && candidates[c] == 1
    && forall other :: other in candidates && other != c ==> Distance(requested, c.key) < Distance(requested, other.key)
  }

  ghost predicate Sorted<T(!new)>(ranked: seq<Ranked<T>>) {
    forall i, j :: 0 <= i < j < |ranked| ==> ranked[i].distance <= ranked[j].distance
  }

  lemma {:induction false} InsertKeeps<T(!new)>(r: Ranked<T>, sorted: seq<Ranked<T>>)
    ensures multiset(Insert(r, sorted)) == multiset([r] + sorted)
  {
    if sorted != [] && r.distance > sorted[0].distance {
      InsertKeeps(r, sorted[1..]);
      assert [r] + sorted == [r] + ([sorted[0]] + sorted[1..]);
    }
  }

  lemma {:induction false} InsertSorts<T(!new)>(r: Ranked<T>, sorted: seq<Ranked<T>>)
    requires Sorted(sorted)
    ensures Sorted(Insert(r, sorted))
  {
    if sorted != [] && r.distance > sorted[0].distance {
      InsertSorts(r, sorted[1..]);
      InsertKeeps(r, sorted[1..]);
      var rest := Insert(r, sorted[1..]);
      forall k | 0 <= k < |rest| ensures sorted[0].distance <= rest[k].distance {
        assert rest[k] in multiset([r] + sorted[1..]);
      }
    }
  }

  lemma {:induction false} SortSorts<T(!new)>(ranked: seq<Ranked<T>>)
    ensures Sorted(Sort(ranked))
    ensures multiset(Sort(ranked)) == multiset(ranked)
  {
    if ranked != [] {
      SortSorts(ranked[1..]);
      InsertSorts(ranked[0], Sort(ranked[1..]));
      InsertKeeps(ranked[0], Sort(ranked[1..]));
      assert ranked == [ranked[0]] + ranked[1..];
    }
  }

  lemma {:induction false} ExactIsFound<T(!new)>(requested: string, candidates: seq<Candidate<T>>)
    ensures FindExact(requested, candidates).Some?
       <==> exists i :: 0 <= i < |candidates| && candidates[i].key == requested
    ensures FindExact(requested, candidates).Some? ==>
              && FindExact(requested, candidates).value in candidates
              && FindExact(requested, candidates).value.key == requested
  {
    if candidates != [] {
      ExactIsFound(requested, candidates[1..]);
      if exists i :: 0 <= i < |candidates| && candidates[i].key == requested {
        var i :| 0 <= i < |candidates| && candidates[i].key == requested;
        if i > 0 { assert candidates[1..][i - 1].key == requested; }
      }
      if FindExact(requested, candidates[1..]).Some? {
        var i :| 0 <= i < |candidates[1..]| && candidates[1..][i].key == requested;
        assert candidates[i + 1].key == requested;
      }
    }
  }

  ghost function RankOf<T>(requested: string, c: Candidate<T>): Ranked<T> {
    Ranked(c, Distance(requested, c.key))
  }

  lemma {:induction false} RankCounts<T(!new)>(requested: string, candidates: seq<Candidate<T>>, c: Candidate<T>)
    ensures multiset(Rank(requested, candidates))[RankOf(requested, c)] == multiset(candidates)[c]
  {
    if candidates != [] {
      RankCounts(requested, candidates[1..], c);
      assert candidates == [candidates[0]] + candidates[1..];
      assert Rank(requested, candidates) == [RankOf(requested, candidates[0])] + Rank(requested, candidates[1..]);
    }
  }

  lemma {:induction false} RankMembers<T(!new)>(requested: string, candidates: seq<Candidate<T>>, r: Ranked<T>)
    requires r in Rank(requested, candidates)
    ensures r == RankOf(requested, r.candidate) && r.candidate in candidates
  {
  }

  // The head of the sorted ranking wins when its successor is farther away.
  lemma {:induction false} HeadIsUnique<T(!new)>(requested: string, candidates: seq<Candidate<T>>,
                                          sorted: seq<Ranked<T>>)
    requires Sorted(sorted) && multiset(sorted) == multiset(Rank(requested, candidates))
    requires sorted != [] && (|sorted| > 1 ==> sorted[0].distance != sorted[1].distance)
    ensures sorted[0] == RankOf(requested, sorted[0].candidate)
    ensures UniqueNearest(requested, multiset(candidates), sorted[0].candidate)
  {
    var c := sorted[0].candidate;
    assert sorted[0] in multiset(sorted);
    RankMembers(requested, candidates, sorted[0]);
    RankCounts(requested, candidates, c);
    assert sorted == [sorted[0]] + sorted[1..];
    assert sorted[0] !in sorted[1..];
    forall other | other in multiset(candidates) && other != c
      ensures Distance(requested, c.key) < Distance(requested, other.key)
    {
      RankCounts(requested, candidates, other);
      assert RankOf(requested, other) in multiset(sorted);
      var k :| 0 <= k < |sorted| && sorted[k] == RankOf(requested, other);
      assert k > 0 && sorted[1].distance <= sorted[k].distance;
    }
  }

  lemma {:induction false} UniqueIsHead<T(!new)>(requested: string, candidates: seq<Candidate<T>>,
                                          sorted: seq<Ranked<T>>, c: Candidate<T>)
    requires Sorted(sorted) && multiset(sorted) == multiset(Rank(requested, candidates))
    requires UniqueNearest(requested, multiset(candidates), c)
    ensures sorted != [] && sorted[0] == RankOf(requested, c)
    ensures |sorted| > 1 ==> sorted[0].distance != sorted[1].distance
  {
    RankCounts(requested, candidates, c);
    assert RankOf(requested, c) in multiset(sorted);
    var k :| 0 <= k < |sorted| && sorted[k] == RankOf(requested, c);
    assert sorted[0] in multiset(sorted);
    RankMembers(requested, candidates, sorted[0]);
    if |sorted| > 1 {
      assert sorted[1] in multiset(sorted);
      RankMembers(requested, candidates, sorted[1]);
      assert sorted == [sorted[0]] + ([sorted[1]] + sorted[2..]);
    }
  }

  // When no key matches exactly, a label is corrected to c if and only if c is the one nearest candidate and lies
  // within the threshold for the length of the requested key.
  lemma {:induction false} CorrectsToUniqueNearest<T(!new)>(requested: string, candidates: seq<Candidate<T>>,
                                                     c: Candidate<T>)
    requires forall i :: 0 <= i < |candidates| ==> candidates[i].key != requested
    ensures FindClosest(requested, candidates) == Some(c)
       <==> && UniqueNearest(requested, multiset(candidates), c)
            && ((5 <= |requested| <= 8 && Distance(requested, c.key) <= 1)
                || (|requested| > 8 && Distance(requested, c.key) <= 2))
  {
    hide Insert, UniqueNearest, Distance;
    ExactIsFound(requested, candidates);
    SortSorts(Rank(requested, candidates));
    var sorted := Sort(Rank(requested, candidates));
    if sorted != [] && (|sorted| > 1 ==> sorted[0].distance != sorted[1].distance) {
      HeadIsUnique(requested, candidates, sorted);
    }
    if UniqueNearest(requested, multiset(candidates), c) {
      UniqueIsHead(requested, candidates, sorted, c);
    }
  }

  // The correction does not depend on the order in which the candidates are listed.
  lemma {:induction false} CorrectionIgnoresOrder<T(!new)>(requested: string, a: seq<Candidate<T>>,
                                                    b: seq<Candidate<T>>)
    requires multiset(a) == multiset(b)
    requires forall i :: 0 <= i < |a| ==> a[i].key != requested
    ensures FindClosest(requested, a) == FindClosest(requested, b)
  {
    forall i | 0 <= i < |b| ensures b[i].key != requested {
      assert b[i] in multiset(a);
    }
    hide FindClosest, UniqueNearest;
    var x, y := FindClosest(requested, a), FindClosest(requested, b);
    if x.Some? {
      CorrectsToUniqueNearest(requested, a, x.value);
      CorrectsToUniqueNearest(requested, b, x.value);
    } else if y.Some? {
      CorrectsToUniqueNearest(requested, a, y.value);
      CorrectsToUniqueNearest(requested, b, y.value);
    }
  }

  // The first exact match always wins, whatever the distances of the others.
  lemma {:induction false} ExactMatchWins<T(!new)>(requested: string, candidates: seq<Candidate<T>>, i: nat)
    requires i < |candidates| && candidates[i].key == requested
    requires forall j :: 0 <= j < i ==> candidates[j].key != requested
    ensures FindClosest(requested, candidates) == Some(candidates[i])
  {
    FirstExact(requested, candidates, i);
  }

  lemma {:induction false} FirstExact<T(!new)>(requested: string, candidates: seq<Candidate<T>>, i: nat)
    requires i < |candidates| && candidates[i].key == requested
    requires forall j :: 0 <= j < i ==> candidates[j].key != requested
    ensures FindExact(requested, candidates) == Some(candidates[i])
  {
    if i > 0 { FirstExact(requested, candidates[1..], i - 1); }
  }
}
