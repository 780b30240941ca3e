/**
 JavaScript's `Map`: entries stay in the order in which their keys were first inserted, and setting a
 key again replaces its value in place.  `FromPairs` builds one from a list of pairs.
 */
module JsMap {
  import opened Options

  type JsMap<K(==), V> = seq<(K, V)>

  ghost predicate DistinctKeys<K, V>(m: JsMap<K, V>) {
    forall i, j :: 0 <= i < j < |m| ==> m[i].0 != m[j].0
  }

  // The first position of `key`, or |m| when it is absent.
  function IndexOf<K(==), V>(m: JsMap<K, V>, key: K): (i: nat)
    ensures i <= |m|
    ensures i < |m| ==> m[i].0 == key
    ensures forall j :: 0 <= j < i ==> m[j].0 != key
  {
    if m == [] then 0 else if m[0].0 == key then 0 else 1 + IndexOf(m[1..], key)
  }

  function Get<K(==), V>(m: JsMap<K, V>, key: K): Option<V> {
    var i := IndexOf(m, key);
    if i < |m| then Some(m[i].1) else None
  }

  function Set<K(==), V>(m: JsMap<K, V>, key: K, value: V): JsMap<K, V> {
    var i := IndexOf(m, key);
    if i < |m| then m[i := (key, value)] else m + [(key, value)]
  }

  function FromPairs<K(==), V>(pairs: seq<(K, V)>): JsMap<K, V> {
    if pairs == [] then [] else
      var last := pairs[|pairs| - 1];
      Set(FromPairs(pairs[..|pairs| - 1]), last.0, last.1)
  }

  function Values<K(==), V>(m: JsMap<K, V>): (values: seq<V>)
    ensures |values| == |m|
    ensures forall i :: 0 <= i < |m| ==> values[i] == m[i].1
  {
    seq(|m|, i requires 0 <= i < |m| => m[i].1)
  }

  // The value of the last pair with this key.
  function LastValue<K(==), V>(pairs: seq<(K, V)>, key: K): Option<V> {
    if pairs == [] then None
    else if pairs[|pairs| - 1].0 == key then Some(pairs[|pairs| - 1].1)
    else LastValue(pairs[..|pairs| - 1], key)
  }

  lemma {:induction false} SetProperties<K, V>(m: JsMap<K, V>, key: K, value: V)
    requires DistinctKeys(m)
    ensures DistinctKeys(Set(m, key, value))
    ensures Get(Set(m, key, value), key) == Some(value)
    ensures forall other :: other != key ==> Get(Set(m, key, value), other) == Get(m, other)
  {
    var s := Set(m, key, value);
    forall other | other != key ensures Get(s, other) == Get(m, other) {
      var i, j := IndexOf(m, other), IndexOf(s, other);
      if i < |m| { assert s[i].0 == other; }
    }
    var j := IndexOf(s, key);
    var i := IndexOf(m, key);
    assert s[i] == (key, value);
  }

  // A map built from pairs holds each key once and keeps the last value given for it.
  lemma {:induction false} FromPairsKeepsLast<K, V>(pairs: seq<(K, V)>)
    ensures DistinctKeys(FromPairs(pairs))
    ensures forall key :: Get(FromPairs(pairs), key) == LastValue(pairs, key)
  {
    if pairs != [] {
      var last := pairs[|pairs| - 1];
      var init := pairs[..|pairs| - 1];
      FromPairsKeepsLast(init);
      SetProperties(FromPairs(init), last.0, last.1);
    }
  }

  lemma {:induction false} IndexOfLonger<K, V>(init: seq<(K, V)>, last: (K, V), key: K)
    ensures IndexOf(init + [last], key)
         == if IndexOf(init, key) < |init| then IndexOf(init, key)
            else if last.0 == key then |init| else |init| + 1
  {
    var longer := init + [last];
    var i, j := IndexOf(init, key), IndexOf(longer, key);
    if i < |init| { assert longer[i].0 == key; }
    if j < |init| { assert init[j].0 == key; }
    if j == |init| { assert longer[j] == last; }
    assert longer[|init|] == last;
  }

  // Its keys stand in the order in which the pairs first name them, and no key is added or lost.
  lemma {:induction false} FromPairsKeepsOrder<K, V>(pairs: seq<(K, V)>)
    ensures forall key :: IndexOf(FromPairs(pairs), key) < |FromPairs(pairs)| <==> IndexOf(pairs, key) < |pairs|
    ensures forall i, j :: 0 <= i < j < |FromPairs(pairs)| ==>
              IndexOf(pairs, FromPairs(pairs)[i].0) < IndexOf(pairs, FromPairs(pairs)[j].0)
  {
    hide Set, IndexOf;
    if pairs != [] {
      var init, last := pairs[..|pairs| - 1], pairs[|pairs| - 1];
      var before, after := FromPairs(init), FromPairs(pairs);
      assert pairs == init + [last];
      FromPairsKeepsOrder(init);
      KeysAfterSet(before, last.0, last.1);
      forall key ensures IndexOf(after, key) < |after| <==> IndexOf(pairs, key) < |pairs| {
        IndexOfLonger(init, last, key);
      }
      forall i, j | 0 <= i < j < |after| ensures IndexOf(pairs, after[i].0) < IndexOf(pairs, after[j].0) {
        IndexOfLonger(init, last, after[i].0);
        IndexOfLonger(init, last, after[j].0);
        assert i < |before| ==> IndexOf(before, before[i].0) < |before|;
        assert j < |before| ==> IndexOf(before, before[j].0) < |before|;
      }
    }
  }

  // Setting a key leaves the others where they are, and puts a new key last.
  lemma {:induction false} KeysAfterSet<K, V>(m: JsMap<K, V>, key: K, value: V)
    ensures |m| <= |Set(m, key, value)| && forall i :: 0 <= i < |m| ==> Set(m, key, value)[i].0 == m[i].0
    ensures |Set(m, key, value)| == if IndexOf(m, key) < |m| then |m| else |m| + 1
    ensures IndexOf(m, key) == |m| ==> Set(m, key, value)[|m|].0 == key
    ensures forall other :: IndexOf(Set(m, key, value), other) < |Set(m, key, value)|
                       <==> other == key || IndexOf(m, other) < |m|
  {
    var s := Set(m, key, value);
    forall other ensures IndexOf(s, other) < |s| <==> other == key || IndexOf(m, other) < |m| {
      var i, j := IndexOf(m, other), IndexOf(s, other);
      if i < |m| { assert s[i].0 == other; }
      if j < |m| { assert m[j].0 == other || other == key; }
      assert s[IndexOf(m, key)].0 == key;
    }
  }

  // Pairs that already have distinct keys are kept as they are, in order.
  lemma {:induction false} FromDistinctPairs<K, V>(pairs: seq<(K, V)>)
    requires DistinctKeys(pairs)
    ensures FromPairs(pairs) == pairs
  {
    if pairs != [] {
      var init := pairs[..|pairs| - 1];
      FromDistinctPairs(init);
      assert pairs == init + [pairs[|pairs| - 1]];
    }
  }

  lemma {:induction false} GetAt<K, V>(m: JsMap<K, V>, i: nat)
    requires DistinctKeys(m) && i < |m|
    ensures IndexOf(m, m[i].0) == i
    ensures Get(m, m[i].0) == Some(m[i].1)
  {
  }

  lemma {:induction false} LastValueExists<K, V>(pairs: seq<(K, V)>, i: nat)
    requires i < |pairs|
    ensures LastValue(pairs, pairs[i].0).Some?
  {
    if pairs[|pairs| - 1].0 != pairs[i].0 {
      LastValueExists(pairs[..|pairs| - 1], i);
    }
  }

  lemma {:induction false} LastValueWitness<K, V>(pairs: seq<(K, V)>, key: K) returns (i: nat)
    requires LastValue(pairs, key).Some?
    ensures i < |pairs| && pairs[i] == (key, LastValue(pairs, key).value)
    ensures forall j :: i < j < |pairs| ==> pairs[j].0 != key
  {
    if pairs[|pairs| - 1].0 == key {
      i := |pairs| - 1;
    } else {
      i := LastValueWitness(pairs[..|pairs| - 1], key);
    }
  }
}
