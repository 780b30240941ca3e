/** The set of the elements of a sequence, and strings longer than those of a set. */
module Sequences {
  function ToSet<T(==)>(items: seq<T>): set<T> {
    set x | x in items
  }

  lemma {:induction false} SizeOfDistinct<T>(items: seq<T>)
    requires forall a, b :: 0 <= a < b < |items| ==> items[a] != items[b]
    ensures |ToSet(items)| == |items|
  {
    if items == [] {
      assert ToSet(items) == {};
    } else {
      var n := |items| - 1;
      SizeOfDistinct(items[..n]);
      assert ToSet(items) == ToSet(items[..n]) + {items[n]};
    }
  }

  // A length that no string of a set reaches.
  lemma {:induction false} LongerThan(keys: set<string>) returns (n: nat)
    ensures forall key :: key in keys ==> |key| < n
    decreases |keys|
  {
    if keys == {} {
      n := 0;
    } else {
      var key :| key in keys;
      n := LongerThan(keys - {key});
      if n <= |key| { n := |key| + 1; }
    }
  }
}
