/** Orderings and repetitions in sequences. */
module Sequences {

  predicate Increasing(xs: seq<int>) {
    forall i, j | 0 <= i < j < |xs| :: xs[i] < xs[j]
  }

  /** Increasing sequences with the same members are the same. */
  lemma {:induction false} SortedUnique(xs: seq<int>, ys: seq<int>)
    requires Increasing(xs) && Increasing(ys) && forall x :: x in xs <==> x in ys
    ensures xs == ys
  {
    FirstIn(xs);
    FirstIn(ys);
    if xs != [] && ys != [] {
      assert xs[0] == ys[0];
      assert xs == [xs[0]] + xs[1..] && ys == [xs[0]] + ys[1..];
      forall x ensures x in xs[1..] <==> x in ys[1..] {
        assert x in xs[1..] <==> x in xs && x != xs[0];
        assert x in ys[1..] <==> x in ys && x != ys[0];
      }
      SortedUnique(xs[1..], ys[1..]);
    }
  }

  lemma FirstIn(xs: seq<int>)
    ensures xs != [] ==> xs[0] in xs
  {
  }

  predicate Distinct<K(==)>(ks: seq<K>) {
    forall i, j | 0 <= i < j < |ks| :: ks[i] != ks[j]
  }

  lemma {:induction false} DistinctSize<K>(ks: seq<K>)
    requires Distinct(ks)
    ensures |set k | k in ks| == |ks|
  {
    if ks != [] {
      var front, last := ks[..|ks| - 1], ks[|ks| - 1];
      DistinctSize(front);
      assert (set k | k in ks) == (set k | k in front) + {last};
      assert last !in front;
    }
  }

  /** Two ways to list the same members without repeating any have the same length. */
  lemma SameMembersSameLength<K>(ks: seq<K>, ls: seq<K>)
    requires Distinct(ks) && Distinct(ls) && forall k :: k in ks <==> k in ls
    ensures |ks| == |ls|
  {
    DistinctSize(ks);
    DistinctSize(ls);
    assert (set k | k in ks) == (set k | k in ls);
  }
}
