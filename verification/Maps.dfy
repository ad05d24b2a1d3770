/** `std::map` as the runtime uses it. */
module Maps {
  import opened Sequences

  /** `insert`: an existing entry stays. */
  function InsertNew<K, V>(m: map<K, V>, k: K, v: V): (r: map<K, V>) {
    if k in m then m else m[k := v]
  }

  /** One insertion after the other. */
  function InsertAll<K, V>(m: map<K, V>, ks: seq<K>, vs: seq<V>): (r: map<K, V>)
    requires |ks| == |vs|
  {
    if ks == [] then m
    else
      var i := |ks| - 1;
      InsertNew(InsertAll(m, ks[..i], vs[..i]), ks[i], vs[i])
  }

  lemma {:induction false} InsertedKeys<K, V>(ks: seq<K>, vs: seq<V>)
    requires |ks| == |vs|
    ensures var r := InsertAll(map[], ks, vs);
            && (|r| == |ks| <==> Distinct(ks)) && |r| <= |ks|
            && (forall k :: k in r <==> k in ks)
  {
    if ks != [] {
      var i := |ks| - 1;
      InsertedKeys(ks[..i], vs[..i]);
      var before := InsertAll(map[], ks[..i], vs[..i]);
      assert ks == ks[..i] + [ks[i]];
      assert before[ks[i] := vs[i]].Keys == before.Keys + {ks[i]};
      assert Distinct(ks) <==> Distinct(ks[..i]) && ks[i] !in ks[..i];
    }
  }

  lemma {:induction false} FirstKept<K, V>(ks: seq<K>, vs: seq<V>, j: nat)
    requires |ks| == |vs| && j < |ks| && ks[j] !in ks[..j]
    ensures ks[j] in InsertAll(map[], ks, vs) && InsertAll(map[], ks, vs)[ks[j]] == vs[j]
    decreases |ks|
  {
    var i := |ks| - 1;
    if j < i {
      assert ks[..i][..j] == ks[..j];
      FirstKept(ks[..i], vs[..i], j);
    } else {
      InsertedKeys(ks[..i], vs[..i]);
    }
  }

  /** Insertions into an empty map: every key is there with the value that came first, and there are
      as many entries as insertions exactly when no key repeats. */
  lemma InsertedIffDistinct<K, V>(ks: seq<K>, vs: seq<V>)
    requires |ks| == |vs|
    ensures var r := InsertAll(map[], ks, vs);
            && (|r| == |ks| <==> Distinct(ks)) && |r| <= |ks|
            && (forall k :: k in r <==> k in ks)
            && (forall i | 0 <= i < |ks| && ks[i] !in ks[..i] :: ks[i] in r && r[ks[i]] == vs[i])
  {
    hide InsertAll, Distinct;
    InsertedKeys(ks, vs);
    forall j | 0 <= j < |ks| && ks[j] !in ks[..j]
      ensures ks[j] in InsertAll(map[], ks, vs) && InsertAll(map[], ks, vs)[ks[j]] == vs[j]
    {
      FirstKept(ks, vs, j);
    }
  }

  /** With distinct keys nothing is discarded. */
  lemma DistinctAllInserted<K, V>(ks: seq<K>, vs: seq<V>)
    requires |ks| == |vs| && Distinct(ks)
    ensures var r := InsertAll(map[], ks, vs);
            && |r| == |ks|
            && (forall k :: k in r <==> k in ks)
            && (forall i | 0 <= i < |ks| :: ks[i] in r && r[ks[i]] == vs[i])
  {
    hide InsertAll;
    InsertedIffDistinct(ks, vs);
    forall i | 0 <= i < |ks| ensures ks[i] !in ks[..i] {
    }
  }
}
