/**
 Exactly when the parties' sums are shares of one polynomial: when the machine integers hold the
 coefficients of all share sets, which for the compiler's codes means at most seventeen parties.
 */
module SharingExact {
  import opened Sequences
  import opened Polynomials
  import opened ShareSets
  import opened CoefficientRange
  import opened Interpolation
  import opened FifoNetwork
  import opened SeedSetup
  import opened SharedKeys
  import opened PseudoRandomSharing

  /** Some polynomial of degree at most `t` has every party's sum as its value at the party's number. */
  ghost predicate SharesAgree(seeds: seq<int>, n: nat, t: nat, keys: seq<seq<Key>>, s: State<Key>, v: Key -> int)
    requires Completed(seeds, n, t, keys, s)
  {
    exists c: seq<int> :: IsShared(seeds, n, t, keys, s, v, c)
  }

  ghost predicate IsShared(seeds: seq<int>, n: nat, t: nat, keys: seq<seq<Key>>, s: State<Key>, v: Key -> int,
                           c: seq<int>)
    requires Completed(seeds, n, t, keys, s)
  {
    |c| == t + 1 && forall q: nat | 1 <= q <= n :: SumOf(seeds, n, t, keys, s, q, v) == Eval(c, q)
  }

  // ----- the parties outside a set

  function OthersThan(T: seq<int>, n: nat): (r: seq<int>) {
    if n == 0 then [] else OthersThan(T, n - 1) + if n in T then [] else [n]
  }

  lemma {:induction false} OthersMembers(T: seq<int>, n: nat)
    ensures forall x :: x in OthersThan(T, n) <==> 1 <= x <= n && x !in T
    ensures Distinct(OthersThan(T, n))
  {
    if n > 0 {
      OthersMembers(T, n - 1);
    }
  }

  predicate SameUpTo(T: seq<int>, T': seq<int>, n: nat) {
    forall x: int | 1 <= x <= n :: x in T <==> x in T'
  }

  lemma {:induction false} SameOthers(T: seq<int>, T': seq<int>, n: nat)
    requires SameUpTo(T, T', n)
    ensures OthersThan(T, n) == OthersThan(T', n)
  {
    if n > 0 {
      SameOthers(T, T', n - 1);
    }
  }

  predicate Within(T: seq<int>, n: nat) {
    Increasing(T) && forall i | 0 <= i < |T| :: 1 <= T[i] <= n
  }

  lemma WithLast(T: seq<int>, n: nat)
    requires Within(T, n) && T != [] && T[|T| - 1] == n > 0
    ensures Within(T[..|T| - 1], n - 1) && n in T
    ensures SameUpTo(T, T[..|T| - 1], n - 1)
  {
    assert T == T[..|T| - 1] + [n];
  }

  lemma WithoutLast(T: seq<int>, n: nat)
    requires Within(T, n) && n > 0 && (T == [] || T[|T| - 1] != n)
    ensures Within(T, n - 1) && n !in T
  {
    forall i | 0 <= i < |T| ensures T[i] < n {
      assert i < |T| - 1 ==> T[i] < T[|T| - 1];
    }
  }

  lemma {:induction false} OthersCount(T: seq<int>, n: nat)
    requires Within(T, n)
    ensures |OthersThan(T, n)| + |T| == n
    decreases n
  {
    if n == 0 {
      assert T == [];
    } else {
      OthersNext(T, n);
      hide OthersThan, Within, SameUpTo;
      if T != [] && T[|T| - 1] == n {
        WithLast(T, n);
        SameOthers(T, T[..|T| - 1], n - 1);
        OthersCount(T[..|T| - 1], n - 1);
      } else {
        WithoutLast(T, n);
        OthersCount(T, n - 1);
      }
    }
  }

  lemma OthersNext(T: seq<int>, n: nat)
    requires n > 0
    ensures |OthersThan(T, n)| == |OthersThan(T, n - 1)| + if n in T then 0 else 1
  {
  }

  // ----- one key at a time

  lemma {:induction false} ZeroSum(m: map<Key, seq<int>>, v: Key -> int, x: int)
    requires forall k | k in m :: v(k) == 0
    ensures TableSum(m, v, x) == 0
    decreases |m|
  {
    if m == map[] {
      TableSumEmpty(m, v, x);
    } else {
      var k :| k in m;
      RemoveSmaller(m, k);
      TableSumSplit(m, k, v, x);
      ZeroSum(m - {k}, v, x);
    }
  }

  /** With the value 1 for one key and 0 for all others, the sum is the polynomial of that key. */
  lemma SingleKeySum(m: map<Key, seq<int>>, key: Key, v: Key -> int, x: int)
    requires forall k :: v(k) == if k == key then 1 else 0
    ensures TableSum(m, v, x) == if key in m then Eval(m[key], x) else 0
  {
    if key in m {
      TableSumSplit(m, key, v, x);
      ZeroSum(m - {key}, v, x);
    } else {
      ZeroSum(m, v, x);
    }
  }

  lemma KeySums(seeds: seq<int>, n: nat, t: nat, keys: seq<seq<Key>>, s: State<Key>, c: nat, p: nat, q: nat,
                v: Key -> int)
    requires Completed(seeds, n, t, keys, s) && KeysDistinct(seeds, n, keys) && 1 <= q <= n
    requires c < |seeds| && 1 <= p <= n && forall k :: v(k) == if k == keys[p][c] then 1 else 0
    ensures SumOf(seeds, n, t, keys, s, q, v)
         == if q in ShareSet(seeds[c], n, p) then 0 else Eval(InMachine(KeyPolynomial(seeds, n, t, c, p)), q)
  {
    hide Reachable, IsSeedMap, SeedSystem, Finished, ArrivedRight, ShamirTable, Eval, TableSum, ShareSet;
    hide KeyPolynomial, InMachine, Shapes;
    CompletedArrivals(seeds, n, t, keys, s, q);
    var arrived := Arrived(seeds, n, t, s, q);
    var table := ShamirTable(seeds, n, t, q, keys[q], arrived);
    SingleKeySum(table, keys[p][c], v, q);
    if q !in ShareSet(seeds[c], n, p) {
      PolynomialFiled(seeds, n, t, keys, q, arrived, c, p);
    } else if keys[p][c] in table {
      var c', p' := PolynomialHeld(seeds, n, t, keys, q, arrived, keys[p][c]);
      assert false;
    }
  }

  // ----- the law fails wherever an entry is cut off

  lemma Monic(T: seq<int>, t: nat)
    ensures Coefficients(Negated(T), t)[0] == 1 == InMachine(Coefficients(Negated(T), t))[0]
  {
    ElementaryZero(Negated(T));
  }

  /** A machine polynomial whose values, cut to zero on the set, come from a polynomial of the same
      degree is the polynomial of the set. */
  lemma ForcedExact(T: seq<int>, n: nat, t: nat, shared: seq<int>)
    requires n == 2 * t + 1 && IsSubset(T, n, t) && |shared| == t + 1
    requires forall q: nat | 1 <= q <= n ::
               Eval(shared, q) == if q in T then 0 else Eval(InMachine(Coefficients(Negated(T), t)), q)
    ensures EntriesExact(T, t)
  {
    hide Coefficients, InMachine, Eval, OthersThan;
    var exact, stored := Coefficients(Negated(T), t), InMachine(Coefficients(Negated(T), t));
    var others := OthersThan(T, n);
    OthersCount(T, n);
    OthersMembers(T, n);
    forall i | 0 <= i < |others| ensures Eval(shared, others[i]) == Eval(stored, others[i]) {
      assert others[i] in others;
    }
    Determined(shared, stored, others);
    Monic(T, t);
    forall i | 0 <= i < |T| ensures Eval(stored, T[i]) == Eval(exact, T[i]) {
      ZeroExactlyOnRoots(T, T[i]);
    }
    DeterminedMonic(stored, exact, T);
  }

  lemma AgreeingIsExact(seeds: seq<int>, n: nat, t: nat, keys: seq<seq<Key>>, s: State<Key>, c: nat, p: nat)
    requires Completed(seeds, n, t, keys, s) && KeysDistinct(seeds, n, keys) && c < |seeds| && 1 <= p <= n
    requires forall v: Key -> int :: SharesAgree(seeds, n, t, keys, s, v)
    ensures EntriesExact(ShareSet(seeds[c], n, p), t)
  {
    hide SumOf, Eval, KeysDistinct, Coefficients, InMachine, EntriesExact;
    var v := (k: Key) => if k == keys[p][c] then 1 else 0;
    assert SharesAgree(seeds, n, t, keys, s, v);
    var shared :| IsShared(seeds, n, t, keys, s, v, shared);
    hide Completed;
    var T := ShareSet(seeds[c], n, p);
    forall q: nat | 1 <= q <= n
      ensures Eval(shared, q) == if q in T then 0 else Eval(InMachine(Coefficients(Negated(T), t)), q)
    {
      KeySums(seeds, n, t, keys, s, c, p, q, v);
    }
    hide ShareSet, IsShared;
    SetOfKey(seeds, n, t, keys, s, c, p);
    ForcedExact(T, n, t, shared);
  }

  lemma SetOfKey(seeds: seq<int>, n: nat, t: nat, keys: seq<seq<Key>>, s: State<Key>, c: nat, p: nat)
    requires Completed(seeds, n, t, keys, s) && c < |seeds| && 1 <= p <= n
    ensures n == 2 * t + 1 && IsSubset(ShareSet(seeds[c], n, p), n, t)
  {
    ShareSetIsSubset(seeds, n, t, c, p);
  }

  /** In a completed run with distinct keys, the sums are shares of one polynomial for every way to
      derive values from keys exactly when the machine stores the polynomial of every share set. */
  lemma SharesAgreeIff(seeds: seq<int>, n: nat, t: nat, keys: seq<seq<Key>>, s: State<Key>)
    requires Completed(seeds, n, t, keys, s) && KeysDistinct(seeds, n, keys)
    ensures (forall v: Key -> int :: SharesAgree(seeds, n, t, keys, s, v)) <==> StoredExact(seeds, n, t)
  {
    hide SumOf, Eval, KeysDistinct, EntriesExact, CommonPolynomial, ShareSet;
    if forall v: Key -> int :: SharesAgree(seeds, n, t, keys, s, v) {
      forall c: nat, p: nat | c < |seeds| && 1 <= p <= n ensures EntriesExact(ShareSet(seeds[c], n, p), t) {
        AgreeingIsExact(seeds, n, t, keys, s, c, p);
      }
    }
    if StoredExact(seeds, n, t) {
      forall v: Key -> int ensures SharesAgree(seeds, n, t, keys, s, v) {
        var shared := CommonPolynomial(seeds, n, t, keys, v);
        forall q: nat | 1 <= q <= n ensures SumOf(seeds, n, t, keys, s, q, v) == Eval(shared, q) {
          SharesOfOnePolynomial(seeds, n, t, keys, s, q, v);
        }
        assert IsShared(seeds, n, t, keys, s, v, shared);
      }
    }
  }

  // ----- the compiler's codes

  lemma CompilerStoredIff(seeds: seq<nat>, n: nat, t: nat)
    requires IsCompilerMap(seeds, n, t) && n == 2 * t + 1 && t > 0
    ensures StoredExact(seeds, n, t) <==> t <= 8
  {
    hide IsCompilerMap, IsSeedMap, Complete, ShareSet, EntriesExact, Large, IsSubset, AllFit, LargestWithout;
    CompilerMapComplete(seeds, n, t);
    if t <= 8 {
      SmallStoredExact(seeds, n, t);
    } else {
      LargestIsSubset(n, t, 1);
      LargeOverflows(LargestWithout(t, 1));
      var c, p := EverySubsetReached(seeds, n, t, LargestWithout(t, 1));
      assert !EntriesExact(ShareSet(seeds[c], n, p), t);
    }
  }

  /** With the compiler's codes the computation of the coefficients stays in range, for any party,
      exactly with at most seventeen parties. */
  lemma CompilerSetupFitsIff(seeds: seq<nat>, n: nat, t: nat, q: nat)
    requires IsCompilerMap(seeds, n, t) && n == 2 * t + 1 && t > 0 && 1 <= q <= n
    ensures Shapes(seeds, n, t)
    ensures FiledFit(seeds, n, t, q) <==> t <= 8
  {
    hide IsCompilerMap, IsSeedMap, Complete, ShareSet, Large, IsSubset, AllFit, LargestWithout, Generator, FiledSets;
    CompilerMapComplete(seeds, n, t);
    SeedMapShapes(seeds, n, t);
    hide Shapes;
    if t <= 8 {
      SmallSetupsFit(seeds, n, t, q);
    } else {
      var T := LargestWithout(t, q);
      LargestIsSubset(n, t, q);
      LargeOverflows(T);
      var c, p := EverySubsetReached(seeds, n, t, T);
      CodeAt(seeds, n, t, c);
      var k := GeneratorFound(seeds[c], n, t, p, q);
      SetAt(seeds, n, t, q, c, k);
      assert !AllFit(FiledSets(seeds, n, t, q)[c * (t + 1) + k], t);
    }
  }

  /** With the compiler's codes and distinct keys, the sums are shares of one polynomial for all
      derived values exactly with at most seventeen parties. */
  lemma CompilerSharesIff(seeds: seq<nat>, n: nat, t: nat, keys: seq<seq<Key>>, s: State<Key>)
    requires IsCompilerMap(seeds, n, t) && Completed(seeds, n, t, keys, s) && KeysDistinct(seeds, n, keys)
    ensures (forall v: Key -> int :: SharesAgree(seeds, n, t, keys, s, v)) <==> t <= 8
  {
    SharesAgreeIff(seeds, n, t, keys, s);
    CompilerStoredIff(seeds, n, t);
  }
}
