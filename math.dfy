/**
 * SumMap: a per-window keyed sum. Every tuple is a map from keys to numbers;
 * the operator adds the value of each accepted key into a running accumulator
 * for that key and, at the end of the window, emits one map holding every
 * accumulator converted back to the value type, then forgets them all.
 *
 * Accumulators are exact reals: the double arithmetic of the source is not
 * modelled. The conversions between the value type and the accumulator
 * (`doubleValue` and `getValue`) are parameters of the operator.
 */
module Math {

  /**
   * The key filter: a set of keys and an `inverse` flag. An empty set accepts
   * every key; otherwise a key is accepted when it is in the set, or, with
   * `inverse`, when it is not.
   */
  datatype Filter<K> = Filter(filterBy: set<K>, inverse: bool)

  predicate Accepts<K(==)>(f: Filter<K>, key: K)
  {
    f.filterBy == {} || ((key in f.filterBy) != f.inverse)
  }

  /** The accumulator of `key`, or zero for a key without one. */
  function Current<K(==)>(sums: map<K, real>, key: K): (r: real)
  {
    if key in sums then sums[key] else 0.0
  }

  /** What a single tuple contributes to the total of `key`. */
  function Contribution<K(==), V>(f: Filter<K>, value: V -> real, tuple: map<K, V>, key: K): (r: real)
  {
    if key in tuple && Accepts(f, key) then value(tuple[key]) else 0.0
  }

  /**
   * The accumulators after one tuple: each accepted key of the tuple gets its
   * value added to its accumulator, which is created on first sight; every
   * other accumulator is left as it was.
   */
  function AddTuple<K(==), V>(f: Filter<K>, value: V -> real, sums: map<K, real>, tuple: map<K, V>): (r: map<K, real>)
  {
    map k | k in sums.Keys + Accepted(f, tuple) :: Current(sums, k) + Contribution(f, value, tuple, k)
  }

  /** The keys of `tuple` that the filter lets through. */
  function Accepted<K(==), V>(f: Filter<K>, tuple: map<K, V>): (ks: set<K>)
  {
    set k | k in tuple.Keys && Accepts(f, k)
  }

  /** What one tuple does to the accumulator of a single key. */
  lemma AddTupleAt<K, V>(f: Filter<K>, value: V -> real, sums: map<K, real>, tuple: map<K, V>, k: K)
    ensures var r := AddTuple(f, value, sums, tuple);
            (k in tuple && Accepts(f, k) ==> k in r && r[k] == Current(sums, k) + value(tuple[k])) &&
            (!Accepts(f, k) || k !in tuple ==> (k in r <==> k in sums) && Current(r, k) == Current(sums, k))
  {
  }

  /** Adding one more entry to the tuple is one more accumulation. */
  lemma AddTupleEntry<K, V>(f: Filter<K>, value: V -> real, sums: map<K, real>, tuple: map<K, V>, k: K, v: V)
    requires k !in tuple
    ensures var r := AddTuple(f, value, sums, tuple);
            AddTuple(f, value, sums, tuple[k := v]) ==
            if Accepts(f, k) then r[k := Current(r, k) + value(v)] else r
  {
    var r := AddTuple(f, value, sums, tuple);
    var r' := AddTuple(f, value, sums, tuple[k := v]);
    if Accepts(f, k) {
      assert r'.Keys == r[k := Current(r, k) + value(v)].Keys;
    } else {
      assert r'.Keys == r.Keys;
    }
  }

  /** Visiting one more key of a tuple, in whatever order, is one more accumulation. */
  lemma AddTupleStep<K, V>(f: Filter<K>, value: V -> real, sums: map<K, real>, tuple: map<K, V>, rest: set<K>, key: K)
    requires key in rest && rest <= tuple.Keys
    ensures var acc := AddTuple(f, value, sums, tuple - rest);
            Accepts(f, key) ==> AddTuple(f, value, sums, tuple - (rest - {key})) == acc[key := Current(acc, key) + value(tuple[key])]
    ensures !Accepts(f, key) ==> AddTuple(f, value, sums, tuple - (rest - {key})) == AddTuple(f, value, sums, tuple - rest)
  {
    assert tuple - (rest - {key}) == (tuple - rest)[key := tuple[key]];
    AddTupleEntry(f, value, sums, tuple - rest, key, tuple[key]);
  }

  /** The accumulators after the tuples of `tuples`, in order, starting from `sums`. */
  function Accumulate<K(==), V>(f: Filter<K>, value: V -> real, sums: map<K, real>, tuples: seq<map<K, V>>): (r: map<K, real>)
    decreases |tuples|
  {
    if tuples == [] then sums
    else AddTuple(f, value, Accumulate(f, value, sums, tuples[..|tuples| - 1]), tuples[|tuples| - 1])
  }

  lemma AccumulateSnoc<K, V>(f: Filter<K>, value: V -> real, sums: map<K, real>, tuples: seq<map<K, V>>, t: map<K, V>)
    ensures Accumulate(f, value, sums, tuples + [t]) == AddTuple(f, value, Accumulate(f, value, sums, tuples), t)
  {
    assert (tuples + [t])[..|tuples|] == tuples;
  }

  /** Accumulating `a + b` is accumulating `a` and then `b`. */
  lemma {:induction false} AccumulateAppend<K, V>(f: Filter<K>, value: V -> real, sums: map<K, real>, a: seq<map<K, V>>, b: seq<map<K, V>>)
    ensures Accumulate(f, value, sums, a + b) == Accumulate(f, value, Accumulate(f, value, sums, a), b)
    decreases |b|
  {
    if b == [] {
      assert a + b == a;
    } else {
      var n := |b| - 1;
      AccumulateAppend(f, value, sums, a, b[..n]);
      assert (a + b)[..|a + b| - 1] == a + b[..n];
    }
  }

  /** Reference definition: the sum of all accepted values of `key` in `tuples`. */
  function KeyTotal<K(==), V>(f: Filter<K>, value: V -> real, tuples: seq<map<K, V>>, key: K): (total: real)
    decreases |tuples|
  {
    if tuples == [] then 0.0
    else KeyTotal(f, value, tuples[..|tuples| - 1], key) + Contribution(f, value, tuples[|tuples| - 1], key)
  }

  /** `key` is accepted and occurs in at least one of `tuples`. */
  predicate Seen<K(==), V>(f: Filter<K>, tuples: seq<map<K, V>>, key: K)
  {
    Accepts(f, key) && exists i :: 0 <= i < |tuples| && key in tuples[i]
  }

  /** A key that never occurs accepted totals zero. */
  lemma {:induction false} KeyTotalUnseen<K, V>(f: Filter<K>, value: V -> real, tuples: seq<map<K, V>>, key: K)
    requires !Seen(f, tuples, key)
    ensures KeyTotal(f, value, tuples, key) == 0.0
    decreases |tuples|
  {
    if tuples != [] {
      var n := |tuples| - 1;
      assert !Seen(f, tuples[..n], key) by {
        if Accepts(f, key) {
          forall i | 0 <= i < n
            ensures key !in tuples[..n][i]
          {
            assert tuples[..n][i] == tuples[i];
          }
        }
      }
      KeyTotalUnseen(f, value, tuples[..n], key);
    }
  }

  /**
   * The accumulators after a window of tuples: a key has one exactly when it
   * had one before or occurs accepted in some tuple, and its value is the old
   * value plus the total of its accepted values.
   */
  lemma {:induction false} AccumulateAt<K, V>(f: Filter<K>, value: V -> real, sums: map<K, real>, tuples: seq<map<K, V>>, k: K)
    ensures var r := Accumulate(f, value, sums, tuples);
            (k in r <==> k in sums || Seen(f, tuples, k)) &&
            Current(r, k) == Current(sums, k) + KeyTotal(f, value, tuples, k)
    ensures var r := Accumulate(f, value, sums, tuples);
            !Seen(f, tuples, k) ==> (k in r <==> k in sums) && Current(r, k) == Current(sums, k)
    decreases |tuples|
  {
    if !Seen(f, tuples, k) {
      KeyTotalUnseen(f, value, tuples, k);
    }
    if tuples != [] {
      var n := |tuples| - 1;
      var prefix, last := tuples[..n], tuples[n];
      AccumulateAt(f, value, sums, prefix, k);
      AddTupleAt(f, value, Accumulate(f, value, sums, prefix), last, k);
      assert Seen(f, tuples, k) <==> Seen(f, prefix, k) || (Accepts(f, k) && k in last) by {
        if Seen(f, prefix, k) {
          var i :| 0 <= i < n && k in prefix[i];
          assert tuples[i] == prefix[i];
        }
        if Seen(f, tuples, k) && !(Accepts(f, k) && k in last) {
          var i :| 0 <= i < |tuples| && k in tuples[i];
          assert prefix[i] == tuples[i];
        }
      }
    }
  }

  /** Totals are additive over consecutive runs of tuples. */
  lemma {:induction false} KeyTotalAppend<K, V>(f: Filter<K>, value: V -> real, a: seq<map<K, V>>, b: seq<map<K, V>>, key: K)
    ensures KeyTotal(f, value, a + b, key) == KeyTotal(f, value, a, key) + KeyTotal(f, value, b, key)
    decreases |b|
  {
    if b == [] {
      assert a + b == a;
    } else {
      var n := |b| - 1;
      KeyTotalAppend(f, value, a, b[..n], key);
      assert (a + b)[..|a + b| - 1] == a + b[..n];
    }
  }

  /** Removing the same element from two permutations of each other leaves permutations. */
  lemma RemoveMatching<T>(a: seq<T>, b: seq<T>, i: nat)
    requires multiset(a) == multiset(b) && 0 < |a| && i < |b| && b[i] == a[|a| - 1]
    ensures multiset(a[..|a| - 1]) == multiset(b[..i] + b[i + 1..])
  {
    var n, x := |a| - 1, b[i];
    assert a == a[..n] + [x];
    assert b == b[..i] + [x] + b[i + 1..];
    var ma, mb := multiset(a[..n]), multiset(b[..i] + b[i + 1..]);
    assert ma + multiset{x} == mb + multiset{x};
    forall y
      ensures ma[y] == mb[y]
    {
      assert (ma + multiset{x})[y] == (mb + multiset{x})[y];
    }
  }

  /** Totals do not depend on the order in which the tuples arrive. */
  lemma {:induction false} KeyTotalPermutation<K, V>(f: Filter<K>, value: V -> real, a: seq<map<K, V>>, b: seq<map<K, V>>, key: K)
    requires multiset(a) == multiset(b)
    ensures KeyTotal(f, value, a, key) == KeyTotal(f, value, b, key)
    decreases |a|
  {
    if a == [] {
      assert |b| == |multiset(b)| == 0;
    } else {
      var n := |a| - 1;
      var x := a[n];
      assert a == a[..n] + [x];
      assert x in multiset(b);
      var i :| 0 <= i < |b| && b[i] == x;
      var b' := b[..i] + b[i + 1..];
      RemoveMatching(a, b, i);
      assert b == (b[..i] + [x]) + b[i + 1..];
      KeyTotalPermutation(f, value, a[..n], b', key);
      KeyTotalAppend(f, value, b[..i], b[i + 1..], key);
      KeyTotalAppend(f, value, b[..i] + [x], b[i + 1..], key);
      KeyTotalAppend(f, value, b[..i], [x], key);
      assert KeyTotal(f, value, [x], key) == Contribution(f, value, x, key) by {
        assert [x][..0] == [];
      }
    }
  }

  /** Whether a key is seen does not depend on the order of the tuples either. */
  lemma SeenPermutation<K, V>(f: Filter<K>, a: seq<map<K, V>>, b: seq<map<K, V>>, key: K)
    requires multiset(a) == multiset(b)
    ensures Seen(f, a, key) ==> Seen(f, b, key)
  {
    if Seen(f, a, key) {
      var i :| 0 <= i < |a| && key in a[i];
      assert a[i] in multiset(b);
      var j :| 0 <= j < |b| && b[j] == a[i];
    }
  }

  /** The accumulators at the end of a window are the same whatever the order of its tuples. */
  lemma AccumulateOrderIndependent<K, V>(f: Filter<K>, value: V -> real, sums: map<K, real>, a: seq<map<K, V>>, b: seq<map<K, V>>)
    requires multiset(a) == multiset(b)
    ensures Accumulate(f, value, sums, a) == Accumulate(f, value, sums, b)
  {
    forall k {
      OrderIndependentAt(f, value, sums, a, b, k);
    }
    SameSums(Accumulate(f, value, sums, a), Accumulate(f, value, sums, b));
  }

  lemma OrderIndependentAt<K, V>(f: Filter<K>, value: V -> real, sums: map<K, real>, a: seq<map<K, V>>, b: seq<map<K, V>>, k: K)
    requires multiset(a) == multiset(b)
    ensures var ra, rb := Accumulate(f, value, sums, a), Accumulate(f, value, sums, b);
            (k in ra <==> k in rb) && (k in ra ==> ra[k] == rb[k])
  {
    AccumulateAt(f, value, sums, a, k);
    AccumulateAt(f, value, sums, b, k);
    SeenPermutation(f, a, b, k);
    SeenPermutation(f, b, a, k);
    KeyTotalPermutation(f, value, a, b, k);
  }

  lemma SameSums<K>(s1: map<K, real>, s2: map<K, real>)
    requires forall k :: k in s1 <==> k in s2
    requires forall k | k in s1 :: s1[k] == s2[k]
    ensures s1 == s2
  {
  }

  /**
   * Pointwise sum of two sets of accumulators. This is the model's own way of
   * combining partial sums; it makes no claim about any unifier of the framework.
   */
  function Merge<K(==)>(s1: map<K, real>, s2: map<K, real>): (m: map<K, real>)
  {
    map k | k in s1.Keys + s2.Keys :: Current(s1, k) + Current(s2, k)
  }

  /** A key occurs in a concatenation of windows exactly when it occurs in one of them. */
  lemma SeenAppend<K, V>(f: Filter<K>, a: seq<map<K, V>>, b: seq<map<K, V>>, key: K)
    ensures Seen(f, a + b, key) <==> Seen(f, a, key) || Seen(f, b, key)
  {
    if Seen(f, a + b, key) {
      var i :| 0 <= i < |a + b| && key in (a + b)[i];
      if i < |a| {
        assert a[i] == (a + b)[i];
      } else {
        assert b[i - |a|] == (a + b)[i];
      }
    }
    if Seen(f, a, key) {
      var i :| 0 <= i < |a| && key in a[i];
      assert (a + b)[i] == a[i];
    }
    if Seen(f, b, key) {
      var i :| 0 <= i < |b| && key in b[i];
      assert (a + b)[|a| + i] == b[i];
    }
  }

  /** Summing a window in two parts and merging the parts gives the sums of the whole window. */
  lemma SplitMerge<K, V>(f: Filter<K>, value: V -> real, a: seq<map<K, V>>, b: seq<map<K, V>>)
    ensures Accumulate(f, value, map[], a + b) ==
            Merge(Accumulate(f, value, map[], a), Accumulate(f, value, map[], b))
  {
    var whole := Accumulate(f, value, map[], a + b);
    var ra, rb := Accumulate(f, value, map[], a), Accumulate(f, value, map[], b);
    forall k {
      SplitMergeAt(f, value, a, b, k);
    }
    SumsEqual(whole, ra, rb);
  }

  lemma SplitMergeAt<K, V>(f: Filter<K>, value: V -> real, a: seq<map<K, V>>, b: seq<map<K, V>>, k: K)
    ensures var whole, ra, rb := Accumulate(f, value, map[], a + b), Accumulate(f, value, map[], a), Accumulate(f, value, map[], b);
            (k in whole <==> k in ra || k in rb) && (k in whole ==> whole[k] == Current(ra, k) + Current(rb, k))
  {
    AccumulateAt(f, value, map[], a + b, k);
    AccumulateAt(f, value, map[], a, k);
    AccumulateAt(f, value, map[], b, k);
    KeyTotalAppend(f, value, a, b, k);
    SeenAppend(f, a, b, k);
  }

  lemma SumsEqual<K>(w: map<K, real>, s1: map<K, real>, s2: map<K, real>)
    requires forall k :: k in w <==> k in s1 || k in s2
    requires forall k | k in w :: w[k] == Current(s1, k) + Current(s2, k)
    ensures w == Merge(s1, s2)
  {
    var m := Merge(s1, s2);
    assert forall k :: k in w <==> k in m;
  }

  /** The map emitted at the end of a window: every accumulator, converted back. */
  function Output<K(==), V>(getValue: real -> V, sums: map<K, real>): (out: map<K, V>)
  {
    map k | k in sums :: getValue(sums[k])
  }

  /**
   * A window that starts with no accumulators emits, for every accepted key that
   * occurs in one of its tuples, and for no other key, the converted total of
   * that key's values; it emits nothing when no tuple holds an accepted key.
   */
  lemma WindowResult<K, V, W>(f: Filter<K>, value: V -> real, getValue: real -> W, tuples: seq<map<K, V>>)
    ensures var out := Output(getValue, Accumulate(f, value, map[], tuples));
            (forall k :: k in out <==> Seen(f, tuples, k)) &&
            (forall k | k in out :: out[k] == getValue(KeyTotal(f, value, tuples, k)))
    ensures Accumulate(f, value, map[], tuples) == map[] <==> forall k :: !Seen(f, tuples, k)
  {
    var r := Accumulate(f, value, map[], tuples);
    forall k
      ensures (k in r <==> Seen(f, tuples, k)) && (k in r ==> r[k] == KeyTotal(f, value, tuples, k))
    {
      AccumulateAt(f, value, map[], tuples, k);
    }
    if r != map[] {
      var k :| k in r;
      assert Seen(f, tuples, k);
    }
  }

  /** Java's narrowing of a double to an integer: truncation toward zero. */
  function TruncateToInt(x: real): (n: int)
    ensures 0.0 <= x ==> n as real <= x < n as real + 1.0
    ensures x < 0.0 ==> n as real - 1.0 < x <= n as real
  {
    if x >= 0.0 then x.Floor else -((-x).Floor)
  }

  function IntValue(x: int): (r: real)
  {
    x as real
  }

  /** The filter of the worked example: none, so every key is accepted. */
  function NoFilter(): (f: Filter<char>)
  {
    Filter({}, false)
  }

  /**
   * The worked example of the operator's documentation: with no filter, the
   * eight tuples of one window produce {a=36,b=37,c=1000,d=141,e=2}.
   */
  lemma FunctionTableExample(t1: map<char, int>, t2: map<char, int>, t3: map<char, int>, t4: map<char, int>,
                             t5: map<char, int>, t6: map<char, int>, t7: map<char, int>, t8: map<char, int>)
    requires t1 == map['a' := 2, 'b' := 20, 'c' := 1000] && t2 == map['a' := 1] && t3 == map['a' := 10, 'b' := 5]
    requires t4 == map['d' := 55, 'b' := 12] && t5 == map['d' := 22] && t6 == map['d' := 14]
    requires t7 == map['d' := 46, 'e' := 2] && t8 == map['d' := 4, 'a' := 23]
    ensures Output(TruncateToInt, Accumulate(NoFilter(), IntValue, map[], [t1, t2, t3, t4, t5, t6, t7, t8])) ==
            map['a' := 36, 'b' := 37, 'c' := 1000, 'd' := 141, 'e' := 2]
  {
    ExampleWindow(t1, t2, t3, t4, t5, t6, t7, t8);
    ExampleOutput(Accumulate(NoFilter(), IntValue, map[], [t1, t2, t3, t4, t5, t6, t7, t8]));
  }

  /** The accumulators at the end of the worked example's window. */
  lemma ExampleWindow(t1: map<char, int>, t2: map<char, int>, t3: map<char, int>, t4: map<char, int>,
                      t5: map<char, int>, t6: map<char, int>, t7: map<char, int>, t8: map<char, int>)
    requires t1 == map['a' := 2, 'b' := 20, 'c' := 1000] && t2 == map['a' := 1] && t3 == map['a' := 10, 'b' := 5]
    requires t4 == map['d' := 55, 'b' := 12] && t5 == map['d' := 22] && t6 == map['d' := 14]
    requires t7 == map['d' := 46, 'e' := 2] && t8 == map['d' := 4, 'a' := 23]
    ensures Accumulate(NoFilter(), IntValue, map[], [t1, t2, t3, t4, t5, t6, t7, t8]) == map['a' := 36.0, 'b' := 37.0, 'c' := 1000.0, 'd' := 141.0, 'e' := 2.0]
  {
    var s0: map<char, real> := map[];
    var s1 := map['a' := 2.0, 'b' := 20.0, 'c' := 1000.0];
    var s2 := map['a' := 3.0, 'b' := 20.0, 'c' := 1000.0];
    var s3 := map['a' := 13.0, 'b' := 25.0, 'c' := 1000.0];
    var s4 := map['a' := 13.0, 'b' := 37.0, 'c' := 1000.0, 'd' := 55.0];
    var s5 := map['a' := 13.0, 'b' := 37.0, 'c' := 1000.0, 'd' := 77.0];
    var s6 := map['a' := 13.0, 'b' := 37.0, 'c' := 1000.0, 'd' := 91.0];
    var s7 := map['a' := 13.0, 'b' := 37.0, 'c' := 1000.0, 'd' := 137.0, 'e' := 2.0];
    var s8 := map['a' := 36.0, 'b' := 37.0, 'c' := 1000.0, 'd' := 141.0, 'e' := 2.0];
    assert Accumulate(NoFilter(), IntValue, s0, [t1, t2, t3, t4]) == s4 by {
      ExampleStep1(s0, t1);
      ExampleStep2(s1, t2);
      ExampleStep3(s2, t3);
      ExampleStep4(s3, t4);
      FourSteps(s0, t1, t2, t3, t4, s1, s2, s3, s4);
    }
    assert Accumulate(NoFilter(), IntValue, s4, [t5, t6, t7, t8]) == s8 by {
      ExampleStep5(s4, t5);
      ExampleStep6(s5, t6);
      ExampleStep7(s6, t7);
      ExampleStep8(s7, t8);
      FourSteps(s4, t5, t6, t7, t8, s5, s6, s7, s8);
    }
    AccumulateAppend(NoFilter(), IntValue, s0, [t1, t2, t3, t4], [t5, t6, t7, t8]);
    assert [t1, t2, t3, t4] + [t5, t6, t7, t8] == [t1, t2, t3, t4, t5, t6, t7, t8];
  }

  /** Converting the worked example's accumulators back to integers. */
  lemma ExampleOutput(sums: map<char, real>)
    requires sums == map['a' := 36.0, 'b' := 37.0, 'c' := 1000.0, 'd' := 141.0, 'e' := 2.0]
    ensures Output(TruncateToInt, sums) == map['a' := 36, 'b' := 37, 'c' := 1000, 'd' := 141, 'e' := 2]
  {
  }

  lemma ExampleStep1(s: map<char, real>, t: map<char, int>)
    requires s == map[] && t == map['a' := 2, 'b' := 20, 'c' := 1000]
    ensures AddTuple(NoFilter(), IntValue, s, t) == map['a' := 2.0, 'b' := 20.0, 'c' := 1000.0]
  {
  }

  lemma ExampleStep2(s: map<char, real>, t: map<char, int>)
    requires s == map['a' := 2.0, 'b' := 20.0, 'c' := 1000.0] && t == map['a' := 1]
    ensures AddTuple(NoFilter(), IntValue, s, t) == map['a' := 3.0, 'b' := 20.0, 'c' := 1000.0]
  {
  }

  lemma ExampleStep3(s: map<char, real>, t: map<char, int>)
    requires s == map['a' := 3.0, 'b' := 20.0, 'c' := 1000.0] && t == map['a' := 10, 'b' := 5]
    ensures AddTuple(NoFilter(), IntValue, s, t) == map['a' := 13.0, 'b' := 25.0, 'c' := 1000.0]
  {
  }

  lemma ExampleStep4(s: map<char, real>, t: map<char, int>)
    requires s == map['a' := 13.0, 'b' := 25.0, 'c' := 1000.0] && t == map['d' := 55, 'b' := 12]
    ensures AddTuple(NoFilter(), IntValue, s, t) == map['a' := 13.0, 'b' := 37.0, 'c' := 1000.0, 'd' := 55.0]
  {
  }

  lemma ExampleStep5(s: map<char, real>, t: map<char, int>)
    requires s == map['a' := 13.0, 'b' := 37.0, 'c' := 1000.0, 'd' := 55.0] && t == map['d' := 22]
    ensures AddTuple(NoFilter(), IntValue, s, t) == map['a' := 13.0, 'b' := 37.0, 'c' := 1000.0, 'd' := 77.0]
  {
  }

  lemma ExampleStep6(s: map<char, real>, t: map<char, int>)
    requires s == map['a' := 13.0, 'b' := 37.0, 'c' := 1000.0, 'd' := 77.0] && t == map['d' := 14]
    ensures AddTuple(NoFilter(), IntValue, s, t) == map['a' := 13.0, 'b' := 37.0, 'c' := 1000.0, 'd' := 91.0]
  {
  }

  lemma ExampleStep7(s: map<char, real>, t: map<char, int>)
    requires s == map['a' := 13.0, 'b' := 37.0, 'c' := 1000.0, 'd' := 91.0] && t == map['d' := 46, 'e' := 2]
    ensures AddTuple(NoFilter(), IntValue, s, t) == map['a' := 13.0, 'b' := 37.0, 'c' := 1000.0, 'd' := 137.0, 'e' := 2.0]
  {
  }

  lemma ExampleStep8(s: map<char, real>, t: map<char, int>)
    requires s == map['a' := 13.0, 'b' := 37.0, 'c' := 1000.0, 'd' := 137.0, 'e' := 2.0] && t == map['d' := 4, 'a' := 23]
    ensures AddTuple(NoFilter(), IntValue, s, t) == map['a' := 36.0, 'b' := 37.0, 'c' := 1000.0, 'd' := 141.0, 'e' := 2.0]
  {
  }

  /** Four tuples of the worked example, one accumulation at a time. */
  lemma FourSteps(s0: map<char, real>, t1: map<char, int>, t2: map<char, int>, t3: map<char, int>, t4: map<char, int>,
                  s1: map<char, real>, s2: map<char, real>, s3: map<char, real>, s4: map<char, real>)
    requires AddTuple(NoFilter(), IntValue, s0, t1) == s1 && AddTuple(NoFilter(), IntValue, s1, t2) == s2
    requires AddTuple(NoFilter(), IntValue, s2, t3) == s3 && AddTuple(NoFilter(), IntValue, s3, t4) == s4
    ensures Accumulate(NoFilter(), IntValue, s0, [t1, t2, t3, t4]) == s4
  {
    AccumulateSnoc(NoFilter(), IntValue, s0, [], t1);
    AccumulateSnoc(NoFilter(), IntValue, s0, [t1], t2);
    AccumulateSnoc(NoFilter(), IntValue, s0, [t1, t2], t3);
    AccumulateSnoc(NoFilter(), IntValue, s0, [t1, t2, t3], t4);
    assert [] + [t1] == [t1] && [t1] + [t2] == [t1, t2] && [t1, t2] + [t3] == [t1, t2, t3];
    assert [t1, t2, t3] + [t4] == [t1, t2, t3, t4];
  }

  /**
   * The operator. `filter` stands for the key filter of its base class and
   * `sumConnected` for whether the `sum` output port is connected; both are
   * fixed for the object's lifetime. `emitted` is everything sent on the `sum`
   * port, oldest first, and `window` the tuples delivered since the
   * accumulators were last cleared.
   */
  class SumMap<K(==), V> {
    const filter: Filter<K>
    const sumConnected: bool
    const doubleValue: V -> real
    const getValue: real -> V
    var sums: map<K, real>
    var emitted: seq<map<K, V>>
    ghost var window: seq<map<K, V>>

    /** The accumulators are the sums of the current window (none while the port is unconnected). */
    ghost predicate Valid()
      reads this
    {
      (sumConnected ==> sums == Accumulate(filter, doubleValue, map[], window)) &&
      (!sumConnected ==> sums == map[])
    }

    constructor(filter: Filter<K>, sumConnected: bool, doubleValue: V -> real, getValue: real -> V)
      ensures this.filter == filter && this.sumConnected == sumConnected
      ensures this.doubleValue == doubleValue && this.getValue == getValue
      ensures sums == map[] && emitted == [] && window == []
      ensures Valid()
    {
      this.filter := filter;
      this.sumConnected := sumConnected;
      this.doubleValue := doubleValue;
      this.getValue := getValue;
      sums := map[];
      emitted := [];
      window := [];
    }

    /**
     * The `data` port: each accepted key of the tuple, visited in any order, has
     * its value added to its accumulator when the `sum` port is connected.
     * Nothing is emitted.
     */
    method Process(tuple: map<K, V>)
      requires Valid()
      modifies this`sums, this`window
      ensures sumConnected ==> sums == AddTuple(filter, doubleValue, old(sums), tuple)
      ensures !sumConnected ==> sums == old(sums)
      ensures emitted == old(emitted) && window == old(window) + [tuple]
      ensures Valid()
    {
      var rest := tuple.Keys;
      while rest != {}
        invariant rest <= tuple.Keys
        invariant window == old(window)
        invariant sumConnected ==> sums == AddTuple(filter, doubleValue, old(sums), tuple - rest)
        invariant !sumConnected ==> sums == old(sums)
        decreases rest
      {
        var key :| key in rest;
        AddTupleStep(filter, doubleValue, old(sums), tuple, rest, key);
        rest := rest - {key};
        if !Accepts(filter, key) {
          continue;
        }
        if sumConnected {
          var val := if key in sums then sums[key] + doubleValue(tuple[key]) else doubleValue(tuple[key]);
          sums := sums[key := val];
        }
      }
      assert sumConnected ==> sums == AddTuple(filter, doubleValue, old(sums), tuple) by {
        assert tuple - rest == tuple;
      }
      assert sumConnected ==> sums == Accumulate(filter, doubleValue, map[], window + [tuple]) by {
        AccumulateSnoc(filter, doubleValue, map[], window, tuple);
      }
      window := window + [tuple];
    }

    /**
     * End of window: when the `sum` port is connected and there are
     * accumulators, emit every accumulator converted back by `getValue`; then
     * clear the accumulators in every case.
     */
    method EndWindow()
      requires Valid()
      modifies this`sums, this`emitted, this`window
      ensures emitted == old(emitted) + if sumConnected && old(sums) != map[] then [Output(getValue, old(sums))] else []
      ensures sums == map[] && window == []
      ensures Valid()
    {
      var stuples: map<K, V> := map[];
      if sumConnected {
        var rest := sums.Keys;
        while rest != {}
          invariant rest <= sums.Keys
          invariant stuples == map k | k in sums.Keys - rest :: getValue(sums[k])
          decreases rest
        {
          var key :| key in rest;
          rest := rest - {key};
          if sumConnected {
            stuples := stuples[key := getValue(sums[key])];
          }
        }
        assert stuples == Output(getValue, sums);
        assert stuples == map[] <==> sums == map[] by {
          if sums != map[] {
            var k :| k in sums;
            assert k in stuples;
          }
        }
      }
      if stuples != map[] {
        emitted := emitted + [stuples];
      }
      ClearCache();
    }

    /** Drop every accumulator. */
    method ClearCache()
      modifies this`sums, this`window
      ensures sums == map[] && window == []
      ensures Valid()
    {
      sums := map[];
      window := [];
    }
  }
}
