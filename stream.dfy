/**
 * Model of the stream operator RoundRobinHashMap: it assembles a keyed record
 * out of consecutive scalar tuples. The i-th value delivered since the last
 * emission is stored under keys[i]; once every key has a value the record is
 * emitted and a fresh one is started. The record and the cursor are operator
 * state that no window boundary touches.
 */
module Stream {

  datatype Option<T> = None | Some(value: T)

  /** How one call of `process` ends: normally, or with the exception Java raises. */
  datatype Outcome =
    | Done                 // returned normally
    | NullKeys             // `keys` was never set (or set to null): NullPointerException
    | KeyIndexOutOfBounds  // `keys[cursor]` with cursor >= keys.length: ArrayIndexOutOfBoundsException

  /**
   * The operator's state apart from its configuration: the `cursor` and the
   * in-progress record `otuple` (None stands for Java's null).
   */
  datatype State<K, V> = State(cursor: nat, otuple: Option<map<K, V>>)

  /** The state of a newly constructed operator. */
  function Initial<K, V>(): (s: State<K, V>)
  {
    State(0, None)
  }

  /** A record is in progress exactly when the cursor is off a record boundary. */
  predicate WellFormed<K, V>(s: State<K, V>)
  {
    (s.cursor == 0) == s.otuple.None?
  }

  /** The effect of one `process` call: the next state, what was emitted on `map`, and how it ended. */
  datatype Step<K, V> = Step(next: State<K, V>, out: Option<map<K, V>>, outcome: Outcome)

  /** The emissions an optional output stands for. */
  function Emissions<T>(out: Option<T>): seq<T>
  {
    if out.Some? then [out.value] else []
  }

  /**
   * `process(v)` on a state `s` with the (non-null) key array `keys`.
   * With no keys it does nothing; with a cursor past the end of the array
   * (possible after a shorter array was set mid-record) it fails before
   * changing anything; otherwise it stores `v` under keys[cursor], starting a
   * fresh record when the cursor is 0, and emits and resets once the
   * incremented cursor reaches keys.length.
   */
  function Deliver<K, V>(keys: seq<K>, s: State<K, V>, v: V): (r: Step<K, V>)
    requires WellFormed(s)
    ensures WellFormed(r.next)
  {
    if |keys| == 0 then Step(s, None, Done)
    else if s.cursor >= |keys| then Step(s, None, KeyIndexOutOfBounds)
    else
      var record := (if s.cursor == 0 then map[] else s.otuple.value)[keys[s.cursor] := v];
      if s.cursor + 1 >= |keys| then Step(Initial(), Some(record), Done)
      else Step(State(s.cursor + 1, Some(record)), None, Done)
  }

  /**
   * What one delivery promises: no keys, no effect; a cursor past the end, an
   * exception and no effect; otherwise the value is stored under keys[cursor]
   * (in a fresh record when the cursor is 0, in the record in progress, which
   * keeps its earlier entries, otherwise), the cursor stays inside the
   * array, and a record is emitted (and the state reset) exactly when the
   * incremented cursor reaches keys.length.
   */
  lemma DeliverSpec<K, V>(keys: seq<K>, s: State<K, V>, v: V)
    requires WellFormed(s)
    ensures var r := Deliver(keys, s, v);
            && (keys == [] ==> r == Step(s, None, Done))
            && (0 < |keys| <= s.cursor ==> r == Step(s, None, KeyIndexOutOfBounds))
            && (s.cursor < |keys| ==> r.outcome == Done && r.next.cursor < |keys|)
            && (r.out.Some? <==> s.cursor + 1 == |keys|)
            && (s.cursor == 0 && |keys| == 1 ==> r.out == Some(map[keys[0] := v]))
            && (s.cursor == 0 && 1 < |keys| ==> r.next.otuple == Some(map[keys[0] := v]))
            && (0 < s.cursor && s.cursor + 1 == |keys| ==> r.out == Some(s.otuple.value[keys[s.cursor] := v]))
            && (0 < s.cursor && s.cursor + 1 < |keys| ==> r.next.otuple == Some(s.otuple.value[keys[s.cursor] := v]))
            && (r.out.Some? ==> r.next == Initial() && keys[s.cursor] in r.out.value && r.out.value[keys[s.cursor]] == v)
            && (r.out.None? && s.cursor < |keys| ==>
                  r.next.cursor == s.cursor + 1 && r.next.otuple.Some? &&
                  keys[s.cursor] in r.next.otuple.value && r.next.otuple.value[keys[s.cursor]] == v)
  {
  }

  /** The final state and the emissions of delivering `vs` in order, starting in `s`. */
  datatype Trace<K, V> = Trace(last: State<K, V>, emitted: seq<map<K, V>>)

  function Run<K, V>(keys: seq<K>, s: State<K, V>, vs: seq<V>): (t: Trace<K, V>)
    requires WellFormed(s)
    ensures WellFormed(t.last)
    decreases |vs|
  {
    if vs == [] then Trace(s, [])
    else
      var before := Run(keys, s, vs[..|vs| - 1]);
      var step := Deliver(keys, before.last, vs[|vs| - 1]);
      Trace(step.next, before.emitted + Emissions(step.out))
  }

  /** Delivering one more value is one more step. */
  lemma RunSnoc<K, V>(keys: seq<K>, s: State<K, V>, vs: seq<V>, v: V)
    requires WellFormed(s)
    ensures var t := Run(keys, s, vs);
            var step := Deliver(keys, t.last, v);
            Run(keys, s, vs + [v]) == Trace(step.next, t.emitted + Emissions(step.out))
  {
    assert (vs + [v])[..|vs|] == vs;
  }

  /** The map obtained by putting vs[i] under ks[i] for i = 0, 1, ... in turn. */
  function Record<K, V>(ks: seq<K>, vs: seq<V>): (m: map<K, V>)
    requires |ks| == |vs|
    decreases |ks|
  {
    if ks == [] then map[]
    else Record(ks[..|ks| - 1], vs[..|vs| - 1])[ks[|ks| - 1] := vs[|vs| - 1]]
  }

  /** A record's domain is exactly the set of keys it was built with. */
  lemma {:induction false} RecordKeys<K, V>(ks: seq<K>, vs: seq<V>)
    requires |ks| == |vs|
    ensures Record(ks, vs).Keys == set k | k in ks
    decreases |ks|
  {
    if ks != [] {
      var n := |ks| - 1;
      RecordKeys(ks[..n], vs[..n]);
      assert ks == ks[..n] + [ks[n]];
    }
  }

  predicate Distinct<K(==)>(ks: seq<K>)
  {
    forall i, j :: 0 <= i < j < |ks| ==> ks[i] != ks[j]
  }

  /** With distinct keys a record maps each key to the value delivered at its position. */
  lemma {:induction false} RecordAt<K, V>(ks: seq<K>, vs: seq<V>, i: nat)
    requires |ks| == |vs| && Distinct(ks) && i < |ks|
    ensures ks[i] in Record(ks, vs) && Record(ks, vs)[ks[i]] == vs[i]
    decreases |ks|
  {
    if i < |ks| - 1 {
      RecordAt(ks[..|ks| - 1], vs[..|vs| - 1], i);
    }
  }

  /** Extending a record by one position is one more put. */
  lemma RecordSnoc<K, V>(ks: seq<K>, vs: seq<V>, k: K, v: V)
    requires |ks| == |vs|
    ensures Record(ks + [k], vs + [v]) == Record(ks, vs)[k := v]
  {
    assert (ks + [k])[..|ks|] == ks;
    assert (vs + [v])[..|vs|] == vs;
  }

  /** With no keys configured, any number of deliveries changes nothing and emits nothing. */
  lemma {:induction false} EmptyKeysNoOp<K, V>(s: State<K, V>, vs: seq<V>)
    requires WellFormed(s)
    ensures Run([], s, vs) == Trace(s, [])
    decreases |vs|
  {
    if vs != [] {
      EmptyKeysNoOp(s, vs[..|vs| - 1]);
    }
  }

  /** The cursor stays inside the key array for as long as the array is unchanged. */
  lemma {:induction false} CursorStaysInRange<K, V>(keys: seq<K>, s: State<K, V>, vs: seq<V>)
    requires WellFormed(s) && s.cursor < |keys|
    ensures Run(keys, s, vs).last.cursor < |keys|
    decreases |vs|
  {
    if vs != [] {
      CursorStaysInRange(keys, s, vs[..|vs| - 1]);
      DeliverSpec(keys, Run(keys, s, vs[..|vs| - 1]).last, vs[|vs| - 1]);
    }
  }

  /**
   * Delivering `a` and then `b` is delivering `a + b`: the state reached at any
   * point, in particular at a window boundary, is carried on unchanged.
   */
  lemma {:induction false} RunAppend<K, V>(keys: seq<K>, s: State<K, V>, a: seq<V>, b: seq<V>)
    requires WellFormed(s)
    ensures var first := Run(keys, s, a);
            var second := Run(keys, first.last, b);
            Run(keys, s, a + b) == Trace(second.last, first.emitted + second.emitted)
    decreases |b|
  {
    if b == [] {
      assert a + b == a;
    } else {
      var b', x := b[..|b| - 1], b[|b| - 1];
      var first := Run(keys, s, a);
      var mid := Run(keys, first.last, b');
      var step := Deliver(keys, mid.last, x);
      var e := Emissions(step.out);
      assert Run(keys, first.last, b) == Trace(step.next, mid.emitted + e) by {
        assert b == b' + [x];
        RunSnoc(keys, first.last, b', x);
      }
      assert Run(keys, s, a + b) == Trace(step.next, (first.emitted + mid.emitted) + e) by {
        assert a + b == (a + b') + [x] by { assert b == b' + [x]; }
        RunAppend(keys, s, a, b');
        RunSnoc(keys, s, a + b', x);
      }
      assert (first.emitted + mid.emitted) + e == first.emitted + (mid.emitted + e);
    }
  }

  /** A positive multiple of d is at least d. */
  lemma {:induction false} MulAtLeast(k: nat, d: nat)
    requires 1 <= k
    ensures d <= k * d
    decreases k
  {
    if k > 1 {
      MulAtLeast(k - 1, d);
      assert k * d == (k - 1) * d + d;
    }
  }

  /** Where block j of blocks of length d starts: j * d, counted up block by block. */
  function BlockStart(j: nat, d: nat): (start: nat)
  {
    if j == 0 then 0 else BlockStart(j - 1, d) + d
  }

  lemma {:induction false} BlockStartIsProduct(j: nat, d: nat)
    ensures BlockStart(j, d) == j * d
  {
    if j > 0 {
      BlockStartIsProduct(j - 1, d);
      assert j * d == (j - 1) * d + d;
    }
  }

  /** Division by a positive number is determined by quotient and remainder. */
  lemma DivModUnique(n: nat, d: nat, q: nat, r: nat)
    requires 0 < d && r < d && n == q * d + r
    ensures n / d == q && n % d == r
  {
    var q', r' := n / d, n % d;
    assert n == q' * d + r';
    if q' > q {
      MulAtLeast(q' - q, d);
      assert false;
    } else if q' < q {
      MulAtLeast(q - q', d);
      assert false;
    }
  }

  /**
   * The records completed by delivering `vs` from a record boundary: one per
   * full block of |keys| consecutive values, in order.
   */
  function Assembled<K, V>(keys: seq<K>, vs: seq<V>): (rs: seq<map<K, V>>)
    requires 0 < |keys|
    decreases |vs|
  {
    if |vs| < |keys| then [] else [Record(keys, vs[..|keys|])] + Assembled(keys, vs[|keys|..])
  }

  /** The values of the incomplete last block: those held by the record in progress. */
  function Leftover<K, V>(keys: seq<K>, vs: seq<V>): (r: seq<V>)
    requires 0 < |keys|
    ensures |r| < |keys| && |r| <= |vs| && r == vs[|vs| - |r|..]
    decreases |vs|
  {
    if |vs| < |keys| then vs else Leftover(keys, vs[|keys|..])
  }

  /** Full blocks and leftover account for every delivery. */
  lemma {:induction false} AssembledCount<K, V>(keys: seq<K>, vs: seq<V>)
    requires 0 < |keys|
    ensures |vs| == BlockStart(|Assembled(keys, vs)|, |keys|) + |Leftover(keys, vs)|
    decreases |vs|
  {
    if |vs| >= |keys| {
      var L, rest := |keys|, vs[|keys|..];
      AssembledCount(keys, rest);
      assert Assembled(keys, vs) == [Record(keys, vs[..L])] + Assembled(keys, rest);
      assert Leftover(keys, vs) == Leftover(keys, rest);
      var k := |Assembled(keys, rest)|;
      assert BlockStart(k + 1, L) == BlockStart(k, L) + L;
    }
  }

  /** Record j of `Assembled` is built from deliveries j*L .. j*L+L-1, where L is |keys|. */
  lemma {:induction false} AssembledAt<K, V>(keys: seq<K>, vs: seq<V>, j: nat)
    requires 0 < |keys| && j < |Assembled(keys, vs)|
    ensures BlockStart(j, |keys|) + |keys| <= |vs|
    ensures Assembled(keys, vs)[j] == Record(keys, vs[BlockStart(j, |keys|) .. BlockStart(j, |keys|) + |keys|])
    decreases j
  {
    var L := |keys|;
    if j > 0 {
      var rest := vs[L..];
      var start := BlockStart(j - 1, L);
      assert Assembled(keys, vs)[j] == Assembled(keys, rest)[j - 1];
      assert start + L <= |rest| && Assembled(keys, rest)[j - 1] == Record(keys, rest[start .. start + L]) by {
        AssembledAt(keys, rest, j - 1);
      }
      SliceOfSuffix(vs, L, start, start + L);
    }
  }

  /** A slice of a suffix is a slice of the whole sequence, shifted. */
  lemma SliceOfSuffix<T>(s: seq<T>, d: nat, i: nat, j: nat)
    requires d <= |s| && i <= j <= |s| - d
    ensures s[d..][i..j] == s[d + i..d + j]
  {
  }

  /** The state after `vs` was delivered since the last record boundary, |vs| < |keys|. */
  function Partial<K, V>(keys: seq<K>, vs: seq<V>): (s: State<K, V>)
    requires |vs| <= |keys|
    ensures WellFormed(s) && s.cursor == |vs|
  {
    if vs == [] then Initial() else State(|vs|, Some(Record(keys[..|vs|], vs)))
  }

  /** A delivery that does not complete the record extends the record in progress by one put. */
  lemma DeliverExtends<K, V>(keys: seq<K>, p: seq<V>, v: V)
    requires |p| + 1 < |keys|
    ensures Deliver(keys, Partial(keys, p), v) == Step(Partial(keys, p + [v]), None, Done)
  {
    var n := |p|;
    RecordSnoc(keys[..n], p, keys[n], v);
    assert keys[..n] + [keys[n]] == keys[..n + 1];
  }

  /** The delivery that fills the last key emits the whole record and returns to a boundary. */
  lemma DeliverCompletes<K, V>(keys: seq<K>, p: seq<V>, v: V)
    requires |p| + 1 == |keys|
    ensures Deliver(keys, Partial(keys, p), v) == Step(Initial(), Some(Record(keys, p + [v])), Done)
  {
    var n := |p|;
    RecordSnoc(keys[..n], p, keys[n], v);
    assert keys[..n] + [keys[n]] == keys;
  }

  /** Inside one record nothing is emitted and the record holds the values delivered so far. */
  lemma {:induction false} RunWithinRecord<K, V>(keys: seq<K>, vs: seq<V>)
    requires |vs| < |keys|
    ensures Run(keys, Initial(), vs) == Trace(Partial(keys, vs), [])
    decreases |vs|
  {
    if vs != [] {
      var n := |vs| - 1;
      var p, v := vs[..n], vs[n];
      assert vs == p + [v];
      RunWithinRecord(keys, p);
      RunSnoc(keys, Initial(), p, v);
      DeliverExtends(keys, p, v);
    }
  }

  /** The |keys|-th delivery since a record boundary emits the completed record and resets. */
  lemma RunOneRecord<K, V>(keys: seq<K>, vs: seq<V>)
    requires 0 < |vs| == |keys|
    ensures Run(keys, Initial(), vs) == Trace(Initial(), [Record(keys, vs)])
  {
    var n := |vs| - 1;
    var p, v := vs[..n], vs[n];
    assert vs == p + [v];
    RunWithinRecord(keys, p);
    RunSnoc(keys, Initial(), p, v);
    DeliverCompletes(keys, p, v);
  }

  /**
   * From a record boundary, the emissions are exactly the records of the full
   * blocks, and the state holds the values of the incomplete last block.
   */
  lemma {:induction false} RunAssembles<K, V>(keys: seq<K>, vs: seq<V>)
    requires 0 < |keys|
    ensures Run(keys, Initial(), vs) == Trace(Partial(keys, Leftover(keys, vs)), Assembled(keys, vs))
    decreases |vs|
  {
    var L := |keys|;
    if |vs| < L {
      RunWithinRecord(keys, vs);
    } else {
      var first, rest := vs[..L], vs[L..];
      assert vs == first + rest;
      RunAppend(keys, Initial(), first, rest);
      RunOneRecord(keys, first);
      RunAssembles(keys, rest);
      var second := Run(keys, Initial(), rest);
      assert Run(keys, Initial(), vs) == Trace(second.last, [Record(keys, first)] + second.emitted);
    }
  }

  /**
   * From a record boundary with a non-empty key array, after n deliveries the
   * cursor is n % L and exactly n / L records have been emitted, L being
   * keys.length.
   */
  lemma RunSchedule<K, V>(keys: seq<K>, vs: seq<V>)
    requires 0 < |keys|
    ensures Run(keys, Initial(), vs).last.cursor == |vs| % |keys|
    ensures |Run(keys, Initial(), vs).emitted| == |vs| / |keys|
  {
    RunAssembles(keys, vs);
    AssembledCount(keys, vs);
    BlockStartIsProduct(|Assembled(keys, vs)|, |keys|);
    DivModUnique(|vs|, |keys|, |Assembled(keys, vs)|, |Leftover(keys, vs)|);
  }

  /** Every emitted record has exactly the configured keys as its domain. */
  lemma {:induction false} AssembledKeys<K, V>(keys: seq<K>, vs: seq<V>, j: nat)
    requires 0 < |keys| && j < |Assembled(keys, vs)|
    ensures Assembled(keys, vs)[j].Keys == set k | k in keys
    decreases |vs|
  {
    if j > 0 {
      AssembledKeys(keys, vs[|keys|..], j - 1);
    } else {
      RecordKeys(keys, vs[..|keys|]);
    }
  }

  /** A record over three positions, written out. */
  lemma RecordOfThree<K, V>(k0: K, k1: K, k2: K, v0: V, v1: V, v2: V)
    ensures Record([k0, k1, k2], [v0, v1, v2]) == map[k0 := v0][k1 := v1][k2 := v2]
  {
    var nk: seq<K>, nv: seq<V> := [], [];
    RecordSnoc(nk, nv, k0, v0);
    assert nk + [k0] == [k0] && nv + [v0] == [v0];
    RecordSnoc([k0], [v0], k1, v1);
    assert [k0] + [k1] == [k0, k1] && [v0] + [v1] == [v0, v1];
    RecordSnoc([k0, k1], [v0, v1], k2, v2);
    assert [k0, k1] + [k2] == [k0, k1, k2] && [v0, v1] + [v2] == [v0, v1, v2];
  }

  /** A full block from a record boundary emits its record; what follows starts on a boundary. */
  lemma RunRecordThen<K, V>(keys: seq<K>, b: seq<V>, rest: seq<V>)
    requires 0 < |b| == |keys|
    ensures var after := Run(keys, Initial(), rest);
            Run(keys, Initial(), b + rest) == Trace(after.last, [Record(keys, b)] + after.emitted)
  {
    RunOneRecord(keys, b);
    RunAppend(keys, Initial(), b, rest);
  }

  /** The values of several blocks, delivered one block after the other. */
  function Concat<V>(bs: seq<seq<V>>): (vs: seq<V>)
  {
    if bs == [] then [] else bs[0] + Concat(bs[1..])
  }

  /** The record each block builds. */
  function Records<K, V>(keys: seq<K>, bs: seq<seq<V>>): (rs: seq<map<K, V>>)
    requires forall i :: 0 <= i < |bs| ==> |bs[i]| == |keys|
    ensures |rs| == |bs|
  {
    if bs == [] then [] else [Record(keys, bs[0])] + Records(keys, bs[1..])
  }

  /** Full blocks delivered from a record boundary emit one record each and end on a boundary. */
  lemma {:induction false} RunBlocks<K, V>(keys: seq<K>, bs: seq<seq<V>>)
    requires 0 < |keys|
    requires forall i :: 0 <= i < |bs| ==> |bs[i]| == |keys|
    ensures Run(keys, Initial(), Concat(bs)) == Trace(Initial(), Records(keys, bs))
    decreases |bs|
  {
    if bs != [] {
      RunBlocks(keys, bs[1..]);
      RunRecordThen(keys, bs[0], Concat(bs[1..]));
    }
  }

  /**
   * The worked example of the operator's documentation: keys [a,b,c] and the
   * values 2, 66, 5, 2, -1, 3, 12, 13, 5 emit three records, in this order, and
   * leave no record in progress.
   */
  lemma FunctionTableExample(keys: seq<char>, vs: seq<int>)
    requires keys == ['a', 'b', 'c'] && vs == [2, 66, 5, 2, -1, 3, 12, 13, 5]
    ensures Run(keys, Initial(), vs) ==
            Trace(Initial(), [map['a' := 2, 'b' := 66, 'c' := 5],
                              map['a' := 2, 'b' := -1, 'c' := 3],
                              map['a' := 12, 'b' := 13, 'c' := 5]])
  {
    var bs: seq<seq<int>> := [[2, 66, 5], [2, -1, 3], [12, 13, 5]];
    assert Concat(bs) == vs;
    RecordOfThree('a', 'b', 'c', 2, 66, 5);
    RecordOfThree('a', 'b', 'c', 2, -1, 3);
    RecordOfThree('a', 'b', 'c', 12, 13, 5);
    assert Records(keys, bs[2..]) == [Record(keys, bs[2])];
    assert Records(keys, bs[1..]) == [Record(keys, bs[1])] + Records(keys, bs[2..]);
    RunBlocks(keys, bs);
  }

  /**
   * The operator. `keys` is the configured key array (None for Java's null),
   * `emitted` everything sent on the `map` output port, oldest first. Each call
   * of Process is one Deliver step, so a run of calls with unchanged keys is
   * described by Run and the lemmas above.
   */
  class RoundRobinHashMap<K(==), V> {
    var keys: Option<seq<K>>
    var cursor: nat
    var otuple: Option<map<K, V>>
    var emitted: seq<map<K, V>>

    ghost predicate Valid()
      reads this
    {
      WellFormed(State(cursor, otuple))
    }

    constructor ()
      ensures Valid()
      ensures keys == None && State(cursor, otuple) == Initial() && emitted == []
    {
      keys, cursor, otuple, emitted := None, 0, None, [];
    }

    /** Replaces the key array; the cursor and the record in progress are kept as they are. */
    method SetKeys(ks: Option<seq<K>>)
      requires Valid()
      modifies this`keys
      ensures Valid()
      ensures keys == ks
    {
      keys := ks;
    }

    /** The `process` handler of the `data` input port. */
    method Process(v: V) returns (outcome: Outcome)
      requires Valid()
      modifies this`cursor, this`otuple, this`emitted
      ensures Valid()
      ensures keys.None? ==>
                outcome == NullKeys && cursor == old(cursor) && otuple == old(otuple) && emitted == old(emitted)
      ensures keys.Some? ==>
                var r := Deliver(keys.value, old(State(cursor, otuple)), v);
                && outcome == r.outcome
                && State(cursor, otuple) == r.next
                && emitted == old(emitted) + Emissions(r.out)
    {
      if keys.None? {
        return NullKeys;
      }
      var ks := keys.value;
      if |ks| == 0 {
        return Done;
      }
      if cursor == 0 {
        otuple := Some(map[]);
      }
      if cursor >= |ks| {
        return KeyIndexOutOfBounds;
      }
      otuple := Some(otuple.value[ks[cursor] := v]);
      cursor := cursor + 1;
      if cursor >= |ks| {
        emitted := emitted + [otuple.value];
        cursor := 0;
        otuple := None;
      }
      outcome := Done;
    }
  }
}
