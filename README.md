# SumMap and RoundRobinHashMap, modelled in Dafny

This project models two stream operators of the Malhar operator library and
proves what they promise.

- **SumMap** (module `Math`, file `math.dfy`) is a per-window keyed sum.
  - Every tuple on the `data` port is a map from keys to numbers. The value of
    each key that the key filter accepts is added to a running accumulator for
    that key. The accumulator is created on first sight, and only while the
    `sum` port is connected.
  - At the end of the window, every accumulator is converted back to the value
    type. The resulting map is emitted on `sum` if it is not empty. The
    accumulators are then cleared in every case.
- **RoundRobinHashMap** (module `Stream`, file `stream.dfy`) assembles records
  from consecutive scalar tuples.
  - The i-th value since the last emission is stored under `keys[i]`. Once every
    key has a value, the record is emitted on `map` and a fresh one is started.
  - The record in progress and the cursor are operator state that window
    boundaries do not touch.

Both operators are modelled twice over:

- A class keeps the Java fields (`sums`, `cursor`, `otuple`). Its methods
  update those fields step by step, as the Java methods do. The class also has
  an `emitted` sequence that records everything sent on the output port.
- Pure functions specify the methods:
  - `AddTuple` and `Accumulate` for SumMap;
  - `Deliver` and `Run` for RoundRobinHashMap.

  Each method's postcondition ties the new state to these functions. The
  properties of the operators are then proved as lemmas about the functions.

### SumMap

Things the model takes as parameters or stands in for:

- The key filter lives in a base class that is not part of this model. It is
  the value `Filter(filterBy, inverse)`.
- Port connectivity is the constant `sumConnected`.
- The conversions `doubleValue` (value to accumulator) and `getValue`
  (accumulator back to value) are function-valued constants of the object.
- Accumulators are exact reals.

What is proved:

- `Accumulate` folds `AddTuple` over the tuples of a window. It is compared
  with an independent per-key reference, `KeyTotal`: the plain sum of a key's
  accepted values.
- From that comparison follow:
  - the per-key result of a window;
  - its independence from the order of the tuples;
  - that summing the window in two parts and merging gives the same result;
  - the emitted map;
  - the worked example from the operator's documentation.
- `SumMap.Process` walks the entries of the tuple in an arbitrary order, just
  as iteration over a `HashMap` does. Its loop invariant shows that every
  order gives `AddTuple`.

### RoundRobinHashMap

- `Deliver` is one `process` call. `Run` is a sequence of calls.
- What is proved about `Run`:
  - the exact emission schedule: after n values there have been n / L
    emissions, and the cursor stands at n % L, where L is `keys.length`;
  - the content of every emitted record;
  - that the cursor stays inside the key array;
  - that an empty key array makes every call a no-op;
  - that splitting the input anywhere, for instance at a window boundary,
    changes nothing;
  - the worked example from the operator's documentation.
- Java's failures become an `Outcome`:
  - a `null` key array gives a `NullPointerException`;
  - `keys[cursor]` past the end of the array gives an
    `ArrayIndexOutOfBoundsException`. This can happen when `setKeys` installs a
    shorter array while a record is in progress.

The key filter's rule follows the operator's function table, not a plain
reading of the property descriptions. The method that applies the filter,
`doprocessKey`, and the filter's defaults live in a base class that is not
part of this model, so the rule rests on the table:

- `SumMap.java:27-28` reads as "accept a key when it is in `filterBy`,
  inverted by `inverse`".
- The model assumes that the default configuration has no filter keys and
  `inverse` false. Under that reading, the default configuration would reject
  every key.
- But the function table at `SumMap.java:45-53` sums every key with no filter
  configured.
- So the model accepts every key when `filterBy` is empty. Otherwise a key is
  accepted when (key in `filterBy`) differs from `inverse`. This is the only
  reading under which the documented window gives its documented output.

## Model

| member | source | states |
|---|---|---|
| Math.AddTupleAt | library/src/main/java/com/malhartech/lib/math/SumMap.java:75-88 | For an accepted key of the tuple, the accumulator becomes the old accumulator plus the value, or just the value when there was none. A rejected or absent key keeps its accumulator, or its absence. |
| Math.AddTupleStep | library/src/main/java/com/malhartech/lib/math/SumMap.java:75-90 | Visiting one more entry of the tuple, whichever one it is, adds its value to that key's accumulator if the filter accepts the key. A rejected key changes nothing, and the loop goes on with the other entries. |
| Math.AccumulateAt | library/src/main/java/com/malhartech/lib/math/SumMap.java:75-88 | After a window, a key has an accumulator exactly when it had one before or occurs accepted in some tuple. Its value is the old value plus the sum of all the key's accepted values (`KeyTotal`). A key that never occurs accepted keeps its accumulator, or its absence, unchanged. |
| Math.AccumulateAppend | library/src/main/java/com/malhartech/lib/math/SumMap.java:73-91 | Processing `a + b` is processing `a` and then `b`. |
| Math.KeyTotalPermutation | library/src/main/java/com/malhartech/lib/math/SumMap.java:75-88 | A key's total over a window does not depend on the order in which the tuples arrive. |
| Math.AccumulateOrderIndependent | library/src/main/java/com/malhartech/lib/math/SumMap.java:75-88 | Two windows holding the same tuples in any order end with the same accumulators. |
| Math.SplitMerge | library/src/main/java/com/malhartech/lib/math/SumMap.java:75-88 | Summing a window in two parts and adding the parts key by key (`Merge`, the model's own combination) gives the sums of the whole window. |
| Math.WindowResult | library/src/main/java/com/malhartech/lib/math/SumMap.java:112-125 | For a window that starts with no accumulators, the emitted map holds exactly the accepted keys that occur in the window. Each maps to `getValue` of its total. There are no accumulators at all exactly when no accepted key occurs, and then nothing is emitted. |
| Math.FunctionTableExample | library/src/main/java/com/malhartech/lib/math/SumMap.java:45-53 | With no filter, the eight tuples of the documented window produce {a=36,b=37,c=1000,d=141,e=2}. |
| Math.SumMap.constructor | library/src/main/java/com/malhartech/lib/math/SumMap.java:102 | A new operator has no accumulators and has emitted nothing. |
| Math.SumMap.Process | library/src/main/java/com/malhartech/lib/math/SumMap.java:73-91 | When `sum` is connected, the accumulators become `AddTuple` of the old ones and the tuple, whatever order the entries are visited in. Otherwise they are unchanged. Nothing is emitted, and the accumulators stay the sums of the current window. |
| Math.SumMap.EndWindow | library/src/main/java/com/malhartech/lib/math/SumMap.java:110-128 | When `sum` is connected and there are accumulators, exactly one map is emitted: every accumulator converted by `getValue`. Otherwise nothing is emitted. The accumulators are cleared in every case, and the next window starts empty. |
| Math.SumMap.ClearCache | library/src/main/java/com/malhartech/lib/math/SumMap.java:130-133 | Drops every accumulator. |
| Stream.Deliver | library/src/main/java/com/datatorrent/lib/stream/RoundRobinHashMap.java:67-81 | Every call keeps the invariant that a record is in progress exactly when the cursor is non-zero. |
| Stream.DeliverSpec | library/src/main/java/com/datatorrent/lib/stream/RoundRobinHashMap.java:67-81 | With no keys, a call does nothing. With the cursor past the end, it fails and changes nothing. Otherwise it stores the value under keys[cursor]. When the cursor is 0 this starts a fresh record. Otherwise it goes into the record in progress, which keeps its earlier entries. The cursor stays below keys.length. A record is emitted, and the state reset, exactly when the incremented cursor reaches keys.length. |
| Stream.EmptyKeysNoOp | library/src/main/java/com/datatorrent/lib/stream/RoundRobinHashMap.java:69-71 | With an empty key array, any number of calls changes nothing and emits nothing. |
| Stream.CursorStaysInRange | library/src/main/java/com/datatorrent/lib/stream/RoundRobinHashMap.java:57-80 | While the key array is unchanged, a cursor inside it stays inside it after any number of calls. |
| Stream.RunAppend | library/src/main/java/com/datatorrent/lib/stream/RoundRobinHashMap.java:18 | Delivering `a` and then `b` is delivering `a + b`. The state reached at any point, a window boundary included, is carried on unchanged. |
| Stream.RecordKeys | library/src/main/java/com/datatorrent/lib/stream/RoundRobinHashMap.java:75 | A record built by putting values under keys has exactly those keys. |
| Stream.RecordAt | library/src/main/java/com/datatorrent/lib/stream/RoundRobinHashMap.java:75 | With distinct keys, a record maps keys[i] to the i-th value put. |
| Stream.RunWithinRecord | library/src/main/java/com/datatorrent/lib/stream/RoundRobinHashMap.java:72-80 | From a record boundary, fewer than keys.length values emit nothing. They leave the cursor at their count and a record holding them in progress. |
| Stream.RunOneRecord | library/src/main/java/com/datatorrent/lib/stream/RoundRobinHashMap.java:72-80 | From a record boundary, exactly keys.length values emit the one record they build and return to a boundary. |
| Stream.RunAssembles | library/src/main/java/com/datatorrent/lib/stream/RoundRobinHashMap.java:72-80 | From construction, the records emitted are exactly one per full block of keys.length consecutive values, in order. The values of the incomplete last block are the record in progress. |
| Stream.AssembledAt | library/src/main/java/com/datatorrent/lib/stream/RoundRobinHashMap.java:75-77 | Record j is built from values j*L up to j*L+L-1, where L is keys.length. |
| Stream.AssembledKeys | library/src/main/java/com/datatorrent/lib/stream/RoundRobinHashMap.java:75-77 | Every emitted record's key set is exactly the set of configured keys. |
| Stream.RunSchedule | library/src/main/java/com/datatorrent/lib/stream/RoundRobinHashMap.java:76-80 | After n values from construction there have been exactly n / L emissions, and the cursor is n % L. |
| Stream.RunBlocks | library/src/main/java/com/datatorrent/lib/stream/RoundRobinHashMap.java:72-80 | Full blocks delivered from a record boundary emit one record each, in order, and end on a boundary. |
| Stream.FunctionTableExample | library/src/main/java/com/datatorrent/lib/stream/RoundRobinHashMap.java:39-49 | With keys [a,b,c], the values 2, 66, 5, 2, -1, 3, 12, 13, 5 emit {a=2,b=66,c=5}, {a=2,b=-1,c=3} and {a=12,b=13,c=5}, in that order and nothing else, and leave no record in progress. |
| Stream.RoundRobinHashMap.constructor | library/src/main/java/com/datatorrent/lib/stream/RoundRobinHashMap.java:56-58 | A new operator has no key array, cursor 0, no record and no emissions. |
| Stream.RoundRobinHashMap.SetKeys | library/src/main/java/com/datatorrent/lib/stream/RoundRobinHashMap.java:86-88 | Replaces the key array and leaves the cursor and the record in progress as they are. |
| Stream.RoundRobinHashMap.Process | library/src/main/java/com/datatorrent/lib/stream/RoundRobinHashMap.java:67-81 | With no key array, the call fails with a NullPointerException and changes nothing. Otherwise the outcome, the new cursor and record, and what is appended to `emitted` are those of `Deliver`. |

## Left out

- `getUnifier` and `UnifierHashMapSumKeys` (`SumMap.java:97-100`) are not part of this model. That code merges partial sums across partitions. `Math.SplitMerge` is only about this model's own `Merge`.
- Floating point: `MutableDouble` accumulation and rounding are not modelled.
  - Accumulators are exact reals.
  - The value conversions `doubleValue` and `getValue` belong to base classes that are not part of this model, so they are parameters.
  - `TruncateToInt` (truncation toward zero) is used only to state the SumMap worked example for integer values.
- `doprocessKey`, the filter setters and `cloneKey` live in base classes that are not part of this model.
  - The filter is a constant of the object, with the rule explained above.
  - `cloneKey` is the identity.
- Port framework mechanics are not modelled: annotations, `DefaultInputPort`/`DefaultOutputPort`, `beginWindow` and the benchmark tables. Connectivity is a constant, and emission appends to `emitted`.
- Java `null` is not modelled inside tuples: no null tuple, null key or null value. A Dafny map cannot hold them, and the source does not treat them specially.
- Stream.RoundRobinHashMap.Process: the n / L emission schedule after n calls is proved about `Run`, not as a postcondition of the object.
  - Each call is tied to `Deliver`, and `Stream.RunSnoc` composes calls into `Run`.
  - The object keeps no ghost history of the values delivered.
- Stream.CursorStaysInRange: the cursor bound holds only while the key array is unchanged. `setKeys` does not reset the cursor, so after a shorter array is set a call can fail with `KeyIndexOutOfBounds`.
- Aliasing of the key array is not modelled. `setKeys` stores the caller's array, and later writes by the caller would be visible to the operator. The model keeps the keys as a value.
- The emitted `HashMap` is modelled as a value. The source emits a reference to it and then forgets it.
- Math.SumMap.Process and Math.SumMap.EndWindow require the class invariant `Valid()`, which ties the accumulators to the tuples of the current window. The constructor, `Process`, `EndWindow` and `ClearCache` all preserve it.
