/**
 Schedules in which the interleaved cache leaves its sequential contract: after
 them no operation is in flight, yet the counter or the smallest-key index is
 wrong, and List panics although the comment on the counter says it is never
 negative under the lock.
 */
module CacheAnomalies {
  import opened Prelude
  import opened CacheInterleaving

  lemma {:induction false} ExecSnoc<V>(s: State<V>, steps: seq<(Tid, Act<V>)>, t: Tid, a: Act<V>)
    requires Exec(s, steps).Some?
    ensures Exec(s, steps + [(t, a)]) == Next(Exec(s, steps).value, t, a)
    decreases |steps|
  {
    var longer := steps + [(t, a)];
    if steps == [] {
      assert longer[1..] == [];
    } else {
      assert longer[1..] == steps[1..] + [(t, a)];
      ExecSnoc(Next(s, steps[0].0, steps[0].1).value, steps[1..], t, a);
    }
  }

  lemma Advance<V>(s: State<V>, steps: seq<(Tid, Act<V>)>, t: Tid, a: Act<V>)
    returns (s': State<V>, steps': seq<(Tid, Act<V>)>)
    requires Reachable(s, steps) && Next(s, t, a).Some?
    ensures Reachable(s', steps') && Next(s, t, a) == Some(s')
  {
    ExecSnoc(Init<V>(), steps, t, a);
    s', steps' := Next(s, t, a).value, steps + [(t, a)];
  }

  predicate Quiescent<V>(s: State<V>) {
    forall t :: t in s.threads ==> s.threads[t].Idle?
  }

  lemma CountAndRead<V>(s: State<V>, steps: seq<(Tid, Act<V>)>, t: Tid, k: Key)
    returns (s': State<V>, steps': seq<(Tid, Act<V>)>)
    requires Reachable(s, steps) && PcOf(s.threads, t) == StoreCount(k)
    ensures Reachable(s', steps')
    ensures s' == At(s.(len := s.len + 1), t, StoreFirst(k, s.len + 1, s.firstKey))
  {
    s', steps' := Advance(s, steps, t, Go);
    s', steps' := Advance(s', steps', t, Go);
    assert s'.threads == s.threads[t := StoreFirst(k, s.len + 1, s.firstKey)];
  }

  /** A store of a new key, run undisturbed up to its last step. */
  lemma StoreUpToFirst<V>(s: State<V>, steps: seq<(Tid, Act<V>)>, t: Tid, k: Key, v: V)
    returns (s': State<V>, steps': seq<(Tid, Act<V>)>)
    requires Reachable(s, steps) && PcOf(s.threads, t).Idle? && k !in s.items
    ensures Reachable(s', steps')
    ensures s' == State(s.items[k := v], s.len + 1, s.firstKey, s.writer, s.readers,
                        s.threads[t := StoreFirst(k, s.len + 1, s.firstKey)], s.overwrites)
  {
    s', steps' := Advance(s, steps, t, Call(StoreProbe(k, v)));
    s', steps' := Advance(s', steps', t, Go);
    s', steps' := CountAndRead(s', steps', t, k);
    assert s'.threads == s.threads[t := StoreFirst(k, s.len + 1, s.firstKey)];
  }

  /** Thread 0 stores key 1; thread 1 then finds it present and is about to replace it. */
  lemma ReplacePending() returns (s: State<int>, steps: seq<(Tid, Act<int>)>)
    ensures Reachable(s, steps)
    ensures s == State(map[1 := 7], 1, 1, None, {}, map[0 := Idle, 1 := StoreReplace(1, 8)], 0)
  {
    s, steps := StoreUpToFirst(Init(), [], 0, 1, 7);
    s, steps := Advance(s, steps, 0, Go);
    assert s == State(map[1 := 7], 1, 1, None, {}, map[0 := Idle], 0);
    s, steps := Advance(s, steps, 1, Call(StoreProbe(1, 8)));
    s, steps := Advance(s, steps, 1, Go);
  }

  lemma RemoveAndCount<V>(s: State<V>, steps: seq<(Tid, Act<V>)>, t: Tid, k: Key)
    returns (s': State<V>, steps': seq<(Tid, Act<V>)>)
    requires Reachable(s, steps) && PcOf(s.threads, t) == DeleteRemove(k) && k in s.items
    ensures Reachable(s', steps')
    ensures s' == At(s.(items := s.items - {k}, len := s.len - 1), t, DeleteCheck(k))
  {
    s', steps' := Advance(s, steps, t, Go);
    s', steps' := Advance(s', steps', t, Go);
    assert s'.threads == s.threads[t := DeleteCheck(k)];
  }

  /** A Delete that runs undisturbed up to its look at the first key. */
  lemma DeleteUpToCheck<V>(s: State<V>, steps: seq<(Tid, Act<V>)>, t: Tid, k: Key)
    returns (s': State<V>, steps': seq<(Tid, Act<V>)>)
    requires Reachable(s, steps) && PcOf(s.threads, t).Idle? && s.writer.None? && s.readers == {} && k in s.items
    ensures Reachable(s', steps')
    ensures s' == State(s.items - {k}, s.len - 1, s.firstKey, Some(t), {}, s.threads[t := DeleteCheck(k)], s.overwrites)
  {
    s', steps' := Advance(s, steps, t, Call(DeleteLock(k)));
    s', steps' := Advance(s', steps', t, Go);
    assert s' == At(s.(writer := Some(t)), t, DeleteRemove(k));
    s', steps' := RemoveAndCount(s', steps', t, k);
    assert s'.threads == s.threads[t := DeleteCheck(k)];
  }

  /** A Delete of the first key that finds nothing else to scan. */
  lemma DeleteLastEntry<V>(s: State<V>, steps: seq<(Tid, Act<V>)>, t: Tid, k: Key)
    returns (s': State<V>, steps': seq<(Tid, Act<V>)>)
    requires Reachable(s, steps) && PcOf(s.threads, t) == DeleteCheck(k) && k == s.firstKey && s.items == map[]
    ensures Reachable(s', steps')
    ensures s' == State(map[], s.len, 0, None, s.readers, s.threads[t := Idle], s.overwrites)
  {
    s', steps' := ScanNothing(s, steps, t, k);
    s', steps' := Advance(s', steps', t, Go);
    s', steps' := Advance(s', steps', t, Go);
    assert s'.threads == s.threads[t := Idle];
  }

  /** A Delete of another key than the first. */
  lemma DeleteOther<V>(s: State<V>, steps: seq<(Tid, Act<V>)>, t: Tid, k: Key)
    returns (s': State<V>, steps': seq<(Tid, Act<V>)>)
    requires Reachable(s, steps) && PcOf(s.threads, t) == DeleteCheck(k) && k != s.firstKey
    ensures Reachable(s', steps') && s' == s.(writer := None, threads := s.threads[t := Idle])
  {
    s', steps' := Advance(s, steps, t, Go);
    s', steps' := Advance(s', steps', t, Go);
    assert s'.threads == s.threads[t := Idle];
  }

  lemma ScanNothing<V>(s: State<V>, steps: seq<(Tid, Act<V>)>, t: Tid, k: Key)
    returns (s': State<V>, steps': seq<(Tid, Act<V>)>)
    requires Reachable(s, steps) && PcOf(s.threads, t) == DeleteCheck(k) && k == s.firstKey && s.items == map[]
    ensures Reachable(s', steps') && s' == At(s, t, DeleteFirst(0))
  {
    s', steps' := Advance(s, steps, t, Go);
    assert s'.threads[t] == DeleteScan({}, {}, 0);
    s', steps' := Advance(s', steps', t, EndRange);
    assert s'.threads == s.threads[t := DeleteFirst(0)];
  }

  lemma DeletedInBetween() returns (s: State<int>, steps: seq<(Tid, Act<int>)>)
    ensures Reachable(s, steps)
    ensures s == State(map[], 0, 0, None, {}, map[0 := Idle, 1 := StoreReplace(1, 8), 2 := Idle], 0)
  {
    s, steps := ReplacePending();
    s, steps := DeleteUpToCheck(s, steps, 2, 1);
    assert s.items == map[];
    s, steps := DeleteLastEntry(s, steps, 2, 1);
    assert s.threads == map[0 := Idle, 1 := StoreReplace(1, 8), 2 := Idle];
  }

  /** Thread 2 deletes the key in between; the replacing store re-inserts it uncounted. */
  lemma Reinserted() returns (s: State<int>, steps: seq<(Tid, Act<int>)>)
    ensures Reachable(s, steps)
    ensures s == State(map[1 := 8], 0, 0, None, {}, map[0 := Idle, 1 := Idle, 2 := Idle], 1)
  {
    s, steps := DeletedInBetween();
    s, steps := Advance(s, steps, 1, Go);
  }

  /** With nothing in flight the counter says 0 for one entry, and after one more Delete it says -1. */
  lemma CounterGoesNegative() returns (s: State<int>, steps: seq<(Tid, Act<int>)>)
    ensures Reachable(s, steps) && Quiescent(s) && s.items == map[] && s.len == -1
    ensures s == State(map[], -1, 0, None, {}, map[0 := Idle, 1 := Idle, 2 := Idle], 1)
  {
    s, steps := Reinserted();
    s, steps := DeleteUpToCheck(s, steps, 2, 1);
    s, steps := DeleteOther(s, steps, 2, 1);
  }

  lemma ListAllocates<V>(s: State<V>, steps: seq<(Tid, Act<V>)>, t: Tid)
    returns (s': State<V>, steps': seq<(Tid, Act<V>)>)
    requires Reachable(s, steps) && PcOf(s.threads, t) == ListLock && s.writer.None? && s.len < 0
    ensures Reachable(s', steps') && s' == At(s.(readers := s.readers - {t}), t, Panicked)
  {
    s', steps' := Advance(s, steps, t, Go);
    assert s' == At(s.(readers := s.readers + {t}), t, ListAlloc(s.items.Keys));
    s', steps' := Advance(s', steps', t, Go);
    assert s'.threads == s.threads[t := Panicked] && s'.readers == s.readers - {t};
  }

  /** Whenever the counter is negative and the lock is free, a List on its own panics. */
  lemma ListPanics<V>(s: State<V>, steps: seq<(Tid, Act<V>)>, t: Tid)
    returns (s': State<V>, steps': seq<(Tid, Act<V>)>)
    requires Reachable(s, steps) && PcOf(s.threads, t).Idle? && s.writer.None? && t !in s.readers && s.len < 0
    ensures Reachable(s', steps') && s' == At(s, t, Panicked)
  {
    s', steps' := Advance(s, steps, t, Call(ListLock));
    s', steps' := ListAllocates(s', steps', t);
    assert s'.threads == s.threads[t := Panicked] && s'.readers == s.readers;
  }

  /** So the state above is followed by a panic, with nothing else in flight. */
  lemma QuietListPanics() returns (s: State<int>, steps: seq<(Tid, Act<int>)>)
    ensures Reachable(s, steps) && s.items == map[]
    ensures s.threads == map[0 := Idle, 1 := Idle, 2 := Idle, 3 := Panicked]
  {
    s, steps := CounterGoesNegative();
    s, steps := ListPanics(s, steps, 3);
  }

  /** Thread 0 has stored key 1 but not counted it yet; thread 1 deletes it. */
  lemma DeletedBeforeCounted() returns (s: State<int>, steps: seq<(Tid, Act<int>)>)
    ensures Reachable(s, steps)
    ensures s == State(map[], -1, 0, None, {}, map[0 := StoreCount(1), 1 := Idle], 0)
  {
    s, steps := Init(), [];
    s, steps := Advance(s, steps, 0, Call(StoreProbe(1, 7)));
    s, steps := Advance(s, steps, 0, Go);
    assert s == State(map[1 := 7], 0, 1, None, {}, map[0 := StoreCount(1)], 0);
    s, steps := DeleteUpToCheck(s, steps, 1, 1);
    assert s.items == map[];
    s, steps := DeleteLastEntry(s, steps, 1, 1);
  }

  /** A second way to the panic, with nothing re-inserted: the decrement overtakes the increment. */
  lemma UncountedDeletePanics() returns (s: State<int>, steps: seq<(Tid, Act<int>)>)
    ensures Reachable(s, steps) && s.overwrites == 0 && s.len == -1
    ensures s.threads == map[0 := StoreCount(1), 1 := Idle, 2 := Panicked]
  {
    s, steps := DeletedBeforeCounted();
    s, steps := ListPanics(s, steps, 2);
  }

  /**
   Two overlapping stores of new keys `a < b`: whenever the cache is empty or both lie
   below the index, the index can end on `b`, with nothing left in flight.
   */
  lemma FirstKeyNotSmallest<V>(s: State<V>, steps: seq<(Tid, Act<V>)>, t: Tid, u: Tid, a: Key, b: Key, x: V, y: V)
    returns (s': State<V>, steps': seq<(Tid, Act<V>)>)
    requires Reachable(s, steps) && t != u && PcOf(s.threads, t).Idle? && PcOf(s.threads, u).Idle?
    requires a < b && a !in s.items && b !in s.items && (s.len == 0 || b < s.firstKey)
    ensures Reachable(s', steps') && s'.threads == s.threads[t := Idle][u := Idle] && s'.overwrites == s.overwrites
    ensures s'.items == s.items[b := y][a := x] && s'.len == s.len + 2
    ensures s'.firstKey == b && a in s'.items
  {
    s', steps' := StoreUpToFirst(s, steps, t, b, y);
    s', steps' := StoreUpToFirst(s', steps', u, a, x);
    assert PcOf(s'.threads, t) == StoreFirst(b, s.len + 1, s.firstKey);
    s', steps' := Advance(s', steps', u, Go);
    assert PcOf(s'.threads, t) == StoreFirst(b, s.len + 1, s.firstKey);
    s', steps' := Advance(s', steps', t, Go);
    assert s'.threads == s.threads[t := Idle][u := Idle];
  }
}
