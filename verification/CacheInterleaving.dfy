/**
 The cache under concurrency (pkg/cache/cache.go). Every atomic access is its own
 step: a map access, a counter access, taking or leaving the lock, one visit of a
 Range. Any number of threads run Store, Delete, Cleanup and List; Store takes no
 lock. `overwrites` is an auxiliary count of replacing stores that found their
 key gone and so inserted it without counting it.
 */
module CacheInterleaving {
  import opened Prelude
  import opened KeyOrder
  import MemoryCache

  type Tid = nat

  datatype Pc<V> =
    | Idle
    // Store
    | StoreProbe(key: Key, value: V)
    | StoreReplace(key: Key, value: V)
    | StoreCount(key: Key)
    | StoreReadFirst(key: Key, newLen: int)
    | StoreFirst(key: Key, newLen: int, first: Key)
    // Delete
    | DeleteLock(key: Key)
    | DeleteRemove(key: Key)
    | DeleteCount(key: Key)
    | DeleteCheck(key: Key)
    | DeleteScan(begun: set<Key>, seen: set<Key>, next: Key)
    | DeleteFirst(next: Key)
    // Cleanup
    | CleanLock
    | CleanLen
    | CleanAlloc(toRemove: nat)
    | CleanScan(toRemove: nat, begun: set<Key>, keys: seq<Key>)
    | CleanRemove(keys: seq<Key>, n: nat, i: nat)
    | CleanCount(keys: seq<Key>, n: nat, i: nat)
    | CleanFirst(keys: seq<Key>, n: nat)
    | Unlock
    // List: `start` is the key set at the moment the read lock was taken
    | ListLock
    | ListAlloc(start: set<Key>)
    | ListScan(start: set<Key>, begun: set<Key>, out: seq<(Key, V)>)
    | ListDone(start: set<Key>, out: seq<(Key, V)>)
    | Panicked

  datatype State<V> = State(
    items: map<Key, V>, len: int, firstKey: Key,
    writer: Option<Tid>, readers: set<Tid>,
    threads: map<Tid, Pc<V>>, overwrites: nat)

  /** `Call` starts an operation on an idle thread; a Range visits keys in any order until it may end. */
  datatype Act<V> = Call(pc: Pc<V>) | Go | Visit(key: Key) | EndRange

  predicate IsCall<V>(pc: Pc<V>) {
    pc.StoreProbe? || pc.DeleteLock? || pc.CleanLock? || pc.ListLock?
  }

  predicate HoldsWrite<V>(pc: Pc<V>) {
    || pc.DeleteRemove? || pc.DeleteCount? || pc.DeleteCheck? || pc.DeleteScan? || pc.DeleteFirst?
    || pc.CleanLen? || pc.CleanAlloc? || pc.CleanScan? || pc.CleanRemove? || pc.CleanCount? || pc.CleanFirst?
    || pc.Unlock?
  }

  predicate HoldsRead<V>(pc: Pc<V>) {
    pc.ListAlloc? || pc.ListScan? || pc.ListDone?
  }

  predicate PendsIncrement<V>(pc: Pc<V>) {
    pc.StoreCount?
  }

  predicate PendsDecrement<V>(pc: Pc<V>) {
    pc.DeleteCount? || pc.CleanCount?
  }

  function At<V>(s: State<V>, t: Tid, pc: Pc<V>): (s': State<V>) {
    s.(threads := s.threads[t := pc])
  }

  function KeysOf<V>(out: seq<(Key, V)>): (ks: set<Key>) {
    set i | 0 <= i < |out| :: out[i].0
  }

  // ---------------------------------------------------------------- the steps

  /** Only the stepping thread changes its place. */
  ghost predicate OnlyMoves<V>(s: State<V>, t: Tid, s': State<V>) {
    t in s'.threads && s'.threads == s.threads[t := s'.threads[t]]
  }

  function StoreStep<V>(s: State<V>, t: Tid, pc: Pc<V>): (r: Option<State<V>>)
    ensures r.Some? ==> OnlyMoves(s, t, r.value) && !HoldsRead(r.value.threads[t])
  {
    match pc
    case StoreProbe(key, value) =>
      if key in s.items then Some(At(s, t, StoreReplace(key, value)))
      else Some(At(s.(items := s.items[key := value]), t, StoreCount(key)))
    case StoreReplace(key, value) =>
      Some(At(s.(items := s.items[key := value],
                 overwrites := s.overwrites + if key in s.items then 0 else 1), t, Idle))
    case StoreCount(key) => Some(At(s.(len := s.len + 1), t, StoreReadFirst(key, s.len + 1)))
    case StoreReadFirst(key, newLen) => Some(At(s, t, StoreFirst(key, newLen, s.firstKey)))
    case StoreFirst(key, newLen, first) =>
      Some(At(if newLen == 1 || key < first then s.(firstKey := key) else s, t, Idle))
    case _ => None
  }

  function DeleteStep<V>(s: State<V>, t: Tid, pc: Pc<V>, a: Act<V>): (r: Option<State<V>>)
    ensures r.Some? ==> OnlyMoves(s, t, r.value) && !HoldsRead(r.value.threads[t])
  {
    match pc
    case DeleteLock(key) =>
      if s.writer.None? && s.readers == {} then Some(At(s.(writer := Some(t)), t, DeleteRemove(key))) else None
    case DeleteRemove(key) =>
      if key !in s.items then Some(At(s, t, Unlock))
      else Some(At(s.(items := s.items - {key}), t, DeleteCount(key)))
    case DeleteCount(key) => Some(At(s.(len := s.len - 1), t, DeleteCheck(key)))
    case DeleteCheck(key) =>
      Some(At(s, t, if key == s.firstKey then DeleteScan(s.items.Keys, {}, 0) else Unlock))
    case DeleteScan(begun, seen, next) =>
      if a.Visit? && a.key in s.items && a.key !in seen then
        Some(At(s, t, DeleteScan(begun, seen + {a.key}, if next == 0 || a.key < next then a.key else next)))
      else if a.EndRange? && begun * s.items.Keys <= seen then Some(At(s, t, DeleteFirst(next)))
      else None
    case DeleteFirst(next) => Some(At(s.(firstKey := next), t, Unlock))
    case _ => None
  }

  function CleanStep<V>(s: State<V>, t: Tid, pc: Pc<V>, a: Act<V>): (r: Option<State<V>>)
    ensures r.Some? ==> OnlyMoves(s, t, r.value) && !HoldsRead(r.value.threads[t])
  {
    match pc
    case CleanLock =>
      if s.writer.None? && s.readers == {} then Some(At(s.(writer := Some(t)), t, CleanLen)) else None
    case CleanLen =>
      var toRemove := MemoryCache.TruncDiv5(s.len);
      Some(At(s, t, if toRemove <= 0 then Unlock else CleanAlloc(toRemove)))
    case CleanAlloc(toRemove) =>
      if s.len < 0 then Some(At(s.(writer := None), t, Panicked))
      else Some(At(s, t, CleanScan(toRemove, s.items.Keys, [])))
    case CleanScan(toRemove, begun, keys) =>
      if a.Visit? && a.key in s.items && a.key !in keys then
        Some(At(s, t, CleanScan(toRemove, begun, keys + [a.key])))
      else if a.EndRange? && begun * s.items.Keys <= Elements(keys) then
        var n := if toRemove > |keys| then |keys| else toRemove;
        Some(At(s, t, if n == 0 then Unlock else CleanRemove(MemoryCache.Sort(keys), n, 0)))
      else None
    case CleanRemove(keys, n, i) =>
      if i < |keys| then Some(At(s.(items := s.items - {keys[i]}), t, CleanCount(keys, n, i))) else None
    case CleanCount(keys, n, i) =>
      Some(At(s.(len := s.len - 1), t, if i + 1 < n then CleanRemove(keys, n, i + 1) else CleanFirst(keys, n)))
    case CleanFirst(keys, n) =>
      Some(At(s.(firstKey := if n < |keys| then keys[n] else 0), t, Unlock))
    case Unlock => Some(At(s.(writer := None), t, Idle))
    case _ => None
  }

  /** `make` with a negative capacity panics; the deferred RUnlock still runs. */
  function ListStep<V>(s: State<V>, t: Tid, pc: Pc<V>, a: Act<V>): (r: Option<State<V>>)
    ensures r.Some? ==> OnlyMoves(s, t, r.value)
  {
    match pc
    case ListLock =>
      if s.writer.None? then Some(At(s.(readers := s.readers + {t}), t, ListAlloc(s.items.Keys))) else None
    case ListAlloc(start) =>
      if s.len < 0 then Some(At(s.(readers := s.readers - {t}), t, Panicked))
      else Some(At(s, t, ListScan(start, s.items.Keys, [])))
    case ListScan(start, begun, out) =>
      if a.Visit? && a.key in s.items && a.key !in KeysOf(out) then
        Some(At(s, t, ListScan(start, begun, out + [(a.key, s.items[a.key])])))
      else if a.EndRange? && begun * s.items.Keys <= KeysOf(out) then Some(At(s, t, ListDone(start, out)))
      else None
    case ListDone(start, out) => Some(At(s.(readers := s.readers - {t}), t, Idle))
    case _ => None
  }

  function PcOf<V>(threads: map<Tid, Pc<V>>, t: Tid): (pc: Pc<V>) {
    if t in threads then threads[t] else Idle
  }

  function Next<V>(s: State<V>, t: Tid, a: Act<V>): (r: Option<State<V>>)
    ensures r.Some? ==> OnlyMoves(s, t, r.value)
  {
    var pc := PcOf(s.threads, t);
    if a.Call? then (if pc.Idle? && IsCall(a.pc) then Some(At(s, t, a.pc)) else None)
    else if pc.StoreProbe? || pc.StoreReplace? || pc.StoreCount? || pc.StoreReadFirst? || pc.StoreFirst? then
      StoreStep(s, t, pc)
    else if pc.DeleteLock? || pc.DeleteRemove? || pc.DeleteCount? || pc.DeleteCheck? || pc.DeleteScan? || pc.DeleteFirst? then
      DeleteStep(s, t, pc, a)
    else if pc.ListLock? || HoldsRead(pc) then ListStep(s, t, pc, a)
    else CleanStep(s, t, pc, a)
  }

  function Init<V>(): (s: State<V>) {
    State(map[], 0, MemoryCache.EMPTY_FIRST_KEY, None, {}, map[], 0)
  }

  function Exec<V>(s: State<V>, steps: seq<(Tid, Act<V>)>): (r: Option<State<V>>)
    decreases |steps|
  {
    if steps == [] then Some(s) else
      var s1 := Next(s, steps[0].0, steps[0].1);
      if s1.None? then None else Exec(s1.value, steps[1..])
  }

  // ---------------------------------------------------------------- the invariant

  ghost function Incrementing<V>(threads: map<Tid, Pc<V>>): (r: set<Tid>) {
    set t | t in threads && PendsIncrement(threads[t])
  }

  ghost function Decrementing<V>(threads: map<Tid, Pc<V>>): (r: set<Tid>) {
    set t | t in threads && PendsDecrement(threads[t])
  }

  /** Entries = counter + increments to come - decrements to come + uncounted re-insertions. */
  ghost predicate Accounted<V>(s: State<V>) {
    |s.items| == s.len + |Incrementing(s.threads)| - |Decrementing(s.threads)| + s.overwrites
  }

  ghost predicate Locked<V>(s: State<V>) {
    && (forall t :: t in s.threads ==> (HoldsWrite(s.threads[t]) <==> s.writer == Some(t)))
    && (forall t :: t in s.threads ==> (HoldsRead(s.threads[t]) <==> t in s.readers))
    && (s.writer.Some? ==> s.writer.value in s.threads && s.readers == {})
    && s.readers <= s.threads.Keys
  }

  ghost predicate DistinctKeys<V>(out: seq<(Key, V)>) {
    forall i, j :: 0 <= i < j < |out| ==> out[i].0 != out[j].0
  }

  ghost predicate Distinct(ks: seq<Key>) {
    forall i, j :: 0 <= i < j < |ks| ==> ks[i] != ks[j]
  }

  /** What a thread that holds a lock may rely on. */
  ghost predicate Local<V>(keys: set<Key>, len: int, pc: Pc<V>) {
    match pc
    case CleanAlloc(toRemove) => 0 < 5 * toRemove <= len
    case CleanScan(toRemove, begun, ks) => toRemove > 0 && Distinct(ks) && Elements(ks) <= keys && begun <= keys
    case CleanRemove(ks, n, i) => i < n <= |ks| && Ascending(ks) && forall j :: i <= j < |ks| ==> ks[j] in keys
    case CleanCount(ks, n, i) => i < n <= |ks| && Ascending(ks) && forall j :: i < j < |ks| ==> ks[j] in keys
    case CleanFirst(ks, n) => n <= |ks| && Ascending(ks) && forall j :: n <= j < |ks| ==> ks[j] in keys
    case ListAlloc(start) => start <= keys
    case ListScan(start, begun, out) => start <= begun <= keys && DistinctKeys(out) && KeysOf(out) <= keys
    case ListDone(start, out) => DistinctKeys(out) && start <= KeysOf(out) <= keys
    case _ => true
  }

  ghost predicate Inv<V>(s: State<V>) {
    Accounted(s) && Locked(s) && forall t :: t in s.threads ==> Local(s.items.Keys, s.len, s.threads[t])
  }

  lemma OnePoint(a: set<Tid>, t: Tid, b: bool)
    ensures |if b then a + {t} else a - {t}| == |a| - (if t in a then 1 else 0) + (if b then 1 else 0)
  {
    if t in a { assert a + {t} == a; } else { assert a - {t} == a; }
  }

  lemma IncrementUpdate<V>(threads: map<Tid, Pc<V>>, t: Tid, pc: Pc<V>)
    ensures |Incrementing(threads[t := pc])| ==
            |Incrementing(threads)| - One(PendsIncrement(PcOf(threads, t))) + One(PendsIncrement(pc))
  {
    var inc := Incrementing(threads);
    OnePoint(inc, t, PendsIncrement(pc));
    assert Incrementing(threads[t := pc]) == if PendsIncrement(pc) then inc + {t} else inc - {t};
  }

  lemma DecrementUpdate<V>(threads: map<Tid, Pc<V>>, t: Tid, pc: Pc<V>)
    ensures |Decrementing(threads[t := pc])| ==
            |Decrementing(threads)| - One(PendsDecrement(PcOf(threads, t))) + One(PendsDecrement(pc))
  {
    var dec := Decrementing(threads);
    OnePoint(dec, t, PendsDecrement(pc));
    assert Decrementing(threads[t := pc]) == if PendsDecrement(pc) then dec + {t} else dec - {t};
  }

  function One(b: bool): (n: int) {
    if b then 1 else 0
  }

  /** What the invariant says about the stepping thread alone. */
  ghost predicate Mine<V>(s: State<V>, t: Tid, pc: Pc<V>) {
    && (HoldsWrite(pc) <==> s.writer == Some(t))
    && (HoldsRead(pc) <==> t in s.readers)
    && (s.writer.Some? ==> s.readers == {})
    && Local(s.items.Keys, s.len, pc)
  }

  /** A step of `t` from `was` to `pc`, seen from the invariant. */
  ghost predicate Effect<V>(s: State<V>, t: Tid, was: Pc<V>, pc: Pc<V>, s': State<V>) {
    && s'.threads == s.threads[t := pc]
    && Local(s'.items.Keys, s'.len, pc)
    // keys are only removed, and the counter only lowered, under the write lock
    && ((s.items.Keys <= s'.items.Keys && s.len <= s'.len) || s.writer == Some(t))
    && |s'.items| - s'.len - s'.overwrites ==
       |s.items| - s.len - s.overwrites + One(PendsIncrement(pc)) - One(PendsIncrement(was))
       - One(PendsDecrement(pc)) + One(PendsDecrement(was))
    && s'.writer == (if HoldsWrite(pc) then Some(t) else if s.writer == Some(t) then None else s.writer)
    && (t in s'.readers <==> HoldsRead(pc))
    && (forall u :: u != t ==> (u in s'.readers <==> u in s.readers))
    && (HoldsWrite(pc) ==> s.writer == Some(t) || (s.writer.None? && s.readers == {}))
    && (HoldsRead(pc) ==> s.writer.None?)
  }

  lemma EffectCounts<V>(s: State<V>, t: Tid, pc: Pc<V>, s': State<V>)
    requires Accounted(s) && Effect(s, t, PcOf(s.threads, t), pc, s')
    ensures Accounted(s')
  {
    IncrementUpdate(s.threads, t, pc);
    DecrementUpdate(s.threads, t, pc);
  }

  lemma EffectLocks<V>(s: State<V>, t: Tid, pc: Pc<V>, s': State<V>)
    requires Locked(s) && Effect(s, t, PcOf(s.threads, t), pc, s')
    ensures Locked(s')
  {
  }

  lemma LocalMonotone<V>(keys: set<Key>, len: int, pc: Pc<V>, keys': set<Key>, len': int)
    requires Local(keys, len, pc)
    requires (keys <= keys' && len <= len') || (!HoldsWrite(pc) && !HoldsRead(pc))
    ensures Local(keys', len', pc)
  {
  }

  lemma EffectLocals<V>(s: State<V>, t: Tid, pc: Pc<V>, s': State<V>)
    requires Inv(s) && Effect(s, t, PcOf(s.threads, t), pc, s')
    ensures forall u :: u in s'.threads ==> Local(s'.items.Keys, s'.len, s'.threads[u])
  {
    forall u | u in s'.threads ensures Local(s'.items.Keys, s'.len, s'.threads[u]) {
      if u != t { LocalMonotone(s.items.Keys, s.len, s.threads[u], s'.items.Keys, s'.len); }
    }
  }

  lemma EffectKeepsInv<V>(s: State<V>, t: Tid, pc: Pc<V>, s': State<V>)
    requires Inv(s) && Effect(s, t, PcOf(s.threads, t), pc, s')
    ensures Inv(s')
  {
    EffectCounts(s, t, pc, s');
    EffectLocks(s, t, pc, s');
    EffectLocals(s, t, pc, s');
  }

  lemma InsertSize<V>(m: map<Key, V>, k: Key, v: V)
    ensures |m[k := v]| == |m| + if k in m then 0 else 1
    ensures m.Keys <= m[k := v].Keys
  {
    assert m[k := v].Keys == m.Keys + {k};
    assert |m.Keys| == |m| && |m[k := v].Keys| == |m[k := v]|;
  }

  lemma RemoveSize<V>(m: map<Key, V>, k: Key)
    requires k in m
    ensures |m - {k}| == |m| - 1 && (m - {k}).Keys == m.Keys - {k}
  {
    assert (m - {k}).Keys == m.Keys - {k};
    assert |m.Keys| == |m| && |(m - {k}).Keys| == |m - {k}|;
  }

  lemma ProbeEffect<V>(s: State<V>, t: Tid, was: Pc<V>, s': State<V>)
    requires Mine(s, t, was) && was.StoreProbe? && StoreStep(s, t, was) == Some(s')
    ensures Effect(s, t, was, s'.threads[t], s')
  {
    InsertSize(s.items, was.key, was.value);
  }

  lemma ReplaceEffect<V>(s: State<V>, t: Tid, was: Pc<V>, s': State<V>)
    requires Mine(s, t, was) && was.StoreReplace? && StoreStep(s, t, was) == Some(s')
    ensures Effect(s, t, was, s'.threads[t], s')
  {
    InsertSize(s.items, was.key, was.value);
    assert s'.overwrites == s.overwrites + |s'.items| - |s.items|;
  }

  lemma StoreCountEffect<V>(s: State<V>, t: Tid, was: Pc<V>, s': State<V>)
    requires Mine(s, t, was) && !was.StoreProbe? && !was.StoreReplace? && StoreStep(s, t, was) == Some(s')
    ensures Effect(s, t, was, s'.threads[t], s')
  {
  }

  lemma DeleteRemoveEffect<V>(s: State<V>, t: Tid, was: Pc<V>, a: Act<V>, s': State<V>)
    requires Mine(s, t, was) && was.DeleteRemove? && DeleteStep(s, t, was, a) == Some(s')
    ensures Effect(s, t, was, s'.threads[t], s')
  {
    if was.key in s.items { RemoveSize(s.items, was.key); }
  }

  lemma DeleteEffect<V>(s: State<V>, t: Tid, was: Pc<V>, a: Act<V>, s': State<V>)
    requires Mine(s, t, was) && !was.DeleteRemove? && DeleteStep(s, t, was, a) == Some(s')
    ensures Effect(s, t, was, s'.threads[t], s')
  {
  }

  lemma SortedLocal<V>(s: State<V>, ks: seq<Key>, n: nat)
    requires Distinct(ks) && Elements(ks) <= s.items.Keys && 0 < n <= |ks|
    ensures Local<V>(s.items.Keys, s.len, CleanRemove(MemoryCache.Sort(ks), n, 0))
  {
    DistinctSize(ks);
    MemoryCache.SortAscending(ks);
    var sorted := MemoryCache.Sort(ks);
    forall j | 0 <= j < |sorted| ensures sorted[j] in s.items.Keys {
      assert sorted[j] in Elements(sorted);
    }
  }

  lemma CleanScanEffect<V>(s: State<V>, t: Tid, was: Pc<V>, a: Act<V>, s': State<V>)
    requires Mine(s, t, was) && was.CleanScan? && CleanStep(s, t, was, a) == Some(s')
    ensures Effect(s, t, was, s'.threads[t], s')
  {
    var ks := was.keys;
    if a.Visit? {
      assert Elements(ks + [a.key]) == Elements(ks) + {a.key};
    } else {
      var n := if was.toRemove > |ks| then |ks| else was.toRemove;
      if n > 0 { SortedLocal(s, ks, n); }
    }
  }

  lemma CleanRemoveEffect<V>(s: State<V>, t: Tid, was: Pc<V>, a: Act<V>, s': State<V>)
    requires Mine(s, t, was) && was.CleanRemove? && CleanStep(s, t, was, a) == Some(s')
    ensures Effect(s, t, was, s'.threads[t], s')
  {
    RemoveSize(s.items, was.keys[was.i]);
  }

  lemma CleanEnterEffect<V>(s: State<V>, t: Tid, was: Pc<V>, a: Act<V>, s': State<V>)
    requires Mine(s, t, was) && (was.CleanLock? || was.CleanLen? || was.CleanAlloc?) && CleanStep(s, t, was, a) == Some(s')
    ensures Effect(s, t, was, s'.threads[t], s')
  {
  }

  lemma CleanLeaveEffect<V>(s: State<V>, t: Tid, was: Pc<V>, a: Act<V>, s': State<V>)
    requires Mine(s, t, was) && (was.CleanCount? || was.CleanFirst? || was.Unlock?) && CleanStep(s, t, was, a) == Some(s')
    ensures Effect(s, t, was, s'.threads[t], s')
  {
  }

  lemma KeysOfAppend<V>(out: seq<(Key, V)>, k: Key, v: V)
    ensures KeysOf(out + [(k, v)]) == KeysOf(out) + {k}
  {
    var all := out + [(k, v)];
    forall j | j in KeysOf(out) ensures j in KeysOf(all) {
      var i :| 0 <= i < |out| && out[i].0 == j;
      assert all[i].0 == j;
    }
    assert all[|out|].0 == k;
  }

  lemma ListScanEffect<V>(s: State<V>, t: Tid, was: Pc<V>, a: Act<V>, s': State<V>)
    requires Mine(s, t, was) && was.ListScan? && ListStep(s, t, was, a) == Some(s')
    ensures Effect(s, t, was, s'.threads[t], s')
  {
    if a.Visit? {
      KeysOfAppend(was.out, a.key, s.items[a.key]);
      assert forall i :: 0 <= i < |was.out| ==> was.out[i].0 in KeysOf(was.out);
    }
  }

  lemma ListLockEffect<V>(s: State<V>, t: Tid, was: Pc<V>, a: Act<V>, s': State<V>)
    requires Mine(s, t, was) && was.ListLock? && ListStep(s, t, was, a) == Some(s')
    ensures Effect(s, t, was, s'.threads[t], s')
  {
  }

  lemma ListAllocEffect<V>(s: State<V>, t: Tid, was: Pc<V>, a: Act<V>, s': State<V>)
    requires Mine(s, t, was) && was.ListAlloc? && ListStep(s, t, was, a) == Some(s')
    ensures Effect(s, t, was, s'.threads[t], s')
  {
  }

  lemma ListDoneEffect<V>(s: State<V>, t: Tid, was: Pc<V>, a: Act<V>, s': State<V>)
    requires Mine(s, t, was) && was.ListDone? && ListStep(s, t, was, a) == Some(s')
    ensures Effect(s, t, was, s'.threads[t], s')
  {
  }

  lemma ListEffect<V>(s: State<V>, t: Tid, was: Pc<V>, a: Act<V>, s': State<V>)
    requires Mine(s, t, was) && ListStep(s, t, was, a) == Some(s')
    ensures Effect(s, t, was, s'.threads[t], s')
  {
    if was.ListScan? {
      ListScanEffect(s, t, was, a, s');
    } else if was.ListLock? {
      ListLockEffect(s, t, was, a, s');
    } else if was.ListAlloc? {
      ListAllocEffect(s, t, was, a, s');
    } else {
      ListDoneEffect(s, t, was, a, s');
    }
  }

  lemma NextEffect<V>(s: State<V>, t: Tid, a: Act<V>, s': State<V>)
    requires Mine(s, t, PcOf(s.threads, t)) && Next(s, t, a) == Some(s')
    ensures t in s'.threads && Effect(s, t, PcOf(s.threads, t), s'.threads[t], s')
  {
    var pc := PcOf(s.threads, t);
    if a.Call? {
    } else if pc.StoreProbe? || pc.StoreReplace? || pc.StoreCount? || pc.StoreReadFirst? || pc.StoreFirst? {
      if pc.StoreProbe? {
        ProbeEffect(s, t, pc, s');
      } else if pc.StoreReplace? {
        ReplaceEffect(s, t, pc, s');
      } else {
        StoreCountEffect(s, t, pc, s');
      }
    } else if pc.DeleteLock? || pc.DeleteRemove? || pc.DeleteCount? || pc.DeleteCheck? || pc.DeleteScan? || pc.DeleteFirst? {
      if pc.DeleteRemove? { DeleteRemoveEffect(s, t, pc, a, s'); } else { DeleteEffect(s, t, pc, a, s'); }
    } else if pc.ListLock? || HoldsRead(pc) {
      ListEffect(s, t, pc, a, s');
    } else if pc.CleanScan? {
      CleanScanEffect(s, t, pc, a, s');
    } else if pc.CleanRemove? {
      CleanRemoveEffect(s, t, pc, a, s');
    } else if pc.CleanLock? || pc.CleanLen? || pc.CleanAlloc? {
      CleanEnterEffect(s, t, pc, a, s');
    } else {
      CleanLeaveEffect(s, t, pc, a, s');
    }
  }

  lemma InvMine<V>(s: State<V>, t: Tid)
    requires Inv(s)
    ensures Mine(s, t, PcOf(s.threads, t))
  {
  }

  lemma NextKeepsInv<V>(s: State<V>, t: Tid, a: Act<V>)
    requires Inv(s) && Next(s, t, a).Some?
    ensures Inv(Next(s, t, a).value)
  {
    var s' := Next(s, t, a).value;
    InvMine(s, t);
    NextEffect(s, t, a, s');
    EffectKeepsInv(s, t, s'.threads[t], s');
  }

  /** Whoever else is at work: a store's own step leaves its value under its key and touches no other key. */
  lemma StoredValueIsHeld<V>(s: State<V>, t: Tid, a: Act<V>, s': State<V>)
    requires Next(s, t, a) == Some(s') && !a.Call? && t in s.threads
    ensures s.threads[t].StoreReplace? ==> s'.items == s.items[s.threads[t].key := s.threads[t].value]
    ensures s.threads[t].StoreProbe? && s.threads[t].key !in s.items ==>
              s'.items == s.items[s.threads[t].key := s.threads[t].value]
    ensures s.threads[t].StoreProbe? && s.threads[t].key in s.items ==>
              s'.items == s.items && s'.threads[t] == StoreReplace(s.threads[t].key, s.threads[t].value)
  {
  }

  /** Every reachable state, for any number of threads and any schedule. */
  lemma {:induction false} ReachableInv<V>(s: State<V>, steps: seq<(Tid, Act<V>)>)
    requires Inv(s) && Exec(s, steps).Some?
    ensures Inv(Exec(s, steps).value)
    decreases |steps|
  {
    if steps != [] {
      NextKeepsInv(s, steps[0].0, steps[0].1);
      ReachableInv(Next(s, steps[0].0, steps[0].1).value, steps[1..]);
    }
  }

  lemma InitInv<V>()
    ensures Inv(Init<V>())
  {
    var s := Init<V>();
    assert Incrementing(s.threads) == {} && Decrementing(s.threads) == {};
  }

  // ---------------------------------------------------------------- nobody waits but for the lock

  /** The locks wait for each other, and only for each other. */
  lemma LockWaits<V>(s: State<V>, t: Tid)
    requires t in s.threads
    ensures s.threads[t].DeleteLock? || s.threads[t].CleanLock? ==>
              (Next(s, t, Go).Some? <==> s.writer.None? && s.readers == {})
    ensures s.threads[t].ListLock? ==> (Next(s, t, Go).Some? <==> s.writer.None?)
  {
  }

  /** A Range may visit any entry it has not visited yet, and may end once it has seen all it began with. */
  lemma RangeIsFree<V>(s: State<V>, t: Tid, k: Key)
    requires t in s.threads && k in s.items
    ensures s.threads[t].DeleteScan? && k !in s.threads[t].seen ==> Next(s, t, Visit(k)).Some?
    ensures s.threads[t].CleanScan? && k !in s.threads[t].keys ==> Next(s, t, Visit(k)).Some?
    ensures s.threads[t].ListScan? && k !in KeysOf(s.threads[t].out) ==> Next(s, t, Visit(k)).Some?
  {
  }

  predicate Scanning<V>(pc: Pc<V>) {
    pc.DeleteScan? || pc.CleanScan? || pc.ListScan?
  }

  predicate Locking<V>(pc: Pc<V>) {
    pc.DeleteLock? || pc.CleanLock? || pc.ListLock?
  }

  /** Every other place can always go on. */
  lemma NeverStuck<V>(s: State<V>, t: Tid)
    requires Inv(s) && t in s.threads
    requires var pc := s.threads[t]; !pc.Idle? && !pc.Panicked? && !Scanning(pc) && !Locking(pc)
    ensures Next(s, t, Go).Some?
  {
    assert Local(s.items.Keys, s.len, s.threads[t]);
  }

  /** And an idle thread may call anything. */
  lemma CallsAreFree<V>(s: State<V>, t: Tid, pc: Pc<V>)
    requires PcOf(s.threads, t).Idle? && (pc.StoreProbe? || pc.DeleteLock? || pc.CleanLock? || pc.ListLock?)
    ensures Next(s, t, Call(pc)) == Some(At(s, t, pc))
  {
  }

  // ---------------------------------------------------------------- what reachable states satisfy

  ghost predicate Reachable<V>(s: State<V>, steps: seq<(Tid, Act<V>)>) {
    Exec(Init<V>(), steps) == Some(s)
  }

  /** The accounting equation, and what it says when no operation is in flight. */
  lemma Accounting<V>(s: State<V>, steps: seq<(Tid, Act<V>)>)
    requires Reachable(s, steps)
    ensures |s.items| == s.len + |Incrementing(s.threads)| - |Decrementing(s.threads)| + s.overwrites
    ensures (forall t :: t in s.threads ==> s.threads[t].Idle?) ==> (s.len == |s.items| <==> s.overwrites == 0)
  {
    InitInv<V>();
    ReachableInv(Init<V>(), steps);
    if forall t :: t in s.threads ==> s.threads[t].Idle? {
      assert Incrementing(s.threads) == {} && Decrementing(s.threads) == {};
    }
  }

  /** List's allocation panics exactly when uncounted entries outweigh the ones present. */
  lemma ListPanicsIff<V>(s: State<V>, steps: seq<(Tid, Act<V>)>, t: Tid)
    requires Reachable(s, steps) && t in s.threads && s.threads[t].ListAlloc?
    ensures Next(s, t, Go).Some?
    ensures Next(s, t, Go).value.threads[t].Panicked? <==>
            |s.items| + |Decrementing(s.threads)| < |Incrementing(s.threads)| + s.overwrites
  {
    Accounting(s, steps);
  }

  lemma ReachableLocal<V>(s: State<V>, steps: seq<(Tid, Act<V>)>, t: Tid)
    requires Reachable(s, steps) && t in s.threads
    ensures Local(s.items.Keys, s.len, s.threads[t])
  {
    InitInv<V>();
    ReachableInv(Init<V>(), steps);
  }

  /** Cleanup's own allocation never panics. */
  lemma CleanupAllocates<V>(s: State<V>, steps: seq<(Tid, Act<V>)>, t: Tid)
    requires Reachable(s, steps) && t in s.threads && s.threads[t].CleanAlloc?
    ensures s.len >= 5
  {
    ReachableLocal(s, steps, t);
  }

  /** Every key Cleanup removes is still present, so its decrement is earned. */
  lemma CleanupRemoves<V>(s: State<V>, steps: seq<(Tid, Act<V>)>, t: Tid)
    requires Reachable(s, steps) && t in s.threads && s.threads[t].CleanRemove?
    ensures var CleanRemove(ks, n, i) := s.threads[t];
            && i < |ks| && ks[i] in s.items
            && Next(s, t, Go).Some? && |Next(s, t, Go).value.items| == |s.items| - 1
  {
    ReachableLocal(s, steps, t);
    var CleanRemove(ks, n, i) := s.threads[t];
    RemoveSize(s.items, ks[i]);
  }

  /** A finished List has exactly one entry for every key present when it took the lock. */
  lemma ListSnapshot<V>(s: State<V>, steps: seq<(Tid, Act<V>)>, t: Tid, k: Key)
    requires Reachable(s, steps) && t in s.threads && s.threads[t].ListDone? && k in s.threads[t].start
    ensures var out := s.threads[t].out;
            && (exists i :: 0 <= i < |out| && out[i].0 == k)
            && (forall i, j :: 0 <= i < |out| && 0 <= j < |out| && out[i].0 == k && out[j].0 == k ==> i == j)
  {
    InitInv<V>();
    ReachableInv(Init<V>(), steps);
    var out := s.threads[t].out;
    assert Local(s.items.Keys, s.len, s.threads[t]);
    assert k in KeysOf(out);
  }

  /** While any List runs, no Delete or Cleanup is between its first and last step. */
  lemma NoPartialCleanup<V>(s: State<V>, steps: seq<(Tid, Act<V>)>, t: Tid, u: Tid)
    requires Reachable(s, steps) && t in s.threads && u in s.threads && HoldsRead(s.threads[t])
    ensures !HoldsWrite(s.threads[u])
  {
    InitInv<V>();
    ReachableInv(Init<V>(), steps);
  }

  ghost predicate Trace<V>(states: seq<State<V>>, steps: seq<(Tid, Act<V>)>) {
    && |states| == |steps| + 1
    && forall i :: 0 <= i < |steps| ==> Next(states[i], steps[i].0, steps[i].1) == Some(states[i + 1])
  }

  /** At moment `i`, inside the List call still running at `j`, key `k` had value `v`. */
  ghost predicate HeldDuring<V>(states: seq<State<V>>, t: Tid, k: Key, v: V, i: nat, j: nat)
    requires i <= j < |states|
  {
    && k in states[i].items && states[i].items[k] == v
    && forall m :: i <= m <= j ==> HoldsRead(PcOf(states[m].threads, t))
  }

  lemma HeldLonger<V>(states: seq<State<V>>, t: Tid, k: Key, v: V, i: nat, j: nat)
    requires i <= j && j + 1 < |states| && HeldDuring(states, t, k, v, i, j)
    requires HoldsRead(PcOf(states[j + 1].threads, t))
    ensures HeldDuring(states, t, k, v, i, j + 1)
  {
  }

  function Listed<V>(pc: Pc<V>): (out: seq<(Key, V)>) {
    if pc.ListScan? || pc.ListDone? then pc.out else []
  }

  lemma ListsByListStep<V>(s: State<V>, t: Tid, a: Act<V>, s': State<V>)
    requires Next(s, t, a) == Some(s') && Listed(PcOf(s'.threads, t)) != []
    ensures PcOf(s.threads, t).ListScan? && ListStep(s, t, PcOf(s.threads, t), a) == Some(s')
  {
  }

  lemma ListedStep<V>(s: State<V>, a: (Tid, Act<V>), s': State<V>, t: Tid, x: nat)
    requires Next(s, a.0, a.1) == Some(s') && x < |Listed(PcOf(s'.threads, t))|
    ensures HoldsRead(PcOf(s.threads, t)) && HoldsRead(PcOf(s'.threads, t))
    ensures var (k, v) := Listed(PcOf(s'.threads, t))[x];
            || (x < |Listed(PcOf(s.threads, t))| && Listed(PcOf(s.threads, t))[x] == (k, v))
            || (k in s.items && s.items[k] == v)
  {
    if a.0 == t { ListsByListStep(s, t, a.1, s'); }
  }

  /** Every value a List returns was the key's value at some moment of that List. */
  lemma {:induction false} ListedValueWasHeld<V>(
    states: seq<State<V>>, steps: seq<(Tid, Act<V>)>, t: Tid, j: nat, x: nat) returns (i: nat)
    requires Trace(states, steps) && states[0] == Init<V>() && j < |states|
    requires x < |Listed(PcOf(states[j].threads, t))|
    ensures var (k, v) := Listed(PcOf(states[j].threads, t))[x];
            i <= j && HeldDuring(states, t, k, v, i, j)
  {
    assert j > 0;
    var (k, v) := Listed(PcOf(states[j].threads, t))[x];
    ListedStep(states[j - 1], steps[j - 1], states[j], t, x);
    var before := Listed(PcOf(states[j - 1].threads, t));
    if x < |before| && before[x] == (k, v) {
      i := ListedValueWasHeld(states, steps, t, j - 1, x);
      HeldLonger(states, t, k, v, i, j - 1);
    } else {
      i := j - 1;
    }
  }
}
