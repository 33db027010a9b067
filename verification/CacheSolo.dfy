/**
 The interleaved cache is the sequential one when calls do not overlap (pkg/cache/cache.go):
 every run of one call's steps, undisturbed and with any visit orders, does exactly what
 the one-call-at-a-time model says, from any state.
 */
module CacheSolo {
  import opened Prelude
  import opened KeyOrder
  import opened CacheInterleaving
  import Seq = MemoryCache

  function Fields<V>(s: State<V>): (c: Seq.State<V>) {
    Seq.State(s.items, s.len, s.firstKey)
  }

  function Begin<V>(call: Seq.Call<V>): (pc: Pc<V>) {
    match call
    case StoreCall(key, value) => StoreProbe(key, value)
    case DeleteCall(key) => DeleteLock(key)
    case CleanupCall => CleanLock
  }

  /** A visit order of the keys seen so far that explains the scan's candidate. */
  ghost predicate Scanned(seen: set<Key>, next: Key, order: seq<Key>) {
    Elements(order) == seen && |order| == |seen| && next == Seq.Scan(order)
  }

  /** A cleanup of `n` keys, `i` of them gone. */
  ghost predicate Cleaning<V>(c: Seq.State<V>, ks: seq<Key>, n: nat, i: nat, items: map<Key, V>) {
    && Ascending(ks) && Elements(ks) == c.items.Keys && |ks| == |c.items.Keys|
    && i <= n <= |ks| && 0 < n == Seq.EvictCount(c.len, |c.items|)
    && Seq.Beyond(c.items, ks, i, items)
  }

  /** How far the call has come, when it began with fields `c`. */
  ghost predicate Sofar<V>(c: Seq.State<V>, call: Seq.Call<V>, d: Seq.State<V>, pc: Pc<V>) {
    match pc
    case StoreProbe(k, v) => call == Seq.StoreCall(k, v) && d == c
    case StoreReplace(k, v) => call == Seq.StoreCall(k, v) && d == c && k in c.items
    case StoreCount(k) =>
      call.StoreCall? && call.key == k && k !in c.items && d == c.(items := c.items[k := call.value])
    case StoreReadFirst(k, newLen) =>
      call.StoreCall? && call.key == k && k !in c.items && newLen == c.len + 1
      && d == c.(items := c.items[k := call.value], len := c.len + 1)
    case StoreFirst(k, newLen, first) =>
      call.StoreCall? && call.key == k && k !in c.items && newLen == c.len + 1 && first == c.firstKey
      && d == c.(items := c.items[k := call.value], len := c.len + 1)
    case DeleteLock(k) => call == Seq.DeleteCall(k) && d == c
    case DeleteRemove(k) => call == Seq.DeleteCall(k) && d == c
    case DeleteCount(k) => call == Seq.DeleteCall(k) && k in c.items && d == c.(items := c.items - {k})
    case DeleteCheck(k) => call == Seq.DeleteCall(k) && k in c.items && d == c.(items := c.items - {k}, len := c.len - 1)
    case DeleteScan(begun, seen, next) =>
      && call.DeleteCall? && call.key in c.items && call.key == c.firstKey
      && d == c.(items := c.items - {call.key}, len := c.len - 1)
      && begun == d.items.Keys && seen <= begun && exists order :: Scanned(seen, next, order)
    case DeleteFirst(next) =>
      && call.DeleteCall? && call.key in c.items && call.key == c.firstKey
      && d == c.(items := c.items - {call.key}, len := c.len - 1)
      && exists order :: Scanned(d.items.Keys, next, order)
    case CleanLock => call.CleanupCall? && d == c
    case CleanLen => call.CleanupCall? && d == c
    case CleanAlloc(toRemove) => call.CleanupCall? && d == c && toRemove == Seq.TruncDiv5(c.len) && toRemove > 0
    case CleanScan(toRemove, begun, ks) =>
      && call.CleanupCall? && d == c && toRemove == Seq.TruncDiv5(c.len) && toRemove > 0
      && begun == c.items.Keys && Distinct(ks) && Elements(ks) <= begun
    case CleanRemove(ks, n, i) =>
      call.CleanupCall? && i < n && Cleaning(c, ks, n, i, d.items) && d.len == c.len - i && d.firstKey == c.firstKey
    case CleanCount(ks, n, i) =>
      call.CleanupCall? && i < n && Cleaning(c, ks, n, i + 1, d.items) && d.len == c.len - i && d.firstKey == c.firstKey
    case CleanFirst(ks, n) =>
      call.CleanupCall? && Cleaning(c, ks, n, n, d.items) && d.len == c.len - n && d.firstKey == c.firstKey
    case Unlock => Seq.Step(c, call, d)
    case Idle => Seq.Step(c, call, d)
    case _ => false
  }

  ghost predicate SofarIn<V>(c: Seq.State<V>, call: Seq.Call<V>, s: State<V>, pc: Pc<V>) {
    Sofar(c, call, Fields(s), pc)
  }

  // ---------------------------------------------------------------- Store and Delete

  lemma StoreGoes<V>(c: Seq.State<V>, call: Seq.Call<V>, s: State<V>, t: Tid, pc: Pc<V>, s': State<V>)
    requires SofarIn(c, call, s, pc) && StoreStep(s, t, pc) == Some(s')
    ensures SofarIn(c, call, s', s'.threads[t])
  {
  }

  lemma DeleteRemoves<V>(c: Seq.State<V>, call: Seq.Call<V>, s: State<V>, t: Tid, pc: Pc<V>, a: Act<V>, s': State<V>)
    requires (pc.DeleteLock? || pc.DeleteRemove? || pc.DeleteCount?) && SofarIn(c, call, s, pc)
    requires DeleteStep(s, t, pc, a) == Some(s')
    ensures SofarIn(c, call, s', s'.threads[t])
  {
    if pc.DeleteRemove? && pc.key !in s.items {
      var order := SortedKeys(c.items.Keys - {pc.key});
      assert Seq.Enumerates(order, c.items.Keys - {pc.key}) && c == Seq.Deleted(c, pc.key, order);
    }
  }

  lemma DeleteChecks<V>(c: Seq.State<V>, call: Seq.Call<V>, s: State<V>, t: Tid, pc: Pc<V>, a: Act<V>, s': State<V>)
    requires pc.DeleteCheck? && SofarIn(c, call, s, pc) && DeleteStep(s, t, pc, a) == Some(s')
    ensures SofarIn(c, call, s', s'.threads[t])
  {
    if pc.key == s.firstKey {
      assert Scanned({}, 0, []);
    } else {
      var order := SortedKeys(c.items.Keys - {pc.key});
      assert Seq.Enumerates(order, c.items.Keys - {pc.key}) && Fields(s') == Seq.Deleted(c, pc.key, order);
    }
  }

  lemma ScannedMore(seen: set<Key>, next: Key, order: seq<Key>, k: Key)
    requires Scanned(seen, next, order) && k !in seen
    ensures Scanned(seen + {k}, if next == 0 || k < next then k else next, order + [k])
  {
    Seq.AppendKey(order, k);
    Seq.ScanAppend(order, k);
  }

  lemma DeleteVisits<V>(c: Seq.State<V>, call: Seq.Call<V>, s: State<V>, t: Tid, pc: Pc<V>, a: Act<V>, s': State<V>)
    requires pc.DeleteScan? && a.Visit? && SofarIn(c, call, s, pc) && DeleteStep(s, t, pc, a) == Some(s')
    ensures SofarIn(c, call, s', s'.threads[t])
  {
    var order :| Scanned(pc.seen, pc.next, order);
    ScannedMore(pc.seen, pc.next, order, a.key);
    assert Fields(s') == Fields(s);
  }

  lemma DeleteScanned<V>(c: Seq.State<V>, call: Seq.Call<V>, s: State<V>, t: Tid, pc: Pc<V>, a: Act<V>, s': State<V>)
    requires pc.DeleteScan? && !a.Visit? && SofarIn(c, call, s, pc) && DeleteStep(s, t, pc, a) == Some(s')
    ensures SofarIn(c, call, s', s'.threads[t])
  {
    assert Fields(s') == Fields(s) && pc.seen == s.items.Keys;
  }

  lemma DeleteEnds<V>(c: Seq.State<V>, call: Seq.Call<V>, s: State<V>, t: Tid, pc: Pc<V>, a: Act<V>, s': State<V>)
    requires pc.DeleteFirst? && SofarIn(c, call, s, pc) && DeleteStep(s, t, pc, a) == Some(s')
    ensures SofarIn(c, call, s', s'.threads[t])
  {
    var order :| Scanned(s.items.Keys, pc.next, order);
    assert s.items.Keys == c.items.Keys - {call.key};
    assert Seq.Enumerates(order, c.items.Keys - {call.key}) && Fields(s') == Seq.Deleted(c, call.key, order);
  }

  // ---------------------------------------------------------------- Cleanup

  lemma NothingToClean<V>(c: Seq.State<V>)
    requires Seq.EvictCount(c.len, |c.items|) == 0
    ensures Seq.Cleaned(c) == c
  {
  }

  lemma CleanBegins<V>(c: Seq.State<V>, call: Seq.Call<V>, s: State<V>, t: Tid, pc: Pc<V>, a: Act<V>, s': State<V>)
    requires (pc.CleanLock? || pc.CleanLen? || pc.CleanAlloc?) && SofarIn(c, call, s, pc) && CleanStep(s, t, pc, a) == Some(s')
    ensures SofarIn(c, call, s', s'.threads[t])
  {
    if pc.CleanLen? && Seq.TruncDiv5(s.len) <= 0 { NothingToClean(c); }
  }

  lemma SortedCleaning<V>(c: Seq.State<V>, ks: seq<Key>, n: nat)
    requires Distinct(ks) && Elements(ks) == c.items.Keys && 0 < n == Seq.EvictCount(c.len, |c.items|)
    ensures Cleaning(c, Seq.Sort(ks), n, 0, c.items)
  {
    DistinctSize(ks);
    Seq.SortAscending(ks);
    assert |c.items.Keys| == |c.items|;
  }

  lemma CleanVisits<V>(c: Seq.State<V>, call: Seq.Call<V>, s: State<V>, t: Tid, pc: Pc<V>, a: Act<V>, s': State<V>)
    requires pc.CleanScan? && a.Visit? && SofarIn(c, call, s, pc) && CleanStep(s, t, pc, a) == Some(s')
    ensures SofarIn(c, call, s', s'.threads[t])
  {
    assert Elements(pc.keys + [a.key]) == Elements(pc.keys) + {a.key};
  }

  lemma CleanScanned<V>(c: Seq.State<V>, call: Seq.Call<V>, s: State<V>, t: Tid, pc: Pc<V>, a: Act<V>, s': State<V>)
    requires pc.CleanScan? && !a.Visit? && SofarIn(c, call, s, pc) && CleanStep(s, t, pc, a) == Some(s')
    ensures SofarIn(c, call, s', s'.threads[t])
  {
    var ks := pc.keys;
    assert Elements(ks) == c.items.Keys;
    DistinctSize(ks);
    assert |c.items.Keys| == |c.items|;
    var n := Seq.EvictCount(c.len, |c.items|);
    assert n == if pc.toRemove > |ks| then |ks| else pc.toRemove;
    if n == 0 { NothingToClean(c); } else { SortedCleaning(c, ks, n); }
  }

  lemma CleanRemoves<V>(c: Seq.State<V>, call: Seq.Call<V>, s: State<V>, t: Tid, pc: Pc<V>, a: Act<V>, s': State<V>)
    requires pc.CleanRemove? && SofarIn(c, call, s, pc) && CleanStep(s, t, pc, a) == Some(s')
    ensures SofarIn(c, call, s', s'.threads[t])
  {
    CleaningNext(c, pc.keys, pc.n, pc.i, s.items);
  }

  lemma CleaningNext<V>(c: Seq.State<V>, ks: seq<Key>, n: nat, i: nat, items: map<Key, V>)
    requires Cleaning(c, ks, n, i, items) && i < n
    ensures Cleaning(c, ks, n, i + 1, items - {ks[i]})
  {
    Seq.BeyondNext(c.items, ks, i, items);
  }

  lemma CleanCounts<V>(c: Seq.State<V>, call: Seq.Call<V>, s: State<V>, t: Tid, pc: Pc<V>, a: Act<V>, s': State<V>)
    requires pc.CleanCount? && SofarIn(c, call, s, pc) && CleanStep(s, t, pc, a) == Some(s')
    ensures SofarIn(c, call, s', s'.threads[t])
  {
    assert Cleaning(c, pc.keys, pc.n, pc.i + 1, s'.items);
  }

  /** All `n` keys gone: the largest ones are left, and the next sorted key is their least. */
  lemma LargestAtLast<V>(c: Seq.State<V>, ks: seq<Key>, n: nat, items: map<Key, V>)
    requires Cleaning(c, ks, n, n, items)
    ensures |c.items.Keys| == |c.items| && items == Restrict(c.items, Largest(c.items.Keys, |c.items| - n))
    ensures if n < |ks| then items.Keys != {} && Min(items.Keys) == ks[n] else items.Keys == {}
  {
    Seq.BeyondIsLargest(c.items, ks, n, items);
    if n < |ks| {
      Seq.BeyondNext(c.items, ks, n, items);
      MinUnique(items.Keys, ks[n]);
    } else {
      assert |items.Keys| == 0;
    }
  }

  lemma CleanedIs<V>(c: Seq.State<V>, n: nat, items: map<Key, V>, first: Key)
    requires 0 < n == Seq.EvictCount(c.len, |c.items|) && |c.items.Keys| == |c.items|
    requires items == Restrict(c.items, Largest(c.items.Keys, |c.items| - n))
    requires first == if items.Keys == {} then 0 else Min(items.Keys)
    ensures Seq.Cleaned(c) == Seq.State(items, c.len - n, first)
  {
  }

  /** With the index moved that is the sequential cleanup. */
  lemma CleanedAtLast<V>(c: Seq.State<V>, ks: seq<Key>, n: nat, items: map<Key, V>, first: Key)
    requires Cleaning(c, ks, n, n, items) && first == (if n < |ks| then ks[n] else 0)
    ensures Seq.Cleaned(c) == Seq.State(items, c.len - n, first)
  {
    LargestAtLast(c, ks, n, items);
    CleanedIs(c, n, items, first);
  }

  lemma CleanEnds<V>(c: Seq.State<V>, call: Seq.Call<V>, s: State<V>, t: Tid, pc: Pc<V>, a: Act<V>, s': State<V>)
    requires pc.CleanFirst? && SofarIn(c, call, s, pc) && CleanStep(s, t, pc, a) == Some(s')
    ensures SofarIn(c, call, s', s'.threads[t])
  {
    CleanedAtLast(c, pc.keys, pc.n, s.items, s'.firstKey);
    assert Fields(s') == Seq.Cleaned(c);
  }

  lemma Unlocks<V>(c: Seq.State<V>, call: Seq.Call<V>, s: State<V>, t: Tid, pc: Pc<V>, a: Act<V>, s': State<V>)
    requires pc.Unlock? && SofarIn(c, call, s, pc) && CleanStep(s, t, pc, a) == Some(s')
    ensures SofarIn(c, call, s', s'.threads[t])
  {
    assert Fields(s') == Fields(s);
  }

  // ---------------------------------------------------------------- whole calls

  lemma DeleteGoes<V>(c: Seq.State<V>, call: Seq.Call<V>, s: State<V>, t: Tid, pc: Pc<V>, a: Act<V>, s': State<V>)
    requires SofarIn(c, call, s, pc) && DeleteStep(s, t, pc, a) == Some(s')
    ensures SofarIn(c, call, s', s'.threads[t])
  {
    if pc.DeleteScan? {
      if a.Visit? { DeleteVisits(c, call, s, t, pc, a, s'); } else { DeleteScanned(c, call, s, t, pc, a, s'); }
    } else if pc.DeleteCheck? {
      DeleteChecks(c, call, s, t, pc, a, s');
    } else if pc.DeleteFirst? {
      DeleteEnds(c, call, s, t, pc, a, s');
    } else {
      DeleteRemoves(c, call, s, t, pc, a, s');
    }
  }

  lemma CleanGoes<V>(c: Seq.State<V>, call: Seq.Call<V>, s: State<V>, t: Tid, pc: Pc<V>, a: Act<V>, s': State<V>)
    requires SofarIn(c, call, s, pc) && CleanStep(s, t, pc, a) == Some(s')
    ensures SofarIn(c, call, s', s'.threads[t])
  {
    if pc.CleanScan? {
      if a.Visit? { CleanVisits(c, call, s, t, pc, a, s'); } else { CleanScanned(c, call, s, t, pc, a, s'); }
    } else if pc.CleanRemove? {
      CleanRemoves(c, call, s, t, pc, a, s');
    } else if pc.CleanCount? {
      CleanCounts(c, call, s, t, pc, a, s');
    } else if pc.CleanFirst? {
      CleanEnds(c, call, s, t, pc, a, s');
    } else if pc.Unlock? {
      Unlocks(c, call, s, t, pc, a, s');
    } else {
      CleanBegins(c, call, s, t, pc, a, s');
    }
  }

  lemma Goes<V>(c: Seq.State<V>, call: Seq.Call<V>, s: State<V>, t: Tid, a: Act<V>, s': State<V>)
    requires SofarIn(c, call, s, PcOf(s.threads, t)) && !a.Call? && Next(s, t, a) == Some(s')
    ensures SofarIn(c, call, s', PcOf(s'.threads, t))
  {
    var pc := PcOf(s.threads, t);
    if pc.StoreProbe? || pc.StoreReplace? || pc.StoreCount? || pc.StoreReadFirst? || pc.StoreFirst? {
      StoreGoes(c, call, s, t, pc, s');
    } else if pc.DeleteLock? || pc.DeleteRemove? || pc.DeleteCount? || pc.DeleteCheck? || pc.DeleteScan? || pc.DeleteFirst? {
      DeleteGoes(c, call, s, t, pc, a, s');
    } else {
      CleanGoes(c, call, s, t, pc, a, s');
    }
  }

  /** Steps of one thread, none of them a new call. */
  predicate Undisturbed<V>(steps: seq<(Tid, Act<V>)>, t: Tid) {
    forall i :: 0 <= i < |steps| ==> steps[i].0 == t && !steps[i].1.Call?
  }

  lemma {:induction false} GoesOn<V>(c: Seq.State<V>, call: Seq.Call<V>, s: State<V>, t: Tid, steps: seq<(Tid, Act<V>)>)
    requires SofarIn(c, call, s, PcOf(s.threads, t)) && Undisturbed(steps, t) && Exec(s, steps).Some?
    ensures SofarIn(c, call, Exec(s, steps).value, PcOf(Exec(s, steps).value.threads, t))
    decreases |steps|
  {
    if steps != [] {
      var s1 := Next(s, t, steps[0].1).value;
      Goes(c, call, s, t, steps[0].1, s1);
      GoesOn(c, call, s1, t, steps[1..]);
    }
  }

  /** A call that runs undisturbed to its end does exactly what the sequential model says, whatever the state. */
  lemma SoloRefines<V>(s: State<V>, t: Tid, call: Seq.Call<V>, steps: seq<(Tid, Act<V>)>, s': State<V>)
    requires PcOf(s.threads, t).Idle? && Undisturbed(steps, t)
    requires Exec(At(s, t, Begin(call)), steps) == Some(s') && PcOf(s'.threads, t).Idle?
    ensures Seq.Step(Fields(s), call, Fields(s'))
  {
    var s0 := At(s, t, Begin(call));
    GoesOn(Fields(s), call, s0, t, steps);
  }

  // ---------------------------------------------------------------- List

  ghost predicate Listing<V>(s: State<V>, s': State<V>, pc: Pc<V>) {
    && s'.items == s.items
    && match pc
       case ListLock => s'.len == s.len
       case ListAlloc(_) => s'.len == s.len
       case ListScan(_, begun, out) =>
         s.len >= 0 && begun == s.items.Keys && DistinctKeys(out) && KeysOf(out) <= begun
         && forall i :: 0 <= i < |out| ==> out[i].0 in s.items && out[i].1 == s.items[out[i].0]
       case ListDone(_, out) =>
         s.len >= 0 && DistinctKeys(out) && KeysOf(out) == s.items.Keys
         && forall i :: 0 <= i < |out| ==> out[i].0 in s.items && out[i].1 == s.items[out[i].0]
       case Panicked => s.len < 0
       case _ => false
  }

  lemma ListGoes<V>(s: State<V>, s1: State<V>, t: Tid, a: Act<V>, s2: State<V>)
    requires Listing(s, s1, PcOf(s1.threads, t)) && !PcOf(s1.threads, t).ListDone? && !a.Call? && Next(s1, t, a) == Some(s2)
    ensures Listing(s, s2, PcOf(s2.threads, t))
  {
    var pc := PcOf(s1.threads, t);
    if pc.ListScan? {
      if a.Visit? {
        KeysOfAppend(pc.out, a.key, s1.items[a.key]);
        assert forall i :: 0 <= i < |pc.out| ==> pc.out[i].0 in KeysOf(pc.out);
      }
    }
  }

  lemma {:induction false} ListGoesOn<V>(s: State<V>, s1: State<V>, t: Tid, steps: seq<(Tid, Act<V>)>)
    requires Listing(s, s1, PcOf(s1.threads, t)) && Undisturbed(steps, t) && Exec(s1, steps).Some?
    requires PcOf(Exec(s1, steps).value.threads, t).ListDone? || PcOf(Exec(s1, steps).value.threads, t).Panicked?
    ensures Listing(s, Exec(s1, steps).value, PcOf(Exec(s1, steps).value.threads, t))
    decreases |steps|
  {
    if steps != [] {
      var s2 := Next(s1, t, steps[0].1).value;
      if PcOf(s1.threads, t).ListDone? {
        DoneIsDone(s2, t, steps[1..]);
      } else {
        ListGoes(s, s1, t, steps[0].1, s2);
        ListGoesOn(s, s2, t, steps[1..]);
      }
    }
  }

  lemma DoneIsDone<V>(s: State<V>, t: Tid, steps: seq<(Tid, Act<V>)>)
    requires PcOf(s.threads, t).Idle? && Undisturbed(steps, t) && Exec(s, steps).Some?
    ensures PcOf(Exec(s, steps).value.threads, t).Idle?
  {
  }

  /** An undisturbed List panics iff the counter is negative, and else lists every entry once with its value. */
  lemma SoloList<V>(s: State<V>, t: Tid, steps: seq<(Tid, Act<V>)>, s': State<V>)
    requires PcOf(s.threads, t).Idle? && Undisturbed(steps, t) && Exec(At(s, t, ListLock), steps) == Some(s')
    requires PcOf(s'.threads, t).ListDone? || PcOf(s'.threads, t).Panicked?
    ensures PcOf(s'.threads, t).Panicked? <==> s.len < 0
    ensures PcOf(s'.threads, t).ListDone? ==>
              var out := PcOf(s'.threads, t).out;
              && DistinctKeys(out) && KeysOf(out) == s.items.Keys
              && forall i :: 0 <= i < |out| ==> out[i].0 in s.items && out[i].1 == s.items[out[i].0]
  {
    ListGoesOn(s, At(s, t, ListLock), t, steps);
  }
}
