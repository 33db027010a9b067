/**
 When the interleaved cache's smallest-key index can be trusted (pkg/cache/cache.go):
 on schedules in which inserting stores and lock holders take turns, and no key goes
 while a store is about to replace it. Lists, probes and replacing stores are free.
 */
module CacheIndex {
  import opened Prelude
  import opened KeyOrder
  import opened CacheInterleaving
  import opened CacheCounter
  import MemoryCache

  /** Between its insertion and its last look at the index, or holding the write lock. */
  predicate Busy<V>(pc: Pc<V>) {
    pc.StoreCount? || pc.StoreReadFirst? || pc.StoreFirst? || HoldsWrite(pc)
  }

  ghost predicate TakeTurns<V>(s: State<V>) {
    forall t, u :: t in s.threads && u in s.threads && t != u && Busy(s.threads[t]) ==> !Busy(s.threads[u])
  }

  /** The step removes no key that a store is about to replace. */
  ghost predicate KeepsReplaced<V>(s: State<V>, s': State<V>) {
    forall t :: t in s.threads && s.threads[t].StoreReplace? && s.threads[t].key in s.items ==> s.threads[t].key in s'.items
  }

  ghost predicate OrderlyTrace<V>(states: seq<State<V>>, steps: seq<(Tid, Act<V>)>) {
    && Trace(states, steps) && states[0] == Init<V>()
    && (forall i :: 0 <= i < |states| ==> TakeTurns(states[i]))
    && (forall i :: 0 <= i < |steps| ==> KeepsReplaced(states[i], states[i + 1]))
  }

  // ---------------------------------------------------------------- the invariant

  /** Counter and index are right. */
  ghost predicate Sound(keys: set<Key>, len: int, first: Key) {
    len == |keys| && Least(keys, first)
  }

  ghost predicate Least(keys: set<Key>, first: Key) {
    keys != {} ==> IsMin(keys, first)
  }

  /** What holds of keys, counter and index while `pc` is the busy place; else they are right. */
  ghost predicate Claim<V>(keys: set<Key>, len: int, first: Key, pc: Pc<V>) {
    match pc
    case StoreCount(key) => key in keys && len == |keys| - 1 && Least(keys - {key}, first)
    case StoreReadFirst(key, newLen) => key in keys && newLen == len == |keys| && Least(keys - {key}, first)
    case StoreFirst(key, newLen, seen) =>
      key in keys && newLen == len == |keys| && seen == first && Least(keys - {key}, first)
    case DeleteCount(key) => key !in keys && len == |keys| + 1 && IsMin(keys + {key}, first)
    case DeleteCheck(key) => key !in keys && len == |keys| && IsMin(keys + {key}, first)
    case DeleteScan(begun, seen, next) =>
      len == |keys| && begun == keys && seen <= keys && 0 !in keys && (if seen == {} then next == 0 else IsMin(seen, next))
    case DeleteFirst(next) => len == |keys| && Least(keys, next)
    case CleanScan(_, begun, _) => begun == keys && Sound(keys, len, first)
    case CleanRemove(ks, n, i) => i < n <= |ks| && len == |keys| && keys == Elements(ks[i..])
    case CleanCount(ks, n, i) => i < n <= |ks| && len == |keys| + 1 && keys == Elements(ks[i + 1..])
    case CleanFirst(ks, n) => n <= |ks| && len == |keys| && keys == Elements(ks[n..])
    case _ => Sound(keys, len, first)
  }

  ghost predicate ClaimIn<V>(s: State<V>, pc: Pc<V>) {
    Claim(s.items.Keys, s.len, s.firstKey, pc)
  }

  ghost predicate Idling<V>(s: State<V>) {
    forall t :: t in s.threads ==> !Busy(s.threads[t])
  }

  ghost predicate Indexed<V>(s: State<V>) {
    && Inv(s)
    && (forall t :: t in s.threads && s.threads[t].StoreReplace? ==> s.threads[t].key in s.items)
    && (forall t :: t in s.threads && Busy(s.threads[t]) ==> ClaimIn(s, s.threads[t]))
    && (Idling(s) ==> Sound(s.items.Keys, s.len, s.firstKey))
  }

  // ---------------------------------------------------------------- the busy thread's steps

  lemma ProbeClaim<V>(s: State<V>, t: Tid, pc: Pc<V>, s': State<V>)
    requires pc.StoreProbe? && ClaimIn(s, pc) && StoreStep(s, t, pc) == Some(s')
    ensures ClaimIn(s', s'.threads[t])
  {
    if pc.key !in s.items {
      assert s'.items.Keys == s.items.Keys + {pc.key};
      assert s'.items.Keys - {pc.key} == s.items.Keys;
    }
  }

  lemma CountClaim<V>(s: State<V>, t: Tid, pc: Pc<V>, s': State<V>)
    requires (pc.StoreCount? || pc.StoreReadFirst?) && ClaimIn(s, pc) && StoreStep(s, t, pc) == Some(s')
    ensures ClaimIn(s', s'.threads[t])
  {
  }

  lemma FirstClaim<V>(s: State<V>, t: Tid, pc: Pc<V>, s': State<V>)
    requires pc.StoreFirst? && ClaimIn(s, pc) && StoreStep(s, t, pc) == Some(s')
    ensures ClaimIn(s', s'.threads[t])
  {
    var keys, rest := s.items.Keys, s.items.Keys - {pc.key};
    assert keys == rest + {pc.key} && |keys| == |rest| + 1;
    if rest != {} { assert s.firstKey in rest; }
  }

  lemma DeleteRemoveClaim<V>(s: State<V>, t: Tid, pc: Pc<V>, a: Act<V>, s': State<V>)
    requires (pc.DeleteLock? || pc.DeleteRemove?) && ClaimIn(s, pc) && DeleteStep(s, t, pc, a) == Some(s')
    ensures ClaimIn(s', s'.threads[t])
  {
    if pc.DeleteRemove? && pc.key in s.items {
      RemoveSize(s.items, pc.key);
      assert s'.items.Keys + {pc.key} == s.items.Keys;
      assert |s.items.Keys| == |s.items| && |s'.items.Keys| == |s'.items|;
    }
  }

  lemma DeleteCountClaim<V>(s: State<V>, t: Tid, pc: Pc<V>, a: Act<V>, s': State<V>)
    requires (pc.DeleteCount? || pc.DeleteFirst?) && ClaimIn(s, pc) && DeleteStep(s, t, pc, a) == Some(s')
    ensures ClaimIn(s', s'.threads[t])
  {
  }

  /** Once `k` is gone: nothing below it is left if it was the smallest, else the smallest stays. */
  lemma Without(keys: set<Key>, k: Key, first: Key)
    requires k !in keys && IsMin(keys + {k}, first)
    ensures if k == first then 0 !in keys else Least(keys, first)
  {
    assert forall j :: j in keys ==> j in keys + {k};
  }

  lemma DeleteCheckClaim<V>(s: State<V>, t: Tid, pc: Pc<V>, a: Act<V>, s': State<V>)
    requires pc.DeleteCheck? && ClaimIn(s, pc) && DeleteStep(s, t, pc, a) == Some(s')
    ensures ClaimIn(s', s'.threads[t])
  {
    var keys := s.items.Keys;
    Without(keys, pc.key, s.firstKey);
    if pc.key == s.firstKey {
      assert s'.threads[t] == DeleteScan(keys, {}, 0);
    } else {
      assert s'.threads[t] == Unlock;
      assert Sound(keys, s.len, s.firstKey);
    }
  }

  /** The sentinel is safe here: the smallest key has just gone, so 0 is not among the rest. */
  lemma DeleteScanClaim<V>(s: State<V>, t: Tid, pc: Pc<V>, a: Act<V>, s': State<V>)
    requires pc.DeleteScan? && ClaimIn(s, pc) && DeleteStep(s, t, pc, a) == Some(s')
    ensures ClaimIn(s', s'.threads[t])
  {
    if a.Visit? {
      assert pc.seen != {} ==> pc.next in pc.seen;
    } else {
      assert pc.seen == s.items.Keys;
    }
  }

  lemma CleanEnterClaim<V>(s: State<V>, t: Tid, pc: Pc<V>, a: Act<V>, s': State<V>)
    requires (pc.CleanLock? || pc.CleanLen? || pc.CleanAlloc? || pc.Unlock?) && ClaimIn(s, pc) && CleanStep(s, t, pc, a) == Some(s')
    ensures ClaimIn(s', s'.threads[t])
  {
  }

  lemma CleanScanClaim<V>(s: State<V>, t: Tid, pc: Pc<V>, a: Act<V>, s': State<V>)
    requires pc.CleanScan? && Local(s.items.Keys, s.len, pc) && ClaimIn(s, pc) && CleanStep(s, t, pc, a) == Some(s')
    ensures ClaimIn(s', s'.threads[t])
  {
    if a.EndRange? {
      var ks := pc.keys;
      assert Elements(ks) == s.items.Keys;
      DistinctSize(ks);
      MemoryCache.SortAscending(ks);
      var sorted := MemoryCache.Sort(ks);
      assert sorted[0..] == sorted;
    }
  }

  lemma TailMember(ks: seq<Key>, i: nat, k: Key)
    requires Ascending(ks) && i < |ks|
    ensures k in ks[i..] <==> k == ks[i] || k in ks[i + 1..]
    ensures k in ks[i + 1..] ==> ks[i] < k
  {
    assert ks[i..] == [ks[i]] + ks[i + 1..];
    if k in ks[i + 1..] {
      var j :| 0 <= j < |ks[i + 1..]| && ks[i + 1..][j] == k;
      assert ks[i + 1 + j] == k;
    }
  }

  lemma TailRemove(ks: seq<Key>, i: nat)
    requires Ascending(ks) && i < |ks|
    ensures Elements(ks[i..]) - {ks[i]} == Elements(ks[i + 1..])
    ensures IsMin(Elements(ks[i..]), ks[i])
  {
    forall k ensures k in ks[i..] <==> k == ks[i] || k in ks[i + 1..] { TailMember(ks, i, k); }
    var later := ks[i + 1..];
    forall k | k in later ensures ks[i] < k { TailMember(ks, i, k); }
  }

  lemma CleanRemoveClaim<V>(s: State<V>, t: Tid, pc: Pc<V>, a: Act<V>, s': State<V>)
    requires pc.CleanRemove? && Local(s.items.Keys, s.len, pc) && ClaimIn(s, pc) && CleanStep(s, t, pc, a) == Some(s')
    ensures ClaimIn(s', s'.threads[t])
  {
    TailRemove(pc.keys, pc.i);
    RemoveSize(s.items, pc.keys[pc.i]);
    assert |s.items.Keys| == |s.items| && |s'.items.Keys| == |s'.items|;
  }

  lemma CleanCountClaim<V>(s: State<V>, t: Tid, pc: Pc<V>, a: Act<V>, s': State<V>)
    requires (pc.CleanCount? || pc.CleanFirst?) && Local(s.items.Keys, s.len, pc) && ClaimIn(s, pc) && CleanStep(s, t, pc, a) == Some(s')
    ensures ClaimIn(s', s'.threads[t])
  {
    if pc.CleanFirst? && pc.n < |pc.keys| { TailRemove(pc.keys, pc.n); }
  }

  lemma StoreTurn<V>(s: State<V>, t: Tid, pc: Pc<V>, s': State<V>)
    requires (pc.StoreProbe? || pc.StoreCount? || pc.StoreReadFirst? || pc.StoreFirst?)
    requires ClaimIn(s, pc) && StoreStep(s, t, pc) == Some(s')
    ensures ClaimIn(s', s'.threads[t])
  {
    if pc.StoreProbe? {
      ProbeClaim(s, t, pc, s');
    } else if pc.StoreFirst? {
      FirstClaim(s, t, pc, s');
    } else {
      CountClaim(s, t, pc, s');
    }
  }

  lemma DeleteTurn<V>(s: State<V>, t: Tid, pc: Pc<V>, a: Act<V>, s': State<V>)
    requires ClaimIn(s, pc) && DeleteStep(s, t, pc, a) == Some(s')
    ensures ClaimIn(s', s'.threads[t])
  {
    if pc.DeleteLock? || pc.DeleteRemove? {
      DeleteRemoveClaim(s, t, pc, a, s');
    } else if pc.DeleteScan? {
      DeleteScanClaim(s, t, pc, a, s');
    } else if pc.DeleteCheck? {
      DeleteCheckClaim(s, t, pc, a, s');
    } else {
      DeleteCountClaim(s, t, pc, a, s');
    }
  }

  lemma CleanTurn<V>(s: State<V>, t: Tid, pc: Pc<V>, a: Act<V>, s': State<V>)
    requires Local(s.items.Keys, s.len, pc) && ClaimIn(s, pc) && CleanStep(s, t, pc, a) == Some(s')
    ensures ClaimIn(s', s'.threads[t])
  {
    if pc.CleanScan? {
      CleanScanClaim(s, t, pc, a, s');
    } else if pc.CleanRemove? {
      CleanRemoveClaim(s, t, pc, a, s');
    } else if pc.CleanCount? || pc.CleanFirst? {
      CleanCountClaim(s, t, pc, a, s');
    } else {
      CleanEnterClaim(s, t, pc, a, s');
    }
  }

  /** Which operation a step belongs to. */
  lemma BusyKind<V>(s: State<V>, t: Tid, a: Act<V>, s': State<V>)
    requires Next(s, t, a) == Some(s') && Busy(PcOf(s.threads, t))
    ensures var pc := PcOf(s.threads, t);
            if pc.StoreCount? || pc.StoreReadFirst? || pc.StoreFirst? then StoreStep(s, t, pc) == Some(s')
            else DeleteStep(s, t, pc, a) == Some(s') || CleanStep(s, t, pc, a) == Some(s')
  {
  }

  /** Calls, replacing stores and lists do not begin a turn. */
  lemma BeginsKind<V>(s: State<V>, t: Tid, a: Act<V>, s': State<V>)
    requires Next(s, t, a) == Some(s') && !Busy(PcOf(s.threads, t)) && Busy(s'.threads[t])
    ensures var pc := PcOf(s.threads, t);
            if pc.StoreProbe? then StoreStep(s, t, pc) == Some(s')
            else !pc.StoreReplace? && (DeleteStep(s, t, pc, a) == Some(s') || CleanStep(s, t, pc, a) == Some(s'))
  {
  }

  /** A step that begins, continues or ends a turn hands the claim on. */
  lemma TurnClaim<V>(s: State<V>, t: Tid, a: Act<V>, s': State<V>)
    requires Next(s, t, a) == Some(s')
    requires Busy(PcOf(s.threads, t)) || Busy(s'.threads[t])
    requires Local(s.items.Keys, s.len, PcOf(s.threads, t)) && ClaimIn(s, PcOf(s.threads, t))
    ensures ClaimIn(s', s'.threads[t])
  {
    var pc := PcOf(s.threads, t);
    if Busy(pc) { BusyKind(s, t, a, s'); } else { BeginsKind(s, t, a, s'); }
    if pc.StoreProbe? || pc.StoreCount? || pc.StoreReadFirst? || pc.StoreFirst? {
      StoreTurn(s, t, pc, s');
    } else if DeleteStep(s, t, pc, a) == Some(s') {
      DeleteTurn(s, t, pc, a, s');
    } else {
      CleanTurn(s, t, pc, a, s');
    }
  }

  /** A step outside any turn touches neither the key set nor counter nor index. */
  lemma QuietStep<V>(s: State<V>, t: Tid, a: Act<V>, s': State<V>)
    requires Next(s, t, a) == Some(s') && t in s'.threads
    requires !Busy(PcOf(s.threads, t)) && !Busy(s'.threads[t])
    requires PcOf(s.threads, t).StoreReplace? ==> PcOf(s.threads, t).key in s.items
    ensures s'.items.Keys == s.items.Keys && s'.len == s.len && s'.firstKey == s.firstKey
  {
  }

  lemma ReplacedStay<V>(s: State<V>, t: Tid, a: Act<V>, s': State<V>)
    requires Indexed(s) && KeepsReplaced(s, s') && Next(s, t, a) == Some(s')
    ensures forall u :: u in s'.threads && s'.threads[u].StoreReplace? ==> s'.threads[u].key in s'.items
  {
    forall u | u in s'.threads && s'.threads[u].StoreReplace? ensures s'.threads[u].key in s'.items {
      if u == t { NextMoves(s, t, a, s'); } else { assert s'.threads[u] == s.threads[u]; }
    }
  }

  lemma DefaultClaim<V>(s: State<V>, pc: Pc<V>)
    requires !Busy(pc)
    ensures ClaimIn(s, pc) <==> Sound(s.items.Keys, s.len, s.firstKey)
  {
  }

  /** The stepping thread has, takes or gives up the turn: nobody else is busy. */
  lemma OthersWait<V>(s: State<V>, t: Tid, s': State<V>)
    requires TakeTurns(s) && TakeTurns(s') && OnlyMoves(s, t, s') && (Busy(PcOf(s.threads, t)) || Busy(s'.threads[t]))
    ensures forall u :: u in s'.threads && u != t ==> !Busy(s'.threads[u])
    ensures !Busy(PcOf(s.threads, t)) ==> Idling(s)
  {
    forall u | u in s'.threads && u != t ensures !Busy(s'.threads[u]) {
      assert s'.threads[u] == s.threads[u];
    }
    forall u | u in s.threads && u != t ensures !Busy(s.threads[u]) {
      assert s'.threads[u] == s.threads[u];
    }
  }

  lemma TurnHandedOn<V>(s: State<V>, t: Tid, a: Act<V>, s': State<V>)
    requires Indexed(s) && TakeTurns(s) && TakeTurns(s') && Next(s, t, a) == Some(s')
    requires Busy(PcOf(s.threads, t)) || Busy(s'.threads[t])
    ensures ClaimIn(s', s'.threads[t])
    ensures forall u :: u in s'.threads && u != t ==> !Busy(s'.threads[u])
  {
    var pc := PcOf(s.threads, t);
    InvMine(s, t);
    OthersWait(s, t, s');
    if !Busy(pc) { DefaultClaim(s, pc); }
    TurnClaim(s, t, a, s');
  }

  lemma QuietHandedOn<V>(s: State<V>, t: Tid, a: Act<V>, s': State<V>, u: Tid)
    requires Indexed(s) && Next(s, t, a) == Some(s') && !Busy(PcOf(s.threads, t)) && !Busy(s'.threads[t])
    ensures u in s'.threads && Busy(s'.threads[u]) ==> ClaimIn(s', s'.threads[u])
    ensures Idling(s') ==> Sound(s'.items.Keys, s'.len, s'.firstKey)
  {
    QuietStep(s, t, a, s');
    if Idling(s') {
      forall v | v in s.threads ensures !Busy(s.threads[v]) {
        if v != t { assert s'.threads[v] == s.threads[v]; }
      }
    }
    if u in s'.threads && u != t { assert s'.threads[u] == s.threads[u]; }
  }

  lemma ClaimsHandedOn<V>(s: State<V>, t: Tid, a: Act<V>, s': State<V>)
    requires Indexed(s) && TakeTurns(s) && TakeTurns(s') && Next(s, t, a) == Some(s')
    ensures forall u :: u in s'.threads && Busy(s'.threads[u]) ==> ClaimIn(s', s'.threads[u])
    ensures Idling(s') ==> Sound(s'.items.Keys, s'.len, s'.firstKey)
  {
    if Busy(PcOf(s.threads, t)) || Busy(s'.threads[t]) {
      TurnHandedOn(s, t, a, s');
      if Idling(s') { DefaultClaim(s', s'.threads[t]); }
    } else {
      forall u | u in s'.threads && Busy(s'.threads[u]) ensures ClaimIn(s', s'.threads[u]) {
        QuietHandedOn(s, t, a, s', u);
      }
      QuietHandedOn(s, t, a, s', t);
    }
  }

  lemma NextIndexed<V>(s: State<V>, t: Tid, a: Act<V>, s': State<V>)
    requires Indexed(s) && TakeTurns(s) && TakeTurns(s') && KeepsReplaced(s, s') && Next(s, t, a) == Some(s')
    ensures Indexed(s')
  {
    NextKeepsInv(s, t, a);
    ReplacedStay(s, t, a, s');
    ClaimsHandedOn(s, t, a, s');
  }

  lemma {:induction false} OrderlyIndexed<V>(states: seq<State<V>>, steps: seq<(Tid, Act<V>)>, j: nat)
    requires OrderlyTrace(states, steps) && j < |states|
    ensures Indexed(states[j])
  {
    if j == 0 {
      InitInv<V>();
    } else {
      var i := j - 1;
      OrderlyIndexed(states, steps, i);
      assert Next(states[i], steps[i].0, steps[i].1) == Some(states[i + 1]);
      NextIndexed(states[i], steps[i].0, steps[i].1, states[j]);
    }
  }

  /**
   Whenever nobody is in the middle of a turn, the counter is exact and the index the
   least key: the cache is back in a state its one-call-at-a-time contract allows.
   */
  lemma IndexIsSmallest<V>(states: seq<State<V>>, steps: seq<(Tid, Act<V>)>, j: nat)
    requires OrderlyTrace(states, steps) && j < |states| && Idling(states[j])
    ensures states[j].len == |states[j].items|
    ensures states[j].items.Keys != {} ==> IsMin(states[j].items.Keys, states[j].firstKey)
    ensures MemoryCache.Wf(MemoryCache.State(states[j].items, states[j].len, states[j].firstKey))
  {
    OrderlyIndexed(states, steps, j);
    assert |states[j].items.Keys| == |states[j].items|;
  }
}
