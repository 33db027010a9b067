/**
 When the interleaved cache's counter can be trusted (pkg/cache/cache.go). A step is
 careful if it removes no key that some store has yet to count or to replace. Careful
 schedules never panic, and after any careless removal a panic is still ahead, however
 careful the rest of the schedule is.
 */
module CacheCounter {
  import opened Prelude
  import opened KeyOrder
  import opened CacheInterleaving

  /** A store is on its way to count this key, or to replace its value. */
  predicate Pends<V>(pc: Pc<V>, k: Key) {
    (pc.StoreReplace? || pc.StoreCount?) && pc.key == k
  }

  ghost predicate Careful<V>(s: State<V>, s': State<V>) {
    forall k, t :: k in s.items && k !in s'.items && t in s.threads ==> !Pends(s.threads[t], k)
  }

  /** Execution by careful steps only. */
  ghost function CarefulExec<V>(s: State<V>, steps: seq<(Tid, Act<V>)>): (r: Option<State<V>>)
    decreases |steps|
  {
    if steps == [] then Some(s) else
      var s1 := Next(s, steps[0].0, steps[0].1);
      if s1.None? || !Careful(s, s1.value) then None else CarefulExec(s1.value, steps[1..])
  }

  // ---------------------------------------------------------------- careful schedules are safe

  /** Pending keys are present, counted one store at a time; nothing was re-inserted uncounted. */
  ghost predicate Counted<V>(s: State<V>) {
    && Inv(s) && s.overwrites == 0
    && (forall t :: t in s.threads ==> !s.threads[t].Panicked?)
    && (forall t, k :: t in s.threads && Pends(s.threads[t], k) ==> k in s.items)
    && (forall t, u :: t in s.threads && u in s.threads && t != u && s.threads[t].StoreCount? && s.threads[u].StoreCount? ==>
          s.threads[t].key != s.threads[u].key)
  }

  ghost function Images(f: map<Tid, Key>, ts: set<Tid>): (ks: set<Key>)
    requires ts <= f.Keys
  {
    set t | t in ts :: f[t]
  }

  lemma {:induction false} DistinctImages(f: map<Tid, Key>, ts: set<Tid>)
    requires ts <= f.Keys && forall t, u :: t in ts && u in ts && t != u ==> f[t] != f[u]
    ensures |Images(f, ts)| == |ts|
    decreases |ts|
  {
    if ts != {} {
      var t :| t in ts;
      var rest := ts - {t};
      DistinctImages(f, rest);
      assert Images(f, ts) == Images(f, rest) + {f[t]};
    }
  }

  /** Distinct keys are being counted and all are present, so the counter is not below zero. */
  lemma CounterNonNegative<V>(s: State<V>)
    requires Counted(s)
    ensures s.len >= 0
  {
    var ts := Incrementing(s.threads);
    var f := map t | t in ts :: s.threads[t].key;
    assert forall t :: t in ts ==> t in s.threads && s.threads[t].StoreCount? && f[t] == s.threads[t].key;
    DistinctImages(f, ts);
    var ks := Images(f, ts);
    forall k | k in ks ensures k in s.items.Keys {
      var t :| t in ts && f[t] == k;
      assert Pends(s.threads[t], k);
    }
    SubsetSize(ks, s.items.Keys);
    assert |ts| <= |s.items.Keys| == |s.items|;
  }

  /** What a step makes of its own thread, as far as the counter is concerned. */
  ghost predicate Moves<V>(s: State<V>, was: Pc<V>, pc: Pc<V>, s': State<V>) {
    && (s'.overwrites == s.overwrites || (was.StoreReplace? && was.key !in s.items))
    && (pc.StoreReplace? ==> pc.key in s'.items)
    && (pc.StoreCount? ==> pc.key in s'.items && pc.key !in s.items)
    && (pc.Panicked? ==> s.len < 0)
  }

  lemma StoreMoves<V>(s: State<V>, t: Tid, pc: Pc<V>)
    requires StoreStep(s, t, pc).Some?
    ensures Moves(s, pc, StoreStep(s, t, pc).value.threads[t], StoreStep(s, t, pc).value)
  {
  }

  lemma DeleteMoves<V>(s: State<V>, t: Tid, pc: Pc<V>, a: Act<V>)
    requires DeleteStep(s, t, pc, a).Some?
    ensures Moves(s, pc, DeleteStep(s, t, pc, a).value.threads[t], DeleteStep(s, t, pc, a).value)
  {
  }

  lemma CleanMoves<V>(s: State<V>, t: Tid, pc: Pc<V>, a: Act<V>)
    requires CleanStep(s, t, pc, a).Some?
    ensures Moves(s, pc, CleanStep(s, t, pc, a).value.threads[t], CleanStep(s, t, pc, a).value)
  {
  }

  lemma ListMoves<V>(s: State<V>, t: Tid, pc: Pc<V>, a: Act<V>)
    requires ListStep(s, t, pc, a).Some?
    ensures Moves(s, pc, ListStep(s, t, pc, a).value.threads[t], ListStep(s, t, pc, a).value)
  {
  }

  lemma NextMoves<V>(s: State<V>, t: Tid, a: Act<V>, s': State<V>)
    requires Next(s, t, a) == Some(s')
    ensures t in s'.threads && Moves(s, PcOf(s.threads, t), s'.threads[t], s')
  {
    var pc := PcOf(s.threads, t);
    if a.Call? {
    } else if pc.StoreProbe? || pc.StoreReplace? || pc.StoreCount? || pc.StoreReadFirst? || pc.StoreFirst? {
      StoreMoves(s, t, pc);
    } else if pc.DeleteLock? || pc.DeleteRemove? || pc.DeleteCount? || pc.DeleteCheck? || pc.DeleteScan? || pc.DeleteFirst? {
      DeleteMoves(s, t, pc, a);
    } else if pc.ListLock? || HoldsRead(pc) {
      ListMoves(s, t, pc, a);
    } else {
      CleanMoves(s, t, pc, a);
    }
  }

  lemma NextKeepsCounted<V>(s: State<V>, t: Tid, a: Act<V>, s': State<V>)
    requires Counted(s) && Next(s, t, a) == Some(s') && Careful(s, s')
    ensures Counted(s')
  {
    NextKeepsInv(s, t, a);
    NextMoves(s, t, a, s');
    CounterNonNegative(s);
    var pc := PcOf(s.threads, t);
    assert pc.StoreReplace? ==> t in s.threads && Pends(s.threads[t], pc.key);
    MovesKeepPending(s, t, s');
  }

  lemma MovesKeepPending<V>(s: State<V>, t: Tid, s': State<V>)
    requires Counted(s) && Careful(s, s') && OnlyMoves(s, t, s') && Moves(s, PcOf(s.threads, t), s'.threads[t], s')
    ensures forall u, k :: u in s'.threads && Pends(s'.threads[u], k) ==> k in s'.items
    ensures forall u, v :: u in s'.threads && v in s'.threads && u != v && s'.threads[u].StoreCount? && s'.threads[v].StoreCount? ==>
              s'.threads[u].key != s'.threads[v].key
  {
    forall u, k | u in s'.threads && Pends(s'.threads[u], k) ensures k in s'.items {
      if u != t { assert Pends(s.threads[u], k); }
    }
    forall u | u in s'.threads && u != t && s'.threads[u].StoreCount? && s'.threads[t].StoreCount?
      ensures s'.threads[u].key != s'.threads[t].key
    {
      assert Pends(s.threads[u], s.threads[u].key);
    }
  }

  lemma {:induction false} CarefulKeepsCounted<V>(s: State<V>, steps: seq<(Tid, Act<V>)>)
    requires Counted(s) && CarefulExec(s, steps).Some?
    ensures Counted(CarefulExec(s, steps).value)
    decreases |steps|
  {
    if steps != [] {
      var s1 := Next(s, steps[0].0, steps[0].1).value;
      NextKeepsCounted(s, steps[0].0, steps[0].1, s1);
      CarefulKeepsCounted(s1, steps[1..]);
    }
  }

  /** Careful schedules: no uncounted entry, no negative counter, no panic, in any state. */
  lemma CarefulIsSafe<V>(s: State<V>, steps: seq<(Tid, Act<V>)>)
    requires CarefulExec(Init<V>(), steps) == Some(s)
    ensures s.overwrites == 0 && s.len >= 0
    ensures forall t :: t in s.threads ==> !s.threads[t].Panicked?
  {
    InitInv<V>();
    CarefulKeepsCounted(Init<V>(), steps);
    CounterNonNegative(s);
  }

  // ---------------------------------------------------------------- careless removals are fatal

  /** Careful steps lead from `s` to `s'`. */
  ghost predicate Leads<V(!new)>(s: State<V>, s': State<V>) {
    exists steps :: CarefulExec(s, steps) == Some(s')
  }

  lemma LeadsSelf<V(!new)>(s: State<V>)
    ensures Leads(s, s)
  {
    assert CarefulExec(s, []) == Some(s);
  }

  lemma LeadsOn<V(!new)>(s: State<V>, t: Tid, a: Act<V>, s1: State<V>, s': State<V>)
    requires Next(s, t, a) == Some(s1) && Careful(s, s1) && Leads(s1, s')
    ensures Leads(s, s')
  {
    var steps :| CarefulExec(s1, steps) == Some(s');
    var all := [(t, a)] + steps;
    assert all[1..] == steps;
    assert CarefulExec(s, all) == Some(s');
  }

  lemma {:induction false} ExecThen<V(!new)>(s: State<V>, steps: seq<(Tid, Act<V>)>, s1: State<V>, s2: State<V>)
    requires CarefulExec(s, steps) == Some(s1) && Leads(s1, s2)
    ensures Leads(s, s2)
    decreases |steps|
  {
    if steps != [] {
      var m := Next(s, steps[0].0, steps[0].1).value;
      ExecThen(m, steps[1..], s1, s2);
      LeadsOn(s, steps[0].0, steps[0].1, m, s2);
    }
  }

  lemma LeadsThen<V(!new)>(s: State<V>, s1: State<V>, s2: State<V>)
    requires Leads(s, s1) && Leads(s1, s2)
    ensures Leads(s, s2)
  {
    var steps :| CarefulExec(s, steps) == Some(s1);
    ExecThen(s, steps, s1, s2);
  }

  /** Stores that pend on another key than `frozen`. */
  ghost function Loose<V>(s: State<V>, frozen: Option<Key>): (ts: set<Tid>) {
    set t | t in s.threads && (s.threads[t].StoreReplace? || s.threads[t].StoreCount?) && frozen != Some(s.threads[t].key)
  }

  /** Stores went on without touching the locks, their holder, or the frozen key. */
  ghost predicate StoresWentOn<V>(s: State<V>, frozen: Option<Key>, s': State<V>) {
    && s'.writer == s.writer && s'.readers == s.readers && s.overwrites <= s'.overwrites
    && (frozen.Some? ==> (frozen.value in s.items <==> frozen.value in s'.items))
    && (forall t :: t in s.threads && (HoldsWrite(s.threads[t]) || (frozen.Some? && Pends(s.threads[t], frozen.value))) ==>
          t in s'.threads && s'.threads[t] == s.threads[t])
  }

  lemma StoreStepGoesOn<V>(s: State<V>, frozen: Option<Key>, t: Tid)
    requires t in Loose(s, frozen)
    ensures StoreStep(s, t, s.threads[t]).Some?
    ensures var s' := StoreStep(s, t, s.threads[t]).value;
            && s.items.Keys <= s'.items.Keys && StoresWentOn(s, frozen, s')
            && !s'.threads[t].StoreReplace? && !s'.threads[t].StoreCount?
            && (s.threads[t].StoreReplace? && s.threads[t].key !in s.items ==> s'.overwrites == s.overwrites + 1)
  {
  }

  lemma StoreGoesOn<V>(s: State<V>, frozen: Option<Key>, t: Tid) returns (s': State<V>)
    requires Inv(s) && t in Loose(s, frozen)
    ensures Next(s, t, Go) == Some(s') && Inv(s') && Careful(s, s') && StoresWentOn(s, frozen, s')
    ensures Loose(s', frozen) == Loose(s, frozen) - {t}
    ensures s.threads[t].StoreReplace? && s.threads[t].key !in s.items ==> s'.overwrites == s.overwrites + 1
  {
    StoreStepGoesOn(s, frozen, t);
    s' := StoreStep(s, t, s.threads[t]).value;
    NextKeepsInv(s, t, Go);
    OneLess(s, frozen, t, s');
  }

  lemma OneLess<V>(s: State<V>, frozen: Option<Key>, t: Tid, s': State<V>)
    requires OnlyMoves(s, t, s') && !s'.threads[t].StoreReplace? && !s'.threads[t].StoreCount?
    ensures Loose(s', frozen) == Loose(s, frozen) - {t}
  {
  }

  lemma {:induction false} Flush<V(!new)>(s: State<V>, frozen: Option<Key>) returns (s': State<V>)
    requires Inv(s)
    ensures Inv(s') && Leads(s, s') && StoresWentOn(s, frozen, s') && Loose(s', frozen) == {}
    decreases |Loose(s, frozen)|
  {
    if Loose(s, frozen) == {} {
      s' := s;
      LeadsSelf(s);
    } else {
      var t :| t in Loose(s, frozen);
      var s1 := StoreGoesOn(s, frozen, t);
      s' := Flush(s1, frozen);
      LeadsOn(s, t, Go, s1, s');
    }
  }

  /** More is to be counted than is there, and no store pends on a key that is there. */
  ghost predicate Doomed<V>(s: State<V>) {
    && Inv(s)
    && (forall t, k :: t in s.threads && Pends(s.threads[t], k) ==> k !in s.items)
    && (s.overwrites > 0 || exists t :: t in s.threads && s.threads[t].StoreCount?)
  }

  /** A careless removal has just happened: let the other stores go on. */
  lemma RemovalDooms<V(!new)>(s: State<V>, t: Tid, k: Key) returns (s': State<V>)
    requires Inv(s) && k !in s.items && t in s.threads && Pends(s.threads[t], k)
    ensures Leads(s, s') && Doomed(s') && s'.writer == s.writer
    ensures forall u :: u in s.threads && HoldsWrite(s.threads[u]) ==> u in s'.threads && s'.threads[u] == s.threads[u]
  {
    if u :| u in s.threads && s.threads[u] == StoreCount(k) {
      s' := Flush(s, Some(k));
      assert Pends(s.threads[u], k) && s'.threads[u] == s.threads[u];
      OnlyFrozenPends(s', Some(k));
    } else {
      var s1 := StoreGoesOn(s, None, t);
      s' := Flush(s1, None);
      LeadsOn(s, t, Go, s1, s');
      OnlyFrozenPends(s', None);
    }
  }

  lemma OnlyFrozenPends<V>(s: State<V>, frozen: Option<Key>)
    requires Loose(s, frozen) == {} && (frozen.Some? ==> frozen.value !in s.items)
    ensures forall t, k :: t in s.threads && Pends(s.threads[t], k) ==> k !in s.items
  {
    forall t, k | t in s.threads && Pends(s.threads[t], k) ensures k !in s.items {
      assert t !in Loose(s, frozen);
    }
  }

  // ---------------------------------------------------------------- the lock holder finishes

  /** Between a removal and the release of the lock. */
  predicate Finishing<V>(pc: Pc<V>) {
    || pc.DeleteCount? || pc.DeleteCheck? || pc.DeleteScan? || pc.DeleteFirst?
    || pc.CleanRemove? || pc.CleanCount? || pc.CleanFirst? || pc.Unlock?
  }

  function Phase<V>(pc: Pc<V>): (n: nat) {
    if pc.DeleteCount? then 5 else if pc.DeleteCheck? then 4 else if pc.DeleteScan? then 3
    else if pc.CleanRemove? || pc.CleanCount? then 3
    else if pc.DeleteFirst? || pc.CleanFirst? then 2 else if pc.Unlock? then 1 else 0
  }

  ghost function Rest<V>(s: State<V>, pc: Pc<V>): (n: int) {
    if pc.DeleteScan? then |s.items.Keys - pc.seen|
    else if pc.CleanRemove? then 2 * (pc.n - pc.i) + 1
    else if pc.CleanCount? then 2 * (pc.n - pc.i)
    else 0
  }

  /** Thread `t` went from `was` to `pc`; it may have removed keys, and is closer to the end. */
  ghost predicate Proceeds<V>(s: State<V>, t: Tid, was: Pc<V>, pc: Pc<V>, s': State<V>) {
    && s'.threads == s.threads[t := pc]
    && s'.items.Keys <= s.items.Keys && s'.overwrites == s.overwrites && s'.readers == s.readers
    && (if pc.Idle? then s'.writer.None? else s'.writer == s.writer && Finishing(pc))
    && (Phase(pc) < Phase(was) || (Phase(pc) == Phase(was) && 0 <= Rest(s', pc) < Rest(s, was)))
  }

  lemma VisitProceeds<V>(s: State<V>, t: Tid, pc: Pc<V>, k: Key)
    requires pc.DeleteScan? && k in s.items.Keys - pc.seen
    ensures DeleteStep(s, t, pc, Visit(k)).Some?
    ensures var s' := DeleteStep(s, t, pc, Visit(k)).value; Proceeds(s, t, pc, s'.threads[t], s')
  {
    assert s.items.Keys - (pc.seen + {k}) == s.items.Keys - pc.seen - {k};
  }

  lemma ScanEndProceeds<V>(s: State<V>, t: Tid, pc: Pc<V>)
    requires pc.DeleteScan? && s.items.Keys <= pc.seen
    ensures DeleteStep(s, t, pc, EndRange).Some?
    ensures var s' := DeleteStep(s, t, pc, EndRange).value; Proceeds(s, t, pc, s'.threads[t], s')
  {
  }

  lemma ScanProceeds<V>(s: State<V>, t: Tid, pc: Pc<V>) returns (a: Act<V>)
    requires pc.DeleteScan?
    ensures !a.Call? && DeleteStep(s, t, pc, a).Some?
    ensures var s' := DeleteStep(s, t, pc, a).value; Proceeds(s, t, pc, s'.threads[t], s')
  {
    if k :| k in s.items.Keys - pc.seen {
      a := Visit(k);
      VisitProceeds(s, t, pc, k);
    } else {
      a := EndRange;
      assert forall k :: k in s.items.Keys ==> k in s.items.Keys - pc.seen || k in pc.seen;
      ScanEndProceeds(s, t, pc);
    }
  }

  lemma DeleteProceeds<V>(s: State<V>, t: Tid, pc: Pc<V>)
    requires pc.DeleteCount? || pc.DeleteCheck? || pc.DeleteFirst?
    ensures DeleteStep(s, t, pc, Go).Some?
    ensures var s' := DeleteStep(s, t, pc, Go).value; Proceeds(s, t, pc, s'.threads[t], s')
  {
  }

  lemma RemoveProceeds<V>(s: State<V>, t: Tid, pc: Pc<V>)
    requires pc.CleanRemove? && Local(s.items.Keys, s.len, pc)
    ensures CleanStep(s, t, pc, Go).Some?
    ensures var s' := CleanStep(s, t, pc, Go).value; Proceeds(s, t, pc, s'.threads[t], s')
  {
  }

  lemma CleanCountProceeds<V>(s: State<V>, t: Tid, pc: Pc<V>)
    requires pc.CleanCount? && Local(s.items.Keys, s.len, pc)
    ensures CleanStep(s, t, pc, Go).Some?
    ensures var s' := CleanStep(s, t, pc, Go).value; Proceeds(s, t, pc, s'.threads[t], s')
  {
  }

  lemma LeaveProceeds<V>(s: State<V>, t: Tid, pc: Pc<V>)
    requires pc.CleanFirst? || pc.Unlock?
    ensures CleanStep(s, t, pc, Go).Some?
    ensures var s' := CleanStep(s, t, pc, Go).value; Proceeds(s, t, pc, s'.threads[t], s')
  {
  }

  lemma HolderProceeds<V>(s: State<V>, t: Tid) returns (a: Act<V>, s': State<V>)
    requires Inv(s) && t in s.threads && Finishing(s.threads[t])
    ensures Next(s, t, a) == Some(s') && Inv(s') && Proceeds(s, t, s.threads[t], s'.threads[t], s')
  {
    var pc := s.threads[t];
    a := Go;
    if pc.DeleteScan? {
      a := ScanProceeds(s, t, pc);
      s' := DeleteStep(s, t, pc, a).value;
    } else if pc.DeleteCount? || pc.DeleteCheck? || pc.DeleteFirst? {
      DeleteProceeds(s, t, pc);
      s' := DeleteStep(s, t, pc, Go).value;
    } else {
      if pc.CleanRemove? {
        RemoveProceeds(s, t, pc);
      } else if pc.CleanCount? {
        CleanCountProceeds(s, t, pc);
      } else {
        LeaveProceeds(s, t, pc);
      }
      s' := CleanStep(s, t, pc, Go).value;
    }
    NextKeepsInv(s, t, a);
  }

  /** Doom outlasts every step that stores nothing. */
  lemma StaysDoomed<V>(s: State<V>, t: Tid, s': State<V>)
    requires Doomed(s) && Inv(s') && OnlyMoves(s, t, s') && s'.items.Keys <= s.items.Keys && s'.overwrites == s.overwrites
    requires t in s.threads ==> !s.threads[t].StoreCount?
    requires !s'.threads[t].StoreCount? && !s'.threads[t].StoreReplace?
    ensures Doomed(s') && Careful(s, s')
  {
    forall u, k | u in s'.threads && Pends(s'.threads[u], k) ensures k !in s'.items {
      assert u != t && Pends(s.threads[u], k);
    }
    if s.overwrites == 0 {
      var u :| u in s.threads && s.threads[u].StoreCount?;
      assert u != t && s'.threads[u] == s.threads[u];
    }
  }

  lemma {:induction false} Release<V(!new)>(s: State<V>, t: Tid) returns (s': State<V>)
    requires Doomed(s) && t in s.threads && Finishing(s.threads[t])
    ensures Leads(s, s') && Doomed(s') && s'.writer.None? && s'.readers == s.readers && PcOf(s'.threads, t).Idle?
    ensures s'.items.Keys <= s.items.Keys
    decreases Phase(s.threads[t]), Rest(s, s.threads[t])
  {
    var a, s1 := HolderProceeds(s, t);
    StaysDoomed(s, t, s1);
    if s1.threads[t].Idle? {
      s' := s1;
      LeadsSelf(s1);
    } else {
      s' := Release(s1, t);
    }
    LeadsOn(s, t, a, s1, s');
  }

  // ---------------------------------------------------------------- and empties the cache

  ghost predicate AtRest<V>(s: State<V>, t: Tid) {
    s.writer.None? && s.readers == {} && PcOf(s.threads, t).Idle?
  }

  /** Lock, then remove, by a thread that was idle. */
  lemma LockOne<V>(s: State<V>, t: Tid, k: Key) returns (s1: State<V>, s2: State<V>)
    requires Doomed(s) && AtRest(s, t)
    ensures Next(s, t, Call(DeleteLock(k))) == Some(s1) && Next(s1, t, Go) == Some(s2)
    ensures Careful(s, s1) && Careful(s1, s2) && Doomed(s2)
    ensures t in s2.threads && s2.threads[t] == DeleteRemove(k) && s2.readers == {} && s2.items == s.items
  {
    s1 := At(s, t, DeleteLock(k));
    NextKeepsInv(s, t, Call(DeleteLock(k)));
    StaysDoomed(s, t, s1);
    s2 := At(s1.(writer := Some(t)), t, DeleteRemove(k));
    NextKeepsInv(s1, t, Go);
    StaysDoomed(s1, t, s2);
  }

  lemma RemoveOne<V>(s: State<V>, t: Tid, k: Key) returns (s': State<V>)
    requires Doomed(s) && t in s.threads && s.threads[t] == DeleteRemove(k) && k in s.items
    ensures Next(s, t, Go) == Some(s') && Careful(s, s') && Doomed(s')
    ensures t in s'.threads && s'.threads[t].DeleteCount? && s'.readers == s.readers && s'.items == s.items - {k}
  {
    s' := At(s.(items := s.items - {k}), t, DeleteCount(k));
    NextKeepsInv(s, t, Go);
    StaysDoomed(s, t, s');
  }

  lemma {:induction false} Drain<V(!new)>(s: State<V>, t: Tid) returns (s': State<V>)
    requires Doomed(s) && AtRest(s, t)
    ensures Leads(s, s') && Doomed(s') && AtRest(s', t) && s'.items == map[]
    decreases |s.items.Keys|
  {
    if s.items == map[] {
      s' := s;
      LeadsSelf(s);
    } else {
      var k :| k in s.items;
      var s1, s2 := LockOne(s, t, k);
      var s3 := RemoveOne(s2, t, k);
      var s4 := Release(s3, t);
      assert s4.items.Keys <= s.items.Keys - {k};
      SubsetSize(s4.items.Keys, s.items.Keys - {k});
      s' := Drain(s4, t);
      LeadsThen(s3, s4, s');
      LeadsOn(s2, t, Go, s3, s');
      LeadsOn(s1, t, Go, s2, s');
      LeadsOn(s, t, Call(DeleteLock(k)), s1, s');
    }
  }

  /** With nothing left, what is owed makes the counter negative. */
  lemma EmptyIsNegative<V>(s: State<V>, t: Tid)
    requires Doomed(s) && AtRest(s, t) && s.items == map[]
    ensures s.len < 0
  {
    assert Decrementing(s.threads) == {};
    if s.overwrites == 0 {
      var u :| u in s.threads && s.threads[u].StoreCount?;
      assert u in Incrementing(s.threads);
    }
  }

  lemma AllocationPanics<V(!new)>(s: State<V>, t: Tid) returns (s': State<V>)
    requires t in s.threads && s.threads[t].ListAlloc? && s.len < 0
    ensures Leads(s, s') && t in s'.threads && s'.threads[t].Panicked?
  {
    s' := At(s.(readers := s.readers - {t}), t, Panicked);
    LeadsSelf(s');
    LeadsOn(s, t, Go, s', s');
  }

  lemma LonelyListPanics<V(!new)>(s: State<V>, t: Tid) returns (s': State<V>)
    requires AtRest(s, t) && s.len < 0
    ensures Leads(s, s') && t in s'.threads && s'.threads[t].Panicked?
  {
    var s1 := At(s, t, ListLock);
    var s2 := At(s1.(readers := s1.readers + {t}), t, ListAlloc(s1.items.Keys));
    s' := AllocationPanics(s2, t);
    LeadsOn(s1, t, Go, s2, s');
    LeadsOn(s, t, Call(ListLock), s1, s');
  }

  /** Some careful continuation ends in a panic. */
  ghost predicate CanPanic<V(!new)>(s: State<V>) {
    exists s', t :: Leads(s, s') && t in s'.threads && s'.threads[t].Panicked?
  }

  lemma DoomedPanics<V(!new)>(s: State<V>, t: Tid)
    requires Doomed(s) && t in s.threads && Finishing(s.threads[t]) && s.readers == {}
    ensures CanPanic(s)
  {
    var s1 := Release(s, t);
    var s2 := Drain(s1, t);
    EmptyIsNegative(s2, t);
    var s3 := LonelyListPanics(s2, t);
    LeadsThen(s, s1, s2);
    LeadsThen(s, s2, s3);
  }

  /** Only a lock holder removes keys, and it then has the rest of its call ahead. */
  lemma RemoverFinishes<V>(s: State<V>, t: Tid, a: Act<V>, s': State<V>, k: Key)
    requires Inv(s) && Next(s, t, a) == Some(s') && k in s.items && k !in s'.items
    ensures Inv(s') && s'.writer == Some(t) && s'.readers == {} && t in s'.threads && Finishing(s'.threads[t])
    ensures t in s.threads && !s.threads[t].StoreReplace? && !s.threads[t].StoreCount?
  {
    NextKeepsInv(s, t, a);
    NextEffect(s, t, a, s');
    RemoverPc(s, t, a, s', k);
  }

  lemma RemoverPc<V>(s: State<V>, t: Tid, a: Act<V>, s': State<V>, k: Key)
    requires Next(s, t, a) == Some(s') && k in s.items && k !in s'.items
    ensures t in s.threads && (s.threads[t].DeleteRemove? || s.threads[t].CleanRemove?)
    ensures t in s'.threads && (s'.threads[t].DeleteCount? || s'.threads[t].CleanCount?)
  {
  }

  lemma CarelessPanics<V(!new)>(s: State<V>, t: Tid, a: Act<V>, s': State<V>)
    requires Inv(s) && Next(s, t, a) == Some(s') && !Careful(s, s')
    ensures CanPanic(s')
  {
    var k, u :| k in s.items && k !in s'.items && u in s.threads && Pends(s.threads[u], k);
    RemoverFinishes(s, t, a, s', k);
    assert u != t && s'.threads[u] == s.threads[u];
    var s1 := RemovalDooms(s', u, k);
    assert s1.threads[t] == s'.threads[t];
    DoomedPanics(s1, t);
    var s2, v :| Leads(s1, s2) && v in s2.threads && s2.threads[v].Panicked?;
    LeadsThen(s', s1, s2);
  }

  /**
   The condition is exact. As long as all steps were careful, the next step may be taken
   without any panic ahead, on careful continuations, iff it is careful too.
   */
  lemma CarefulIff<V(!new)>(s: State<V>, steps: seq<(Tid, Act<V>)>, t: Tid, a: Act<V>, s': State<V>)
    requires CarefulExec(Init<V>(), steps) == Some(s) && Next(s, t, a) == Some(s')
    ensures Careful(s, s') <==> !CanPanic(s')
  {
    InitInv<V>();
    CarefulKeepsCounted(Init<V>(), steps);
    if Careful(s, s') {
      NextKeepsCounted(s, t, a, s');
      if s2, u :| Leads(s', s2) && u in s2.threads && s2.threads[u].Panicked? {
        var more :| CarefulExec(s', more) == Some(s2);
        CarefulKeepsCounted(s', more);
      }
    } else {
      CarelessPanics(s, t, a, s');
    }
  }
}
