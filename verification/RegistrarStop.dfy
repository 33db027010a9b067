/**
 Registrar.Stop (pkg/background/registrar.go) as interleaved goroutine steps: the
 caller's goroutine, one goroutine per handler of the snapshot, later registrations.
 */
module RegistrarStop {
  import opened Prelude

  /** A stop handler's identity. */
  type Handler = nat

  /** What a handler returns; None is the nil error. */
  type Report = Option<string>

  datatype Pc = Unstarted | Called | Stored(result: Report) | Done(result: Report)

  /** Joined holds the joined errors; [] is nil. */
  datatype Main = Ready | Spawning(next: nat) | Waiting | Joined(errors: seq<string>)

  datatype State = State(
    registered: seq<Handler>, stops: seq<Handler>, pcs: seq<Pc>, errs: seq<Report>, waiting: int, main: Main)

  datatype Action =
    | Register(handler: Handler)
    | Snapshot
    | Spawn
    | Return(i: nat, result: Report)
    | Finish(i: nat)
    | Join

  function Init(registered: seq<Handler>): (s: State) {
    State(registered, [], [], [], 0, Ready)
  }

  /** The non-nil reports, in order. */
  function Errors(errs: seq<Report>): (es: seq<string>) {
    if errs == [] then []
    else (if errs[0].Some? then [errs[0].value] else []) + Errors(errs[1..])
  }

  /** Return is a handler's return together with the write of its own slot, Finish its deferred Done. */
  function Next(s: State, a: Action): (r: Option<State>) {
    match a
    case Register(h) => Some(s.(registered := s.registered + [h]))
    case Snapshot =>
      if !s.main.Ready? then None
      else
        var n := |s.registered|;
        Some(State(s.registered, s.registered, seq(n, _ => Unstarted), seq(n, _ => None), n, Spawning(0)))
    case Spawn =>
      if !s.main.Spawning? then None
      else if s.main.next < |s.pcs| then
        Some(s.(pcs := s.pcs[s.main.next := Called], main := Spawning(s.main.next + 1)))
      else Some(s.(main := Waiting))
    case Return(i, result) =>
      if i < |s.pcs| && i < |s.errs| && s.pcs[i].Called? then
        Some(s.(pcs := s.pcs[i := Stored(result)], errs := s.errs[i := result]))
      else None
    case Finish(i) =>
      if i < |s.pcs| && s.pcs[i].Stored? then
        Some(s.(pcs := s.pcs[i := Done(s.pcs[i].result)], waiting := s.waiting - 1))
      else None
    case Join =>
      if s.main.Waiting? && s.waiting == 0 then Some(s.(main := Joined(Errors(s.errs)))) else None
  }

  function Exec(s: State, acts: seq<Action>): (r: Option<State>)
    decreases |acts|
  {
    if acts == [] then Some(s) else
      match Exec(s, acts[..|acts| - 1])
      case None => None
      case Some(m) => Next(m, acts[|acts| - 1])
  }

  /** The results handler `i` returned in a run, one per call. */
  function Returns(acts: seq<Action>, i: nat): (rs: seq<Report>)
    decreases |acts|
  {
    if acts == [] then [] else
      var a := acts[|acts| - 1];
      Returns(acts[..|acts| - 1], i) + (if a.Return? && a.i == i then [a.result] else [])
  }

  // ---------------------------------------------------------------- the invariant

  ghost function Open(s: State): (r: set<nat>) {
    set i: nat | i < |s.pcs| && !s.pcs[i].Done?
  }

  /** What a goroutine's position says its handler has returned so far. */
  function Yield(pc: Pc): (rs: seq<Report>) {
    if pc.Stored? || pc.Done? then [pc.result] else []
  }

  ghost predicate SlotsOk(s: State) {
    && |s.errs| == |s.pcs|
    && forall i :: 0 <= i < |s.pcs| ==>
         s.errs[i] == if s.pcs[i].Stored? || s.pcs[i].Done? then s.pcs[i].result else None
  }

  ghost predicate MainOk(s: State) {
    match s.main
    case Ready => s.pcs == []
    case Spawning(next) =>
      next <= |s.pcs| && forall i :: 0 <= i < |s.pcs| ==> (s.pcs[i].Unstarted? <==> next <= i)
    case Waiting => true
    case Joined(errors) => errors == Errors(s.errs) && forall i :: 0 <= i < |s.pcs| ==> s.pcs[i].Done?
  }

  ghost predicate Inv(s: State) {
    && |s.pcs| == |s.stops|
    && s.stops <= s.registered
    && s.waiting == |Open(s)|
    && SlotsOk(s) && MainOk(s)
  }

  ghost predicate ReturnsOk(s: State, acts: seq<Action>) {
    && (forall i: nat :: i < |s.pcs| ==> Returns(acts, i) == Yield(s.pcs[i]))
    && (forall i: nat :: i >= |s.pcs| ==> Returns(acts, i) == [])
  }

  lemma {:induction false} AllOpen(s: State, n: nat)
    requires n <= |s.pcs| && forall i :: 0 <= i < n ==> s.pcs[i] == Unstarted
    ensures |set i: nat | i < n && !s.pcs[i].Done?| == n
  {
    if n > 0 {
      AllOpen(s, n - 1);
      assert (set i: nat | i < n && !s.pcs[i].Done?) == (set i: nat | i < n - 1 && !s.pcs[i].Done?) + {n - 1};
    }
  }

  lemma SnapshotKeepsInv(s: State)
    requires Inv(s) && Next(s, Snapshot).Some?
    ensures Inv(Next(s, Snapshot).value)
  {
    var s' := Next(s, Snapshot).value;
    AllOpen(s', |s'.pcs|);
    assert Open(s') == set i: nat | i < |s'.pcs| && !s'.pcs[i].Done?;
  }

  lemma JoinKeepsInv(s: State)
    requires Inv(s) && Next(s, Join).Some?
    ensures Inv(Next(s, Join).value)
  {
    assert Open(Next(s, Join).value) == Open(s) == {};
    assert forall i: nat :: i < |s.pcs| && !s.pcs[i].Done? ==> i in Open(s);
  }

  lemma FinishKeepsInv(s: State, i: nat)
    requires Inv(s) && Next(s, Finish(i)).Some?
    ensures Inv(Next(s, Finish(i)).value)
  {
    var s' := Next(s, Finish(i)).value;
    assert Open(s') == Open(s) - {i} && i in Open(s);
    assert SlotsOk(s');
  }

  lemma WorkKeepsInv(s: State, a: Action)
    requires Inv(s) && (a.Spawn? || a.Return?) && Next(s, a).Some?
    ensures Inv(Next(s, a).value)
  {
    var s' := Next(s, a).value;
    assert Open(s') == Open(s);
    assert SlotsOk(s');
  }

  lemma NextKeepsInv(s: State, a: Action)
    requires Inv(s) && Next(s, a).Some?
    ensures Inv(Next(s, a).value)
  {
    if a.Snapshot? {
      SnapshotKeepsInv(s);
    } else if a.Join? {
      JoinKeepsInv(s);
    } else if a.Finish? {
      FinishKeepsInv(s, a.i);
    } else if a.Register? {
      assert Open(Next(s, a).value) == Open(s);
    } else {
      WorkKeepsInv(s, a);
    }
  }

  lemma ReturnsSnoc(acts: seq<Action>, a: Action, i: nat)
    ensures Returns(acts + [a], i) == Returns(acts, i) + if a.Return? && a.i == i then [a.result] else []
  {
    var all := acts + [a];
    assert all[..|all| - 1] == acts && all[|all| - 1] == a;
  }

  /** What handler `i` has returned, by its goroutine's position. */
  function YieldOf(s: State, i: nat): (rs: seq<Report>) {
    if i < |s.pcs| then Yield(s.pcs[i]) else []
  }

  lemma QuietYield(s: State, a: Action, i: nat)
    requires Inv(s) && Next(s, a).Some? && !a.Return?
    ensures YieldOf(Next(s, a).value, i) == YieldOf(s, i)
  {
  }

  lemma YieldStep(s: State, a: Action, i: nat)
    requires Inv(s) && Next(s, a).Some?
    ensures YieldOf(Next(s, a).value, i) == YieldOf(s, i) + if a.Return? && a.i == i then [a.result] else []
  {
    if !a.Return? { QuietYield(s, a, i); }
  }

  lemma ReturnsStep(s: State, before: seq<Action>, a: Action, acts: seq<Action>, s': State)
    requires Inv(s) && ReturnsOk(s, before) && Next(s, a) == Some(s') && acts == before + [a]
    ensures ReturnsOk(s', acts)
  {
    forall i: nat ensures Returns(acts, i) == YieldOf(s', i) {
      ReturnsSnoc(before, a, i);
      YieldStep(s, a, i);
    }
  }

  lemma {:induction false} ExecKeepsInv(registered: seq<Handler>, acts: seq<Action>)
    requires Exec(Init(registered), acts).Some?
    ensures Inv(Exec(Init(registered), acts).value)
    decreases |acts|
  {
    if acts != [] {
      var before := acts[..|acts| - 1];
      ExecKeepsInv(registered, before);
      NextKeepsInv(Exec(Init(registered), before).value, acts[|acts| - 1]);
    }
  }

  lemma {:induction false} ExecReturns(registered: seq<Handler>, acts: seq<Action>)
    requires Exec(Init(registered), acts).Some?
    ensures ReturnsOk(Exec(Init(registered), acts).value, acts)
    decreases |acts|
  {
    if acts != [] {
      var before, a := acts[..|acts| - 1], acts[|acts| - 1];
      var s, s' := Exec(Init(registered), before).value, Exec(Init(registered), acts).value;
      ExecReturns(registered, before);
      ExecKeepsInv(registered, before);
      ReturnsStep(s, before, a, acts, s');
    }
  }

  lemma ExecInv(registered: seq<Handler>, acts: seq<Action>)
    requires Exec(Init(registered), acts).Some?
    ensures Inv(Exec(Init(registered), acts).value)
    ensures ReturnsOk(Exec(Init(registered), acts).value, acts)
  {
    ExecKeepsInv(registered, acts);
    ExecReturns(registered, acts);
  }

  // ---------------------------------------------------------------- what Stop promises

  /** The result each of the first `n` handlers returned first. */
  function Reports(acts: seq<Action>, n: nat): (rs: seq<Report>)
    ensures |rs| == n
  {
    seq(n, (i: nat) => if Returns(acts, i) == [] then None else Returns(acts, i)[0])
  }

  /** The handlers registered during a run, in order. */
  function Registrations(acts: seq<Action>): (hs: seq<Handler>)
    decreases |acts|
  {
    if acts == [] then [] else
      var a := acts[|acts| - 1];
      Registrations(acts[..|acts| - 1]) + if a.Register? then [a.handler] else []
  }

  /** What the last snapshot of a run took: all that was registered by then. */
  function Taken(registered: seq<Handler>, acts: seq<Action>): (r: Option<seq<Handler>>)
    decreases |acts|
  {
    if acts == [] then None else
      var before := acts[..|acts| - 1];
      if acts[|acts| - 1].Snapshot? then Some(registered + Registrations(before)) else Taken(registered, before)
  }

  ghost predicate SnapshotOk(all: seq<Handler>, taken: Option<seq<Handler>>, s: State) {
    && s.registered == all
    && if taken.None? then s.main.Ready? else !s.main.Ready? && s.stops == taken.value
  }

  lemma SnapshotStep(all: seq<Handler>, taken: Option<seq<Handler>>, s: State, a: Action, s': State)
    requires SnapshotOk(all, taken, s) && Next(s, a) == Some(s')
    ensures SnapshotOk(if a.Register? then all + [a.handler] else all, if a.Snapshot? then Some(all) else taken, s')
  {
  }

  lemma RegistrationsSnoc(registered: seq<Handler>, acts: seq<Action>)
    requires acts != []
    ensures var a, before := acts[|acts| - 1], acts[..|acts| - 1];
            registered + Registrations(acts)
            == if a.Register? then registered + Registrations(before) + [a.handler] else registered + Registrations(before)
  {
  }

  lemma {:induction false} ExecSnapshot(registered: seq<Handler>, acts: seq<Action>)
    requires Exec(Init(registered), acts).Some?
    ensures SnapshotOk(registered + Registrations(acts), Taken(registered, acts), Exec(Init(registered), acts).value)
    decreases |acts|
  {
    if acts == [] {
      assert registered + [] == registered;
    } else {
      var before, a := acts[..|acts| - 1], acts[|acts| - 1];
      ExecSnapshot(registered, before);
      RegistrationsSnoc(registered, acts);
      SnapshotStep(registered + Registrations(before), Taken(registered, before),
                   Exec(Init(registered), before).value, a, Exec(Init(registered), acts).value);
    }
  }

  /** A run takes one snapshot, so it is the one at any place `k`. */
  lemma {:induction false} TakenAt(registered: seq<Handler>, acts: seq<Action>, k: nat)
    requires Exec(Init(registered), acts).Some? && k < |acts| && acts[k].Snapshot?
    ensures Taken(registered, acts) == Some(registered + Registrations(acts[..k]))
    decreases |acts|
  {
    var n := |acts| - 1;
    if k < n {
      var before := acts[..n];
      assert before[k] == acts[k] && before[..k] == acts[..k];
      TakenAt(registered, before, k);
      ExecSnapshot(registered, before);
    }
  }

  /** The moment a run took its snapshot. */
  ghost predicate SnapshotAt(acts: seq<Action>, k: nat) {
    k < |acts| && acts[k].Snapshot?
  }

  /**
   In every run, when Stop has returned, every handler registered up to its snapshot has
   returned exactly once and no other has, and the joined errors are the non-nil results
   in registration order.
   */
  lemma StopJoinsAll(registered: seq<Handler>, acts: seq<Action>)
    requires Exec(Init(registered), acts).Some? && Exec(Init(registered), acts).value.main.Joined?
    ensures exists k :: SnapshotAt(acts, k)
    ensures forall k: nat :: SnapshotAt(acts, k) ==>
              var s, all := Exec(Init(registered), acts).value, registered + Registrations(acts[..k]);
              && s.stops == all
              && (forall i: nat :: |Returns(acts, i)| == if i < |all| then 1 else 0)
              && s.main.errors == Errors(Reports(acts, |all|))
  {
    var s := Exec(Init(registered), acts).value;
    ExecInv(registered, acts);
    ExecSnapshot(registered, acts);
    JoinedReports(acts, s);
    var k := TakenSomewhere(registered, acts);
    forall k: nat | SnapshotAt(acts, k) ensures Taken(registered, acts) == Some(registered + Registrations(acts[..k])) {
      TakenAt(registered, acts, k);
    }
  }

  lemma {:induction false} TakenSomewhere(registered: seq<Handler>, acts: seq<Action>) returns (k: nat)
    requires Taken(registered, acts).Some?
    ensures SnapshotAt(acts, k)
    decreases |acts|
  {
    k := |acts| - 1;
    if !acts[k].Snapshot? { k := TakenSomewhere(registered, acts[..|acts| - 1]); }
  }

  lemma JoinedReports(acts: seq<Action>, s: State)
    requires Inv(s) && ReturnsOk(s, acts) && s.main.Joined?
    ensures forall i: nat :: |Returns(acts, i)| == if i < |s.stops| then 1 else 0
    ensures s.main.errors == Errors(Reports(acts, |s.stops|))
  {
    var rs := Reports(acts, |s.stops|);
    forall i: nat | i < |s.errs| ensures s.errs[i] == rs[i] {
      assert Returns(acts, i) == Yield(s.pcs[i]);
    }
    assert s.errs == rs;
  }

  /** Completion order does not matter: runs in which the handlers return alike are joined alike. */
  lemma JoinIsOrderFree(ra: seq<Handler>, a: seq<Action>, rb: seq<Handler>, b: seq<Action>)
    requires Exec(Init(ra), a).Some? && Exec(Init(ra), a).value.main.Joined?
    requires Exec(Init(rb), b).Some? && Exec(Init(rb), b).value.main.Joined?
    requires forall i: nat :: Returns(a, i) == Returns(b, i)
    ensures Exec(Init(ra), a).value.main == Exec(Init(rb), b).value.main
  {
    var n, m := |Exec(Init(ra), a).value.stops|, |Exec(Init(rb), b).value.stops|;
    ExecInv(ra, a);
    ExecInv(rb, b);
    JoinedReports(a, Exec(Init(ra), a).value);
    JoinedReports(b, Exec(Init(rb), b).value);
    assert |Returns(a, n)| == 0 && |Returns(b, m)| == 0;
    assert n == m;
    assert Reports(a, n) == Reports(b, m);
  }

  /** Handlers are free to return anything, and no step but the join ever waits. */
  lemma HandlersAreFree(registered: seq<Handler>, acts: seq<Action>, i: nat, result: Report, h: Handler)
    requires Exec(Init(registered), acts).Some?
    ensures var s := Exec(Init(registered), acts).value;
            && Next(s, Register(h)).Some?
            && (s.main.Ready? ==> Next(s, Snapshot).Some?) && (s.main.Spawning? ==> Next(s, Spawn).Some?)
            && (i < |s.pcs| && s.pcs[i].Called? ==>
                  Next(s, Return(i, result)).Some? && Next(s, Return(i, result)).value.pcs[i] == Stored(result))
            && (i < |s.pcs| && s.pcs[i].Stored? ==> Next(s, Finish(i)).Some?)
  {
    ExecKeepsInv(registered, acts);
  }

  /** Join can pass exactly when every handler is done. */
  lemma JoinWaitsForAll(registered: seq<Handler>, acts: seq<Action>)
    requires Exec(Init(registered), acts).Some? && Exec(Init(registered), acts).value.main.Waiting?
    ensures var s := Exec(Init(registered), acts).value;
            Next(s, Join).Some? <==> forall i :: 0 <= i < |s.pcs| ==> s.pcs[i].Done?
  {
    var s := Exec(Init(registered), acts).value;
    ExecInv(registered, acts);
    if Open(s) == {} {
      assert forall i: nat :: i < |s.pcs| && !s.pcs[i].Done? ==> i in Open(s);
    } else {
      var i :| i in Open(s);
      assert !s.pcs[i].Done?;
    }
  }

  lemma {:induction false} ErrorsAppend(a: seq<Report>, b: seq<Report>)
    ensures Errors(a + b) == Errors(a) + Errors(b)
    decreases |a|
  {
    if a == [] {
      assert a + b == b;
    } else {
      assert (a + b)[1..] == a[1..] + b;
      ErrorsAppend(a[1..], b);
    }
  }

  /** The slots before `n` that hold an error. */
  ghost function Failed(errs: seq<Report>, n: nat): (r: set<nat>)
    requires n <= |errs|
  {
    set i: nat | i < n && errs[i].Some?
  }

  lemma ErrorsSnoc(errs: seq<Report>, n: nat)
    requires 0 < n <= |errs|
    ensures |Errors(errs[..n])| == |Errors(errs[..n - 1])| + if errs[n - 1].Some? then 1 else 0
  {
    assert errs[..n] == errs[..n - 1] + [errs[n - 1]];
    ErrorsAppend(errs[..n - 1], [errs[n - 1]]);
    ErrorsOfOne(errs[n - 1]);
  }

  /** As many errors as slots that hold one. */
  lemma {:induction false} ErrorCount(errs: seq<Report>, n: nat)
    requires n <= |errs|
    ensures |Errors(errs[..n])| == |Failed(errs, n)|
  {
    if n > 0 {
      ErrorCount(errs, n - 1);
      ErrorsSnoc(errs, n);
      assert Failed(errs, n) == Failed(errs, n - 1) + if errs[n - 1].Some? then {n - 1} else {};
    }
  }

  lemma ErrorsOfOne(r: Report)
    ensures Errors([r]) == if r.Some? then [r.value] else []
  {
    assert [r][1..] == [];
  }

  /** The join has one error per failed handler, each at the number of failed handlers registered before it. */
  lemma ErrorPlace(errs: seq<Report>, i: nat)
    requires i < |errs| && errs[i].Some?
    ensures |Errors(errs)| == |Failed(errs, |errs|)| && |Failed(errs, i)| < |Errors(errs)|
    ensures Errors(errs)[|Failed(errs, i)|] == errs[i].value
  {
    ErrorCount(errs, i);
    ErrorCount(errs, |errs|);
    assert errs[..|errs|] == errs;
    assert errs == errs[..i] + errs[i..];
    ErrorsAppend(errs[..i], errs[i..]);
    assert Errors(errs[i..])[0] == errs[i].value;
  }

  /** Stop answers nil iff every handler did. */
  lemma {:induction false} NoErrors(errs: seq<Report>)
    ensures Errors(errs) == [] <==> forall i :: 0 <= i < |errs| ==> errs[i].None?
  {
    if errs != [] {
      NoErrors(errs[1..]);
      assert forall i :: 0 < i < |errs| ==> errs[i] == errs[1..][i - 1];
    }
  }
}
