/**
 Registrar.Run (pkg/background/registrar.go) as interleaved goroutine steps:
 the caller's goroutine, one goroutine per job of the snapshot, registrations and
 cancellation from anywhere. `sent` and `received` only record what happened.
 */
module RegistrarRun {
  import opened Prelude

  /** A job's identity. */
  type Job = nat

  /** What a job returns; None is the nil error. */
  type Report = Option<string>

  datatype Pc = Unstarted | Working | Finished(result: Report) | Reported(result: Report)

  datatype Main = Ready | Spawning(next: nat) | Selecting | Returned(result: Report)

  datatype State = State(
    registered: seq<Job>, jobs: seq<Job>, pcs: seq<Pc>, channel: seq<Report>, capacity: nat,
    cancelled: bool, main: Main, sent: seq<(nat, Report)>, received: nat)

  datatype Action =
    | Register(job: Job)
    | Cancel
    | Snapshot
    | Spawn
    | Finish(i: nat, result: Report)
    | Send(i: nat)
    | ReturnCancelled
    | Receive

  function Init(registered: seq<Job>): (s: State) {
    State(registered, [], [], [], 0, false, Ready, [], 0)
  }

  /** None: the step cannot be taken, its goroutine is blocked or elsewhere. */
  function Next(s: State, a: Action): (r: Option<State>) {
    match a
    case Register(job) => Some(s.(registered := s.registered + [job]))
    case Cancel => Some(s.(cancelled := true))
    case Snapshot =>
      if !s.main.Ready? then None
      else Some(s.(jobs := s.registered, pcs := seq(|s.registered|, _ => Unstarted),
                   capacity := |s.registered|, main := Spawning(0)))
    case Spawn =>
      if !s.main.Spawning? then None
      else if s.main.next < |s.pcs| then
        Some(s.(pcs := s.pcs[s.main.next := Working], main := Spawning(s.main.next + 1)))
      else Some(s.(main := Selecting))
    case Finish(i, result) =>
      if i < |s.pcs| && s.pcs[i].Working? then Some(s.(pcs := s.pcs[i := Finished(result)])) else None
    case Send(i) =>
      if i < |s.pcs| && s.pcs[i].Finished? && |s.channel| < s.capacity then
        var result := s.pcs[i].result;
        Some(s.(pcs := s.pcs[i := Reported(result)], channel := s.channel + [result], sent := s.sent + [(i, result)]))
      else None
    case ReturnCancelled =>
      if s.main.Selecting? && s.cancelled then Some(s.(main := Returned(None))) else None
    case Receive =>
      if s.main.Selecting? && s.channel != [] then
        Some(s.(main := Returned(s.channel[0]), channel := s.channel[1..], received := s.received + 1))
      else None
  }

  function Exec(s: State, acts: seq<Action>): (r: Option<State>)
    decreases |acts|
  {
    if acts == [] then Some(s) else
      match Exec(s, acts[..|acts| - 1])
      case None => None
      case Some(m) => Next(m, acts[|acts| - 1])
  }

  ghost predicate Reachable(s: State) {
    exists registered, acts :: Exec(Init(registered), acts) == Some(s)
  }

  // ---------------------------------------------------------------- the invariant

  ghost function Unreported(s: State): (r: set<nat>) {
    set i: nat | i < |s.pcs| && !s.pcs[i].Reported?
  }

  /** Every send is the result of a job that has reported. */
  ghost predicate LogOk(s: State) {
    forall k :: 0 <= k < |s.sent| ==> s.sent[k].0 < |s.pcs| && s.pcs[s.sent[k].0] == Reported(s.sent[k].1)
  }

  /** The channel holds what was sent and not received, oldest first. */
  ghost predicate ChannelOk(s: State) {
    && s.received + |s.channel| == |s.sent|
    && forall k :: 0 <= k < |s.channel| ==> s.channel[k] == s.sent[s.received + k].1
  }

  ghost predicate AllStarted(s: State) {
    forall i :: 0 <= i < |s.pcs| ==> !s.pcs[i].Unstarted?
  }

  ghost predicate MainOk(s: State) {
    match s.main
    case Ready => s.pcs == [] && s.received == 0
    case Spawning(next) =>
      s.received == 0 && next <= |s.pcs| && forall i :: 0 <= i < |s.pcs| ==> (s.pcs[i].Unstarted? <==> next <= i)
    case Selecting => s.received == 0 && AllStarted(s)
    case Returned(result) =>
      && AllStarted(s)
      && if s.received == 0 then s.cancelled && result == None
      else s.received == 1 <= |s.sent| && result == s.sent[0].1
  }

  ghost predicate Inv(s: State) {
    && |s.pcs| == |s.jobs| == s.capacity
    && s.jobs <= s.registered
    && |s.sent| + |Unreported(s)| == |s.pcs|
    && LogOk(s) && ChannelOk(s) && MainOk(s)
  }

  lemma SendKeepsLog(s: State, i: nat, s': State)
    requires LogOk(s) && Next(s, Send(i)) == Some(s')
    ensures LogOk(s')
  {
    forall k | 0 <= k < |s'.sent|
      ensures s'.sent[k].0 < |s'.pcs| && s'.pcs[s'.sent[k].0] == Reported(s'.sent[k].1)
    {
      if k < |s.sent| { assert s'.sent[k] == s.sent[k] && s.sent[k].0 != i; }
    }
  }

  lemma SendKeepsChannel(s: State, i: nat, s': State)
    requires ChannelOk(s) && Next(s, Send(i)) == Some(s')
    ensures ChannelOk(s')
  {
    forall k | 0 <= k < |s'.channel| ensures s'.channel[k] == s'.sent[s'.received + k].1 {
      if k < |s.channel| { assert s'.channel[k] == s.channel[k] && s'.sent[s.received + k] == s.sent[s.received + k]; }
    }
  }

  lemma SendKeepsInv(s: State, i: nat)
    requires Inv(s) && Next(s, Send(i)).Some?
    ensures Inv(Next(s, Send(i)).value)
  {
    var s' := Next(s, Send(i)).value;
    SendKeepsLog(s, i, s');
    SendKeepsChannel(s, i, s');
    assert Unreported(s') == Unreported(s) - {i};
    assert i in Unreported(s);
  }

  lemma {:induction false} AllUnreported(s: State, n: nat)
    requires n <= |s.pcs| && forall i :: 0 <= i < n ==> s.pcs[i] == Unstarted
    ensures |set i: nat | i < n && !s.pcs[i].Reported?| == n
  {
    if n > 0 {
      AllUnreported(s, n - 1);
      assert (set i: nat | i < n && !s.pcs[i].Reported?)
          == (set i: nat | i < n - 1 && !s.pcs[i].Reported?) + {n - 1};
    }
  }

  lemma SnapshotKeepsInv(s: State)
    requires Inv(s) && Next(s, Snapshot).Some?
    ensures Inv(Next(s, Snapshot).value)
  {
    var s' := Next(s, Snapshot).value;
    AllUnreported(s', |s'.pcs|);
    assert Unreported(s') == set i: nat | i < |s'.pcs| && !s'.pcs[i].Reported?;
    assert s.sent == [];
  }

  /** Starting or finishing a job changes no report. */
  lemma WorkKeepsReports(s: State, i: nat, pc: Pc, s': State)
    requires Inv(s) && i < |s.pcs| && !s.pcs[i].Reported? && !pc.Reported?
    requires s'.pcs == s.pcs[i := pc] && s'.sent == s.sent && s'.channel == s.channel && s'.received == s.received
    ensures LogOk(s') && ChannelOk(s') && |s'.sent| + |Unreported(s')| == |s'.pcs|
  {
    assert Unreported(s') == Unreported(s);
  }

  lemma SpawnKeepsInv(s: State)
    requires Inv(s) && Next(s, Spawn).Some?
    ensures Inv(Next(s, Spawn).value)
  {
    var s' := Next(s, Spawn).value;
    if s.main.next < |s.pcs| {
      WorkKeepsReports(s, s.main.next, Working, s');
    } else {
      assert Unreported(s') == Unreported(s);
    }
  }

  lemma FinishKeepsInv(s: State, i: nat, result: Report)
    requires Inv(s) && Next(s, Finish(i, result)).Some?
    ensures Inv(Next(s, Finish(i, result)).value)
  {
    WorkKeepsReports(s, i, Finished(result), Next(s, Finish(i, result)).value);
  }

  lemma ReceiveKeepsInv(s: State)
    requires Inv(s) && Next(s, Receive).Some?
    ensures Inv(Next(s, Receive).value)
  {
    assert Unreported(Next(s, Receive).value) == Unreported(s);
  }

  lemma OutsideKeepsInv(s: State, a: Action)
    requires Inv(s) && (a.Register? || a.Cancel? || a.ReturnCancelled?) && Next(s, a).Some?
    ensures Inv(Next(s, a).value)
  {
    assert Unreported(Next(s, a).value) == Unreported(s);
  }

  lemma NextKeepsInv(s: State, a: Action)
    requires Inv(s) && Next(s, a).Some?
    ensures Inv(Next(s, a).value)
  {
    match a {
      case Send(i) => SendKeepsInv(s, i);
      case Snapshot => SnapshotKeepsInv(s);
      case Spawn => SpawnKeepsInv(s);
      case Finish(i, result) => FinishKeepsInv(s, i, result);
      case Receive => ReceiveKeepsInv(s);
      case _ => OutsideKeepsInv(s, a);
    }
  }

  lemma {:induction false} ExecKeepsInv(s: State, acts: seq<Action>)
    requires Inv(s) && Exec(s, acts).Some?
    ensures Inv(Exec(s, acts).value)
    decreases |acts|
  {
    if acts != [] {
      var n := |acts| - 1;
      ExecKeepsInv(s, acts[..n]);
      NextKeepsInv(Exec(s, acts[..n]).value, acts[n]);
    }
  }

  lemma ReachableInv(s: State)
    requires Reachable(s)
    ensures Inv(s)
  {
    var registered, acts :| Exec(Init(registered), acts) == Some(s);
    ExecKeepsInv(Init(registered), acts);
  }

  // ---------------------------------------------------------------- the snapshot

  /** The jobs registered during a run, in order. */
  function Registrations(acts: seq<Action>): (js: seq<Job>)
    decreases |acts|
  {
    if acts == [] then [] else
      var a := acts[|acts| - 1];
      Registrations(acts[..|acts| - 1]) + if a.Register? then [a.job] else []
  }

  /** What the last snapshot of a run took: all that was registered by then. */
  function Taken(registered: seq<Job>, acts: seq<Action>): (r: Option<seq<Job>>)
    decreases |acts|
  {
    if acts == [] then None else
      var before := acts[..|acts| - 1];
      if acts[|acts| - 1].Snapshot? then Some(registered + Registrations(before)) else Taken(registered, before)
  }

  ghost predicate SnapshotOk(all: seq<Job>, taken: Option<seq<Job>>, s: State) {
    && s.registered == all
    && if taken.None? then s.main.Ready? else !s.main.Ready? && s.jobs == taken.value
  }

  lemma SnapshotStep(all: seq<Job>, taken: Option<seq<Job>>, s: State, a: Action, s': State)
    requires SnapshotOk(all, taken, s) && Next(s, a) == Some(s')
    ensures SnapshotOk(if a.Register? then all + [a.job] else all, if a.Snapshot? then Some(all) else taken, s')
  {
  }

  lemma RegistrationsSnoc(registered: seq<Job>, acts: seq<Action>)
    requires acts != []
    ensures var a, before := acts[|acts| - 1], acts[..|acts| - 1];
            registered + Registrations(acts)
            == if a.Register? then registered + Registrations(before) + [a.job] else registered + Registrations(before)
  {
  }

  lemma {:induction false} ExecSnapshot(registered: seq<Job>, acts: seq<Action>)
    requires Exec(Init(registered), acts).Some?
    ensures SnapshotOk(registered + Registrations(acts), Taken(registered, acts), Exec(Init(registered), acts).value)
    decreases |acts|
  {
    if acts == [] {
      assert registered + [] == registered;
    } else {
      var before, a := acts[..|acts| - 1], acts[|acts| - 1];
      ExecSnapshot(registered, before);
      RegistrationsSnoc(registered, acts);
      SnapshotStep(registered + Registrations(before), Taken(registered, before),
                   Exec(Init(registered), before).value, a, Exec(Init(registered), acts).value);
    }
  }

  /** A run takes one snapshot, so it is the one at any place `k`. */
  lemma {:induction false} TakenAt(registered: seq<Job>, acts: seq<Action>, k: nat)
    requires Exec(Init(registered), acts).Some? && k < |acts| && acts[k].Snapshot?
    ensures Taken(registered, acts) == Some(registered + Registrations(acts[..k]))
    decreases |acts|
  {
    var n := |acts| - 1;
    if k < n {
      var before := acts[..n];
      assert before[k] == acts[k] && before[..k] == acts[..k];
      TakenAt(registered, before, k);
      ExecSnapshot(registered, before);
    }
  }

  /**
   Run takes every job registered up to its snapshot, none registered later, and has
   started each of them once it waits or has returned.
   */
  lemma RunStartsAll(registered: seq<Job>, acts: seq<Action>, k: nat)
    requires Exec(Init(registered), acts).Some? && k < |acts| && acts[k].Snapshot?
    ensures var s, all := Exec(Init(registered), acts).value, registered + Registrations(acts[..k]);
            && s.jobs == all && |s.pcs| == |all| == s.capacity
            && (s.main.Selecting? || s.main.Returned? ==> forall i :: 0 <= i < |all| ==> !s.pcs[i].Unstarted?)
  {
    ExecSnapshot(registered, acts);
    TakenAt(registered, acts, k);
    assert Inv(Init(registered)) by { assert Unreported(Init(registered)) == {}; }
    ExecKeepsInv(Init(registered), acts);
  }

  // ---------------------------------------------------------------- no send ever blocks

  /** Conservation: queued, received and still to come add up to the snapshot. */
  lemma Occupancy(s: State)
    requires Reachable(s)
    ensures |s.channel| + s.received + |Unreported(s)| == s.capacity == |s.jobs|
  {
    ReachableInv(s);
  }

  /** A finished job can always hand in its result, whether or not Run has returned. */
  lemma SendNeverBlocks(s: State, i: nat)
    requires Reachable(s) && i < |s.pcs| && s.pcs[i].Finished?
    ensures Next(s, Send(i)).Some?
  {
    Occupancy(s);
    assert i in Unreported(s);
  }

  // ---------------------------------------------------------------- what Run returns

  /** Run answers nil on cancellation, else with the very first report, nil or not. */
  lemma RunResult(s: State)
    requires Reachable(s) && s.main.Returned?
    ensures s.received == 0 ==> s.cancelled && s.main.result == None
    ensures s.received != 0 ==>
              && s.sent != [] && s.sent[0].0 < |s.jobs| == |s.pcs|
              && s.pcs[s.sent[0].0] == Reported(s.main.result)
              && s.channel == seq(|s.sent| - 1, (k: nat) requires k < |s.sent| - 1 => s.sent[k + 1].1)
    ensures !s.cancelled ==> s.sent != [] && s.main.result == s.sent[0].1
  {
    ReachableInv(s);
  }

  /** Each arm of the select is open on its own terms: so the caller waits exactly while nothing is reported and nobody cancels. */
  lemma RunWaitsIff(s: State)
    requires Reachable(s) && s.main.Selecting?
    ensures Next(s, ReturnCancelled).Some? <==> s.cancelled
    ensures Next(s, Receive).Some? <==> exists i :: 0 <= i < |s.pcs| && s.pcs[i].Reported?
  {
    ReachableInv(s);
    if s.sent != [] { assert s.pcs[s.sent[0].0].Reported?; }
    AllOrSome(s);
  }

  /** Jobs are free: they may be registered at any time, cancelled at any time, and return anything. */
  lemma JobsAreFree(s: State, i: nat, result: Report, job: Job)
    requires Reachable(s)
    ensures Next(s, Register(job)).Some? && Next(s, Cancel).Some? && Next(s, Cancel).value.cancelled
    ensures i < |s.pcs| && s.pcs[i].Working? ==>
              Next(s, Finish(i, result)).Some? && Next(s, Finish(i, result)).value.pcs[i] == Finished(result)
    ensures s.main.Ready? ==> Next(s, Snapshot).Some?
    ensures s.main.Spawning? ==> Next(s, Spawn).Some?
  {
    ReachableInv(s);
  }

  lemma AllOrSome(s: State)
    requires |s.sent| + |Unreported(s)| == |s.pcs|
    ensures s.sent == [] ==> forall i :: 0 <= i < |s.pcs| ==> !s.pcs[i].Reported?
  {
    if s.sent == [] {
      var all := Below(|s.pcs|);
      SubsetSize(Unreported(s), all);
      forall i | 0 <= i < |s.pcs| ensures !s.pcs[i].Reported? { assert i in all; }
    }
  }

  ghost function Below(n: nat): (r: set<nat>)
    ensures |r| == n && forall i: nat :: i in r <==> i < n
  {
    if n == 0 then {} else Below(n - 1) + {n - 1}
  }

  // ---------------------------------------------------------------- witnesses

  lemma ExecSnoc(s: State, acts: seq<Action>, a: Action)
    requires Exec(s, acts).Some?
    ensures Exec(s, acts + [a]) == Next(Exec(s, acts).value, a)
  {
    assert (acts + [a])[..|acts|] == acts;
  }

  lemma Reach(s: State, a: Action, s': State)
    requires Reachable(s) && Next(s, a) == Some(s')
    ensures Reachable(s')
  {
    var registered, acts :| Exec(Init(registered), acts) == Some(s);
    ExecSnoc(Init(registered), acts, a);
    assert Exec(Init(registered), acts + [a]) == Some(s');
  }

  /** The first `k` jobs of the snapshot are working. */
  function Started(jobs: seq<Job>, k: nat): (s: State) {
    State(jobs, jobs, seq(|jobs|, i => if i < k then Working else Unstarted), [], |jobs|, false, Spawning(k), [], 0)
  }

  lemma {:induction false} StartedReachable(jobs: seq<Job>, k: nat)
    requires k <= |jobs|
    ensures Reachable(Started(jobs, k))
  {
    if k == 0 {
      var s := Init(jobs);
      assert Exec(s, []) == Some(s);
      assert seq(|jobs|, i => if i < 0 then Working else Unstarted) == seq(|jobs|, _ => Unstarted);
      Reach(s, Snapshot, Started(jobs, 0));
    } else {
      StartedReachable(jobs, k - 1);
      assert Started(jobs, k - 1).pcs[k - 1 := Working] == Started(jobs, k).pcs;
      Reach(Started(jobs, k - 1), Spawn, Started(jobs, k));
    }
  }

  /** Run was cancelled and has returned; the first `k` jobs have reported since. */
  function Abandoned(jobs: seq<Job>, k: nat): (s: State) {
    State(jobs, jobs, seq(|jobs|, i => if i < k then Reported(None) else Working), seq(k, _ => None), |jobs|,
          true, Returned(None), seq(k, (i: nat) => (i, None)), 0)
  }

  lemma AbandonedStart(jobs: seq<Job>)
    ensures Reachable(Abandoned(jobs, 0))
  {
    var n := |jobs|;
    var s := Started(jobs, n);
    StartedReachable(jobs, n);
    var s1 := s.(main := Selecting);
    Reach(s, Spawn, s1);
    var s2 := s1.(cancelled := true);
    Reach(s1, Cancel, s2);
    var s3 := s2.(main := Returned(None));
    Reach(s2, ReturnCancelled, s3);
    assert s3.pcs == Abandoned(jobs, 0).pcs;
    assert s3 == Abandoned(jobs, 0);
  }

  lemma {:induction false} AbandonedReachable(jobs: seq<Job>, k: nat)
    requires k <= |jobs|
    ensures Reachable(Abandoned(jobs, k))
  {
    if k == 0 {
      AbandonedStart(jobs);
    } else {
      AbandonedReachable(jobs, k - 1);
      var s, t := Abandoned(jobs, k - 1), Abandoned(jobs, k);
      var s1 := s.(pcs := s.pcs[k - 1 := Finished(None)]);
      Reach(s, Finish(k - 1, None), s1);
      assert s1.pcs[k - 1 := Reported(None)] == t.pcs;
      assert s1.channel + [None] == t.channel;
      assert s1.sent + [(k - 1, None)] == t.sent;
      Reach(s1, Send(k - 1), t);
    }
  }

  /** The capacity is no larger than it must be: after Run has left, every slot can be in use. */
  lemma CapacityIsNeeded(jobs: seq<Job>)
    ensures exists s :: Reachable(s) && s.jobs == jobs && s.main.Returned? && |s.channel| == s.capacity == |jobs|
  {
    AbandonedReachable(jobs, |jobs|);
    assert Reachable(Abandoned(jobs, |jobs|));
  }

  /** A job that returns nil ends Run with nil: nobody cancelled, and the other job is still at work. */
  lemma NilReportEndsRun()
    ensures exists s :: Reachable(s) && s.main == Returned(None) && !s.cancelled && |s.pcs| == 2 && s.pcs[1] == Working
  {
    var jobs := [0, 1];
    StartedReachable(jobs, 2);
    var s := Started(jobs, 2);
    var s1 := s.(main := Selecting);
    Reach(s, Spawn, s1);
    var s2 := s1.(pcs := [Finished(None), Working]);
    assert s1.pcs[0] == Working && s1.pcs[0 := Finished(None)] == [Finished(None), Working];
    Reach(s1, Finish(0, None), s2);
    NilReceived(s2);
  }

  lemma NilReceived(s: State)
    requires Reachable(s) && s.main.Selecting? && !s.cancelled && s.capacity == 2
    requires s.pcs == [Finished(None), Working] && s.channel == [] && s.sent == [] && s.received == 0
    ensures exists s' :: Reachable(s') && s'.main == Returned(None) && !s'.cancelled && |s'.pcs| == 2 && s'.pcs[1] == Working
  {
    var s1 := s.(pcs := [Reported(None), Working], channel := [None], sent := [(0, None)]);
    assert s.pcs[0 := Reported(None)] == s1.pcs && [] + [None] == s1.channel && [] + [(0, None)] == s1.sent;
    Reach(s, Send(0), s1);
    var s2 := s1.(main := Returned(None), channel := [], received := 1);
    assert s1.channel[1..] == [];
    Reach(s1, Receive, s2);
    assert s2.pcs[1] == Working;
  }
}
