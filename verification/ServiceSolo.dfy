/**
 The interleaved service is the sequential one when requests do not overlap
 (internal/services/task_service.go): every undisturbed run of one request's steps
 leaves table and cache as the sequential model says, and Get serves its answer.
 */
module ServiceSolo {
  import opened Prelude
  import opened Domain
  import opened Repository
  import opened ServiceInterleaving
  import Model = ServiceModel

  predicate IsRequest(op: Model.Op) {
    op.Create? || op.Get? || op.Update? || op.Delete?
  }

  function Begin(op: Model.Op): (pc: Pc)
    requires IsRequest(op)
  {
    match op
    case Create(draft, _, _) => CreateInsert(draft)
    case Get(id, _) => GetCache(id)
    case Update(id, params, _, _, _) => UpdateLoad(id, params)
    case Delete(id, _) => DeleteRow(id)
  }

  /** The step meets the ids, clock and faults the request was given. */
  predicate Meets(a: Act, pc: Pc, op: Model.Op) {
    a.Go? &&
    match pc
    case CreateInsert(_) => op.Create? && a.gap == op.gap && a.fault == op.fault
    case GetRow(_) => op.Get? && (a.fault.Healthy? <==> !op.fails)
    case UpdateLoad(_, _) => op.Update? && a.now == op.now && (a.fault.Healthy? <==> !op.fails)
    case UpdateWrite(_, _) => op.Update? && a.fault == op.fault
    case DeleteRow(_) => op.Delete? && a.fault == op.fault
    case _ => true
  }

  function SysOf(s: State): (m: Model.Sys) {
    Model.Sys(s.table, s.cache)
  }

  /** Where table and cache will be when a client at `pc` is done. */
  ghost function Outcome(m: Model.Sys, pc: Pc, op: Model.Op): (r: Model.Sys) {
    match pc
    case CreateInsert(_) => Model.Step(m, op).0
    case UpdateLoad(_, _) => Model.Step(m, op).0
    case DeleteRow(_) => Model.Step(m, op).0
    case UpdateWrite(_, row) =>
      if !op.Update? then m else
        var (t', res) := Change(m.table, row, op.fault);
        Model.Sys(t', if res.Ok? then m.cache[row.id := row]
                      else if res.error.NotFound? then m.cache - {row.id} else m.cache)
    case CacheProbe(row) => m.(cache := m.cache[row.id := row])
    case CacheReplace(row) => m.(cache := m.cache[row.id := row])
    case Evicting(id) => m.(cache := m.cache - {id})
    case _ => m
  }

  /** What Get will serve. */
  ghost function Answer(m: Model.Sys, pc: Pc, op: Model.Op): (r: Option<Model.Response>) {
    match pc
    case GetCache(_) => if op.Get? then Some(Model.Step(m, op).1) else None
    case GetRow(id) => if op.Get? then Some(Model.Task(Find(m.table, id, op.fails))) else None
    case Served(_, answer) => Some(Model.Task(answer))
    case _ => None
  }

  /** The place belongs to the request. */
  predicate Serves(pc: Pc, op: Model.Op) {
    match pc
    case CreateInsert(draft) => op.Create? && op.draft == draft
    case GetCache(id) => op.Get? && op.id == id
    case GetRow(id) => op.Get? && op.id == id
    case Served(id, _) => op.Get? && op.id == id
    case UpdateLoad(id, params) => op.Update? && op.id == id && op.params == params
    case UpdateWrite(_, row) => op.Update? && row.id == op.id
    case DeleteRow(id) => op.Delete? && op.id == id
    case _ => !op.Get?
  }

  ghost predicate Same(s: State, c: Cid, op: Model.Op, s': State) {
    && Serves(PcOf(s', c), op)
    && Outcome(SysOf(s'), PcOf(s', c), op) == Outcome(SysOf(s), PcOf(s, c), op)
    && (op.Get? ==> Answer(SysOf(s'), PcOf(s', c), op) == Answer(SysOf(s), PcOf(s, c), op))
  }

  lemma InsertGoes(s: State, c: Cid, op: Model.Op, a: Act, s': State)
    requires PcOf(s, c).CreateInsert? && Serves(PcOf(s, c), op) && Meets(a, PcOf(s, c), op)
    requires s' == InsertStep(s, c, PcOf(s, c).draft, a.gap, a.fault)
    ensures Same(s, c, op, s')
  {
    var m := SysOf(s);
    if Insert(s.table, op.draft, op.gap, op.fault).1.Ok? { Model.CreateStored(m, op); } else { Model.CreateFailed(m, op); }
  }

  lemma LoadGoes(s: State, c: Cid, op: Model.Op, a: Act, s': State)
    requires TableOk(s.table) && PcOf(s, c).UpdateLoad? && Serves(PcOf(s, c), op) && Meets(a, PcOf(s, c), op)
    requires s' == LoadStep(s, c, PcOf(s, c).id, PcOf(s, c).params, a.now, a.fault)
    ensures Same(s, c, op, s')
  {
    var m := SysOf(s);
    if Model.Patched(s.table, op).Ok? {
      Model.PatchFrame(s.table.rows[op.id], op.params, op.now);
      Model.UpdateWritten(m, op, Model.Patched(s.table, op).value);
    } else {
      Model.UpdateRefused(m, op);
    }
  }

  lemma WriteGoes(s: State, c: Cid, op: Model.Op, a: Act, s': State)
    requires PcOf(s, c).UpdateWrite? && Serves(PcOf(s, c), op) && Meets(a, PcOf(s, c), op)
    requires s' == WriteStep(s, c, PcOf(s, c).row, a.fault)
    ensures Same(s, c, op, s')
  {
  }

  lemma DeleteGoes(s: State, c: Cid, op: Model.Op, a: Act, s': State)
    requires PcOf(s, c).DeleteRow? && Serves(PcOf(s, c), op) && Meets(a, PcOf(s, c), op)
    requires s' == DeleteStep(s, c, PcOf(s, c).id, a.fault)
    ensures Same(s, c, op, s')
  {
    Model.DeleteDone(SysOf(s), op.id, op.fault);
  }

  lemma ReadGoes(s: State, c: Cid, op: Model.Op, a: Act, s': State)
    requires (PcOf(s, c).GetCache? || PcOf(s, c).GetRow?) && Serves(PcOf(s, c), op) && Meets(a, PcOf(s, c), op)
    requires s' == ReadStep(s, c, PcOf(s, c), a.fault)
    ensures Same(s, c, op, s')
  {
  }

  lemma CacheGoesOn(s: State, c: Cid, op: Model.Op, s': State)
    requires (PcOf(s, c).CacheProbe? || PcOf(s, c).CacheReplace? || PcOf(s, c).Evicting?) && Serves(PcOf(s, c), op)
    requires s' == CacheStep(s, c, PcOf(s, c))
    ensures Same(s, c, op, s')
  {
  }

  /** No step of the request changes where it is heading. */
  lemma Goes(s: State, c: Cid, op: Model.Op, a: Act, s': State)
    requires TableOk(s.table) && Serves(PcOf(s, c), op) && Meets(a, PcOf(s, c), op) && a.c == c && Next(s, a) == Some(s')
    ensures Same(s, c, op, s') && TableOk(s'.table)
  {
    var pc := PcOf(s, c);
    if pc.CreateInsert? {
      InsertGoes(s, c, op, a, s');
    } else if pc.UpdateLoad? {
      LoadGoes(s, c, op, a, s');
    } else if pc.UpdateWrite? {
      WriteGoes(s, c, op, a, s');
    } else if pc.DeleteRow? {
      DeleteGoes(s, c, op, a, s');
    } else if pc.GetCache? || pc.GetRow? {
      ReadGoes(s, c, op, a, s');
    } else {
      CacheGoesOn(s, c, op, s');
    }
  }

  /** An undisturbed run of one client's steps under the request's circumstances. */
  ghost predicate SoloRun(states: seq<State>, acts: seq<Act>, c: Cid, op: Model.Op) {
    && Trace(states, acts)
    && forall i :: 0 <= i < |acts| ==> acts[i].Go? && acts[i].c == c && Meets(acts[i], PcOf(states[i], c), op)
  }

  lemma {:induction false} GoesOn(states: seq<State>, acts: seq<Act>, c: Cid, op: Model.Op, j: nat)
    requires SoloRun(states, acts, c, op) && j < |states| && TableOk(states[0].table) && Serves(PcOf(states[0], c), op)
    ensures TableOk(states[j].table) && Same(states[0], c, op, states[j])
  {
    if j > 0 {
      var i := j - 1;
      GoesOn(states, acts, c, op, i);
      assert Next(states[i], acts[i]) == Some(states[i + 1]);
      Goes(states[i], c, op, acts[i], states[j]);
    }
  }

  /** A request that runs undisturbed to its end is the sequential operation: same table, same cache, same answer to Get. */
  lemma SoloRefines(s: State, states: seq<State>, acts: seq<Act>, c: Cid, op: Model.Op)
    requires IsRequest(op) && TableOk(s.table)
    requires SoloRun(states, acts, c, op) && states[0] == At(s, c, Begin(op))
    requires PcOf(states[|acts|], c).Idle? || PcOf(states[|acts|], c).Served?
    ensures SysOf(states[|acts|]) == Model.Step(SysOf(s), op).0
    ensures op.Get? ==> PcOf(states[|acts|], c).Served?
                        && Model.Step(SysOf(s), op).1 == Model.Task(PcOf(states[|acts|], c).answer)
  {
    GoesOn(states, acts, c, op, |acts|);
  }

  /** Whoever else is at work: an update whose row has gone evicts the id. */
  lemma GoneRowIsEvicted(s: State, c: Cid, gap: nat, now: Time)
    requires PcOf(s, c).UpdateWrite? && PcOf(s, c).row.id !in s.table.rows
    ensures var s1 := WriteStep(s, c, PcOf(s, c).row, Healthy);
            && ClientStep(s, c, gap, now, Healthy) == Some(s1) && PcOf(s1, c) == Evicting(PcOf(s, c).row.id)
            && CacheStep(s1, c, PcOf(s1, c)).cache == s.cache - {PcOf(s, c).row.id}
  {
  }

  /** Nobody ever waits: a client may call anything when idle, and otherwise go on under any circumstances. */
  lemma ClientsAreFree(s: State, c: Cid, op: Model.Op, gap: nat, now: Time, fault: Fault)
    requires IsRequest(op)
    ensures if PcOf(s, c).Idle? || PcOf(s, c).Served? then Next(s, Call(c, Begin(op))) == Some(At(s, c, Begin(op)))
            else Next(s, Go(c, gap, now, fault)).Some?
  {
  }
}
