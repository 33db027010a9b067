/**
 The task service on values (internal/services/task_service.go): one operation at
 a time over the table and the cache. `Step` is the service as written, `Ref` the
 same service with no cache. The lemmas compare whole runs of the two.
 */
module ServiceModel {
  import opened Prelude
  import opened KeyOrder
  import opened Domain
  import opened Repository

  datatype Params = Params(name: Option<string>, body: Option<string>, status: Option<string>)

  datatype Sys = Sys(table: Table, cache: map<Key, Row>)

  /** Requests with everything the outside decides: burnt ids, clock readings and faults. */
  datatype Op =
    | Create(draft: Row, gap: nat, fault: Fault)
    | Get(id: Key, fails: bool)
    | List(limit: Key, offset: Key, countFails: bool, listFails: bool)
    | Update(id: Key, params: Params, now: Time, fails: bool, fault: Fault)
    | Delete(id: Key, fault: Fault)
    | Cleanup

  datatype Response =
    | Created(id: Result<Key, Error>)
    | Task(row: Result<Row, Error>)
    | Tasks(page: Result<(seq<Row>, nat), Error>)
    | Deleted(done: Result<(), Error>)
    | Silent

  /** The field assignments and status checks of Update. */
  function Patch(r: Row, p: Params, now: Time): (n: Result<Row, Error>) {
    var r1 := if p.name.Some? then r.(name := p.name.value) else r;
    var r2 := if p.body.Some? then r1.(body := p.body.value) else r1;
    if p.status.None? then Ok(r2.(updatedAt := Some(now)))
    else if !IsValid(p.status.value) then Err(UnknownStatus)
    else if !CanTransitionTo(r2.status, p.status.value) then Err(InvalidTransition)
    else Ok(r2.(status := p.status.value, updatedAt := Some(now)))
  }

  ghost function ListPage(t: Table, limit: Key, offset: Key, countFails: bool, listFails: bool)
    : (r: Result<(seq<Row>, nat), Error>)
  {
    var f := Some(Filter(SORT_ASC, 0, limit, offset));
    if countFails || listFails then Err(DbError)
    else Ok((Execute(t.rows, BuildListQuery(f)), CountRows(t.rows, f)))
  }

  /** The row Update writes, when it gets as far as the UPDATE statement. */
  function Patched(t: Table, op: Op): (r: Result<Row, Error>)
    requires op.Update?
  {
    match Find(t, op.id, op.fails)
    case Err(e) => Err(e)
    case Ok(row) => Patch(row, op.params, op.now)
  }

  /** The service without a cache. */
  ghost function Ref(t: Table, op: Op): (r: (Table, Response)) {
    match op
    case Create(draft, gap, fault) =>
      var (t', res) := Insert(t, draft, gap, fault);
      (t', Created(res))
    case Get(id, fails) => (t, Task(Find(t, id, fails)))
    case List(limit, offset, countFails, listFails) =>
      (t, Tasks(ListPage(t, limit, offset, countFails, listFails)))
    case Update(id, params, now, fails, fault) =>
      (match Patched(t, op)
       case Err(e) => (t, Task(Err(e)))
       case Ok(row) =>
         var (t', res) := Change(t, row, fault);
         (t', Task(if res.Ok? then Ok(row) else Err(res.error))))
    case Delete(id, fault) =>
      var (t', res) := Remove(t, id, fault);
      (t', Deleted(res))
    case Cleanup => (t, Silent)
  }

  ghost function Evicted(cache: map<Key, Row>): (r: map<Key, Row>) {
    Restrict(cache, Largest(cache.Keys, |cache.Keys| - |cache.Keys| / 5))
  }

  /** What the operation does to the cache. */
  ghost function CacheAfter(s: Sys, op: Op): (c: map<Key, Row>) {
    match op
    case Create(draft, gap, fault) =>
      var res := Insert(s.table, draft, gap, fault).1;
      if res.Ok? then s.cache[res.value := draft.(id := res.value)] else s.cache
    case Get(_, _) => s.cache
    case List(_, _, _, _) => s.cache
    case Update(id, params, now, fails, fault) =>
      (match Patched(s.table, op)
       case Err(_) => s.cache
       case Ok(row) =>
         var res := Change(s.table, row, fault).1;
         if res.Ok? then s.cache[row.id := row]
         else if res.error.NotFound? then s.cache - {id}
         else s.cache)
    case Delete(id, fault) =>
      var res := Remove(s.table, id, fault).1;
      if res.Ok? || res.error.NotFound? then s.cache - {id} else s.cache
    case Cleanup => Evicted(s.cache)
  }

  /** The service as written: only Get answers from the cache. */
  ghost function Step(s: Sys, op: Op): (r: (Sys, Response)) {
    var (t', answer) := Ref(s.table, op);
    (Sys(t', CacheAfter(s, op)),
     if op.Get? && op.id in s.cache then Task(Ok(s.cache[op.id])) else answer)
  }

  lemma CreateStored(s: Sys, op: Op)
    requires op.Create? && Insert(s.table, op.draft, op.gap, op.fault).1.Ok?
    ensures var (t', res) := Insert(s.table, op.draft, op.gap, op.fault);
            Step(s, op) == (Sys(t', s.cache[res.value := op.draft.(id := res.value)]), Created(res))
  {
  }

  lemma CreateFailed(s: Sys, op: Op)
    requires op.Create? && Insert(s.table, op.draft, op.gap, op.fault).1.Err?
    ensures var (t', res) := Insert(s.table, op.draft, op.gap, op.fault);
            Step(s, op) == (Sys(t', s.cache), Created(res))
  {
  }

  /** Update's two outcomes, spelled out for its implementation. */
  lemma UpdateRefused(s: Sys, op: Op)
    requires op.Update? && Patched(s.table, op).Err?
    ensures Step(s, op) == (s, Task(Err(Patched(s.table, op).error)))
  {
  }

  lemma UpdateWritten(s: Sys, op: Op, row: Row)
    requires op.Update? && Patched(s.table, op) == Ok(row)
    ensures var (t', res) := Change(s.table, row, op.fault);
            Step(s, op) ==
            (Sys(t', if res.Ok? then s.cache[row.id := row]
                     else if res.error.NotFound? then s.cache - {op.id} else s.cache),
             Task(if res.Ok? then Ok(row) else Err(res.error)))
  {
  }

  lemma CleanupDone(s: Sys)
    ensures Step(s, Cleanup) == (Sys(s.table, Evicted(s.cache)), Silent)
  {
  }

  lemma DeleteDone(s: Sys, id: Key, fault: Fault)
    ensures var (t', res) := Remove(s.table, id, fault);
            Step(s, Delete(id, fault)) ==
            (Sys(t', if res.Ok? || res.error.NotFound? then s.cache - {id} else s.cache), Deleted(res))
  {
  }

  // ---------------------------------------------------------------- cache transparency

  /** Every cached id maps to exactly its table row. */
  ghost predicate Coherent(s: Sys) {
    TableOk(s.table) && forall k :: k in s.cache ==> k in s.table.rows && s.table.rows[k] == s.cache[k]
  }

  /** An acknowledgement of a change to a cached row goes missing. */
  predicate Breaks(s: Sys, op: Op) {
    match op
    case Update(id, _, _, _, fault) =>
      fault.Lost? && id in s.cache && Patched(s.table, op).Ok? && Patched(s.table, op).value != s.cache[id]
    case Delete(id, fault) => fault.Lost? && id in s.cache
    case _ => false
  }

  /** A repository read fault that a cache hit hides. */
  predicate Masks(s: Sys, op: Op) {
    op.Get? && op.fails && op.id in s.cache
  }

  lemma PatchFrame(r: Row, p: Params, now: Time)
    requires Patch(r, p, now).Ok?
    ensures var n := Patch(r, p, now).value;
            n.id == r.id && n.createdAt == r.createdAt && n == Overwrite(r, n)
            && (n.status == r.status || CanTransitionTo(r.status, n.status))
            && n.name == (if p.name.Some? then p.name.value else r.name)
            && n.body == (if p.body.Some? then p.body.value else r.body)
            && n.status == (if p.status.Some? then p.status.value else r.status)
            && n.updatedAt == Some(now)
  {
  }

  /** A patch is refused for its status alone: unknown, or not reachable from the row's. */
  lemma PatchRefused(r: Row, p: Params, now: Time)
    ensures Patch(r, p, now).Ok? <==> p.status.None? || CanTransitionTo(r.status, p.status.value)
    ensures Patch(r, p, now) == Err(UnknownStatus) <==> p.status.Some? && p.status.value !in KNOWN
    ensures Patch(r, p, now) == Err(InvalidTransition) <==>
            p.status.Some? && p.status.value in KNOWN && !CanTransitionTo(r.status, p.status.value)
  {
  }

  lemma UpdateCoherence(s: Sys, op: Op)
    requires Coherent(s) && op.Update?
    ensures Coherent(Step(s, op).0) <==> !Breaks(s, op)
  {
    var s' := Step(s, op).0;
    if Patched(s.table, op).Ok? {
      var row := Patched(s.table, op).value;
      PatchFrame(s.table.rows[op.id], op.params, op.now);
      assert row.id == op.id && op.id in s.table.rows;
      assert Overwrite(s.table.rows[op.id], row) == row;
      if Breaks(s, op) {
        assert s'.table.rows[op.id] == row != s'.cache[op.id];
      }
    } else {
      assert s' == s;
    }
  }

  lemma DeleteCoherence(s: Sys, op: Op)
    requires Coherent(s) && op.Delete?
    ensures Coherent(Step(s, op).0) <==> !Breaks(s, op)
  {
    DeleteDone(s, op.id, op.fault);
    if Breaks(s, op) {
      assert op.id in Step(s, op).0.cache && op.id !in Step(s, op).0.table.rows;
    }
  }

  lemma CreateCoherence(s: Sys, op: Op)
    requires Coherent(s) && op.Create?
    ensures Coherent(Step(s, op).0)
  {
    if Insert(s.table, op.draft, op.gap, op.fault).1.Ok? { CreateStored(s, op); } else { CreateFailed(s, op); }
  }

  lemma CleanupCoherence(s: Sys)
    requires Coherent(s)
    ensures Coherent(Step(s, Cleanup).0)
  {
    CleanupDone(s);
    EvictedFacts(s.cache);
  }

  lemma StepCoherence(s: Sys, op: Op)
    requires Coherent(s)
    ensures Coherent(Step(s, op).0) <==> !Breaks(s, op)
  {
    match op {
      case Create(_, _, _) => CreateCoherence(s, op);
      case Update(_, _, _, _, _) => UpdateCoherence(s, op);
      case Delete(_, _) => DeleteCoherence(s, op);
      case Cleanup => CleanupCoherence(s);
      case _ => assert Step(s, op).0 == s;
    }
  }

  /**
   One operation: the table always moves as without a cache; the answer differs
   exactly when a hit hides a read fault; and the cache stays coherent exactly
   when no acknowledgement of a cached row's change is lost.
   */
  lemma StepTransparent(s: Sys, op: Op)
    requires Coherent(s)
    ensures Step(s, op).0.table == Ref(s.table, op).0
    ensures Step(s, op).1 == Ref(s.table, op).1 <==> !Masks(s, op)
    ensures Masks(s, op) ==> Step(s, op).1 == Ref(s.table, Get(op.id, false)).1
    ensures Coherent(Step(s, op).0) <==> !Breaks(s, op)
  {
    StepCoherence(s, op);
  }

  ghost function Run(s: Sys, ops: seq<Op>): (r: (Sys, seq<Response>))
    ensures |r.1| == |ops|
    decreases |ops|
  {
    if ops == [] then (s, []) else
      var (s1, a) := Step(s, ops[0]);
      var (s2, as_) := Run(s1, ops[1..]);
      (s2, [a] + as_)
  }

  ghost function RefRun(t: Table, ops: seq<Op>): (r: (Table, seq<Response>))
    ensures |r.1| == |ops|
    decreases |ops|
  {
    if ops == [] then (t, []) else
      var (t1, a) := Ref(t, ops[0]);
      var (t2, as_) := RefRun(t1, ops[1..]);
      (t2, [a] + as_)
  }

  /** Faults allowed in the run: any rejected call, and lost acknowledgements of inserts only. */
  predicate NoLostWrite(ops: seq<Op>) {
    forall i :: 0 <= i < |ops| ==>
      (ops[i].Update? || ops[i].Delete? ==> !ops[i].fault.Lost?)
  }

  predicate NoReadFault(ops: seq<Op>) {
    forall i :: 0 <= i < |ops| ==> (ops[i].Get? ==> !ops[i].fails)
  }

  /** Whole runs with evictions anywhere: the cache cannot be told from its absence. */
  lemma {:induction false} CacheTransparency(s: Sys, ops: seq<Op>)
    requires Coherent(s) && NoLostWrite(ops)
    ensures Coherent(Run(s, ops).0)
    ensures Run(s, ops).0.table == RefRun(s.table, ops).0
    ensures NoReadFault(ops) ==> Run(s, ops).1 == RefRun(s.table, ops).1
    ensures forall i :: 0 <= i < |ops| && !(ops[i].Get? && ops[i].fails) ==>
              Run(s, ops).1[i] == RefRun(s.table, ops).1[i]
    decreases |ops|
  {
    if ops != [] {
      StepTransparent(s, ops[0]);
      var s1 := Step(s, ops[0]).0;
      assert !Breaks(s, ops[0]);
      var rest := ops[1..];
      assert NoLostWrite(rest);
      assert NoReadFault(ops) ==> NoReadFault(rest);
      CacheTransparency(s1, rest);
      assert forall i :: 0 < i < |ops| ==> ops[i] == rest[i - 1];
    }
  }

  /** A lost acknowledgement really does leave a stale entry behind. */
  lemma LostDeleteIsServed(r: Row)
    requires r.id == 1
    ensures var s := Sys(Table(map[1 := r], 2), map[1 := r]);
            var ops := [Delete(1, Lost), Get(1, false)];
            && Coherent(s)
            && Run(s, ops).1[1] == Task(Ok(r))
            && RefRun(s.table, ops).1[1] == Task(Err(NotFound))
  {
    var s := Sys(Table(map[1 := r], 2), map[1 := r]);
    var d, g := Delete(1, Lost), Get(1, false);
    var s1 := Step(s, d).0;
    assert s1 == Sys(Table(map[], 2), map[1 := r]);
    assert [d, g][1..] == [g] && [g][1..] == [];
    assert Run(s1, [g]).1 == [Task(Ok(r))];
    assert RefRun(s1.table, [g]).1 == [Task(Err(NotFound))];
  }

  // ---------------------------------------------------------------- what callers are told

  /** The page a caller asked for, told from the table alone: ascending ids, `offset` of them skipped. */
  ghost predicate IsPage(rows: map<Key, Row>, limit: Key, offset: Key, page: seq<Row>, total: nat) {
    && total == |rows|
    && (var rest := if total < offset then 0 else total - offset;
        var most := if limit > 0 then limit else 1000;
        |page| == if rest < most then rest else most)
    && (forall i :: 0 <= i < |page| ==> page[i].id in rows && rows[page[i].id] == page[i])
    && (forall i: nat :: i < |page| ==> |Smaller(rows, page[i].id)| == offset + i)
    && (forall i, j :: 0 <= i < j < |page| ==> page[i].id < page[j].id)
  }

  ghost function Smaller(rows: map<Key, Row>, id: Key): (s: set<Key>) {
    set k | k in rows && k < id
  }

  lemma ListIsPage(t: Table, limit: Key, offset: Key)
    requires TableOk(t)
    ensures var r := ListPage(t, limit, offset, false, false);
            r.Ok? && IsPage(t.rows, limit, offset, r.value.0, r.value.1)
  {
    var f := Some(Filter("asc", 0, limit, offset));
    var page := Execute(t.rows, BuildListQuery(f));
    PageMeaning(t.rows, f);
    assert Wanted(t.rows, f) == t.rows.Keys && |t.rows.Keys| == |t.rows|;
    forall i: nat | i < |page|
      ensures |Smaller(t.rows, page[i].id)| == offset + i && page[i].id in t.rows && t.rows[page[i].id] == page[i]
    {
      assert RowInPlace(t.rows, f, page[i], offset + i);
      assert Ahead(t.rows.Keys, page[i].id, false) == Smaller(t.rows, page[i].id);
    }
    RanksAscend(t.rows, page, offset);
  }

  lemma RanksAscend(rows: map<Key, Row>, page: seq<Row>, offset: nat)
    requires forall i: nat :: i < |page| ==> |Smaller(rows, page[i].id)| == offset + i
    ensures forall i, j :: 0 <= i < j < |page| ==> page[i].id < page[j].id
  {
    forall i: nat, j: nat | i < j < |page| ensures page[i].id < page[j].id {
      if page[j].id <= page[i].id { SubsetSize(Smaller(rows, page[j].id), Smaller(rows, page[i].id)); }
    }
  }

  /** Update's answer, told from the table, the request and the faults. */
  ghost predicate UpdateAnswers(t: Table, id: Key, p: Params, now: Time, fails: bool, fault: Fault, answer: Result<Row, Error>) {
    if fails then answer == Err(DbError)
    else if id !in t.rows then answer == Err(NotFound)
    else
      var row := t.rows[id];
      if p.status.Some? && p.status.value !in KNOWN then answer == Err(UnknownStatus)
      else if p.status.Some? && !CanTransitionTo(row.status, p.status.value) then answer == Err(InvalidTransition)
      else if !fault.Healthy? then answer == Err(DbError)
      else answer == Ok(Row(id, if p.name.Some? then p.name.value else row.name,
                            if p.body.Some? then p.body.value else row.body,
                            if p.status.Some? then p.status.value else row.status,
                            row.createdAt, Some(now)))
  }

  lemma UpdateAnswered(s: Sys, id: Key, p: Params, now: Time, fails: bool, fault: Fault)
    requires TableOk(s.table)
    ensures var answer := Step(s, Update(id, p, now, fails, fault)).1;
            answer.Task? && UpdateAnswers(s.table, id, p, now, fails, fault, answer.row)
  {
    var op := Update(id, p, now, fails, fault);
    if !fails && id in s.table.rows {
      var row := s.table.rows[id];
      PatchRefused(row, p, now);
      if Patch(row, p, now).Ok? {
        PatchFrame(row, p, now);
        UpdateWritten(s, op, Patch(row, p, now).value);
      } else {
        UpdateRefused(s, op);
      }
    } else {
      UpdateRefused(s, op);
    }
  }

  /** The id an acknowledged write was about, and what a read must give from then on. */
  function Afterwards(op: Op, answer: Response): (r: Option<(Key, Result<Row, Error>)>) {
    match op
    case Create(draft, _, _) =>
      if answer.Created? && answer.id.Ok? then Some((answer.id.value, Ok(draft.(id := answer.id.value)))) else None
    case Update(id, _, _, _, _) => if answer.Task? && answer.row.Ok? then Some((id, answer.row)) else None
    case Delete(id, _) =>
      if answer.Deleted? && (answer.done.Ok? || answer.done.error.NotFound?) then Some((id, Err(NotFound))) else None
    case _ => None
  }

  /** Read your writes: a Get right after an acknowledged write answers with it, cached or not. */
  lemma ReadYourWrites(s: Sys, op: Op)
    requires Coherent(s)
    ensures var (s', answer) := Step(s, op);
            Afterwards(op, answer).Some? ==>
              var (id, want) := Afterwards(op, answer).value;
              Step(s', Get(id, false)).1 == Task(want)
  {
    match op {
      case Create(draft, gap, fault) =>
        if Insert(s.table, draft, gap, fault).1.Ok? { CreateStored(s, op); } else { CreateFailed(s, op); }
      case Update(id, params, now, _, fault) =>
        if Patched(s.table, op).Ok? {
          PatchFrame(s.table.rows[id], params, now);
          UpdateWritten(s, op, Patched(s.table, op).value);
        } else {
          UpdateRefused(s, op);
        }
      case Delete(id, fault) => DeleteDone(s, id, fault);
      case _ =>
    }
  }

  // ---------------------------------------------------------------- the suffix invariant

  /** A non-empty cache holds every row from its smallest key on. */
  ghost predicate Suffix(s: Sys) {
    s.cache.Keys != {} ==> forall k :: k in s.table.rows && Min(s.cache.Keys) <= k ==> k in s.cache
  }

  predicate Lossless(op: Op) {
    op.Create? || op.Update? || op.Delete? ==> !op.fault.Lost?
  }

  /** An Update that reaches the cache with an id it does not hold. */
  predicate Reloads(s: Sys, op: Op) {
    op.Update? && op.id !in s.cache && Patched(s.table, op).Ok? && op.fault.Healthy?
  }

  lemma EvictedFacts(cache: map<Key, Row>)
    ensures UpwardClosed(Evicted(cache).Keys, cache.Keys)
    ensures cache.Keys != {} ==> Evicted(cache).Keys != {}
    ensures forall k :: k in Evicted(cache) ==> Evicted(cache)[k] == cache[k]
  {
    var keep := Largest(cache.Keys, |cache.Keys| - |cache.Keys| / 5);
    assert Evicted(cache).Keys == keep;
    assert cache.Keys != {} ==> |keep| > 0;
  }

  /** Suffix is kept by every operation except an Update that reloads an id above a hole. */
  lemma StepSuffix(s: Sys, op: Op)
    requires Coherent(s) && Suffix(s) && Lossless(op)
    ensures Suffix(Step(s, op).0) <==>
            !(Reloads(s, op) && exists k :: k in s.table.rows && k > op.id && k !in s.cache)
  {
    var s' := Step(s, op).0;
    match op {
      case Create(draft, gap, fault) => CreateSuffix(s, op);
      case Update(_, _, _, _, _) => UpdateSuffix(s, op);
      case Delete(id, fault) => DeleteSuffix(s, op);
      case Cleanup =>
        EvictedFacts(s.cache);
        if s'.cache.Keys != {} { assert Min(s'.cache.Keys) in s.cache; }
      case _ => assert s' == s;
    }
  }

  lemma CreateSuffix(s: Sys, op: Op)
    requires Coherent(s) && Suffix(s) && Lossless(op) && op.Create?
    ensures Suffix(Step(s, op).0)
  {
    var s' := Step(s, op).0;
    var res := Insert(s.table, op.draft, op.gap, op.fault).1;
    if res.Ok? {
      assert s'.cache.Keys == s.cache.Keys + {res.value};
      assert s.cache.Keys != {} ==> IsMin(s'.cache.Keys, Min(s.cache.Keys));
      assert s.cache.Keys == {} ==> IsMin(s'.cache.Keys, res.value);
    }
  }

  lemma DeleteSuffix(s: Sys, op: Op)
    requires Coherent(s) && Suffix(s) && Lossless(op) && op.Delete?
    ensures Suffix(Step(s, op).0)
  {
    var s' := Step(s, op).0;
    if !op.fault.Rejected? {
      assert s'.cache.Keys == s.cache.Keys - {op.id};
      if s'.cache.Keys != {} { assert Min(s'.cache.Keys) in s.cache.Keys; }
    }
  }

  lemma UpdateSuffix(s: Sys, op: Op)
    requires Coherent(s) && Suffix(s) && Lossless(op) && op.Update?
    ensures Suffix(Step(s, op).0) <==>
            !(Reloads(s, op) && exists k :: k in s.table.rows && k > op.id && k !in s.cache)
  {
    var s' := Step(s, op).0;
    if Patched(s.table, op).Ok? && op.fault.Healthy? {
      var row := Patched(s.table, op).value;
      PatchFrame(s.table.rows[op.id], op.params, op.now);
      assert s'.cache.Keys == s.cache.Keys + {op.id};
      assert s'.table.rows.Keys == s.table.rows.Keys;
      if op.id in s.cache {
        assert s'.cache.Keys == s.cache.Keys;
      } else {
        // by Suffix, an uncached row lies below every cached one
        assert s.cache.Keys != {} ==> op.id < Min(s.cache.Keys);
        MinUnique(s'.cache.Keys, op.id);
      }
    } else {
      assert s' == s;
    }
  }

  /** The cached rows and the rows below the first key split the table. */
  lemma CachePartitionsTable(s: Sys, limit: Key, offset: Key)
    requires Coherent(s) && Suffix(s) && s.cache.Keys != {}
    ensures var first := Min(s.cache.Keys);
            var below := Filter(SORT_ASC, first, limit, offset);
            && first > 0
            && Bound(BuildListQuery(Some(below))) == Some(first)
            && Selected(s.table.rows, Some(first)) !! s.cache.Keys
            && Selected(s.table.rows, Some(first)) + s.cache.Keys == s.table.rows.Keys
            && CountRows(s.table.rows, Some(below)) + |s.cache| == CountRows(s.table.rows, None)
  {
    var first := Min(s.cache.Keys);
    assert first in s.table.rows;
    var low := Selected(s.table.rows, Some(first));
    assert low !! s.cache.Keys;
    assert low + s.cache.Keys == s.table.rows.Keys;
    assert |low + s.cache.Keys| == |low| + |s.cache.Keys|;
    assert |s.cache.Keys| == |s.cache| && |s.table.rows.Keys| == |s.table.rows|;
  }

  /** Along a run in which Update only touches cached ids, the suffix property never breaks. */
  ghost predicate UpdatesCached(s: Sys, ops: seq<Op>)
    decreases |ops|
  {
    ops == [] || (Lossless(ops[0]) && !Reloads(s, ops[0]) && UpdatesCached(Step(s, ops[0]).0, ops[1..]))
  }

  lemma {:induction false} SuffixRun(s: Sys, ops: seq<Op>)
    requires Coherent(s) && Suffix(s) && UpdatesCached(s, ops)
    ensures Coherent(Run(s, ops).0) && Suffix(Run(s, ops).0)
    decreases |ops|
  {
    if ops != [] {
      StepSuffix(s, ops[0]);
      StepTransparent(s, ops[0]);
      SuffixRun(Step(s, ops[0]).0, ops[1..]);
    }
  }

  // ---------------------------------------------------------------- the pre-fill

  function PrefixSize(rows: seq<Row>, n: nat): (size: nat)
    requires n <= |rows|
  {
    if n == 0 then 0 else PrefixSize(rows, n - 1) + Size(rows[n - 1])
  }

  /** `n` rows fit: their cumulative size stays below the budget, and one more would not. */
  ghost predicate FillsTo(rows: seq<Row>, budget: nat, n: nat) {
    && n <= |rows|
    && (n > 0 ==> PrefixSize(rows, n) < budget)
    && (n < |rows| ==> PrefixSize(rows, n + 1) >= budget)
  }

  lemma {:induction false} PrefixSizeGrows(rows: seq<Row>, m: nat, n: nat)
    requires m < n <= |rows|
    ensures PrefixSize(rows, m) < PrefixSize(rows, n)
  {
    if m < n - 1 { PrefixSizeGrows(rows, m, n - 1); }
  }

  /** The cumulative size is a sum: it starts with the first row's size and adds up over concatenation. */
  lemma {:induction false} PrefixSizeSums(a: seq<Row>, b: seq<Row>, n: nat)
    requires n <= |b|
    ensures PrefixSize(a + b, |a| + n) == PrefixSize(a, |a|) + PrefixSize(b, n)
    ensures n == 1 ==> PrefixSize(b, n) == Size(b[0])
  {
    if n > 0 {
      PrefixSizeSums(a, b, n - 1);
      assert (a + b)[|a| + n - 1] == b[n - 1];
    } else {
      PrefixSizeOf(a, b, |a|);
    }
  }

  lemma {:induction false} PrefixSizeOf(a: seq<Row>, b: seq<Row>, n: nat)
    requires n <= |a|
    ensures PrefixSize(a + b, n) == PrefixSize(a, n)
  {
    if n > 0 {
      PrefixSizeOf(a, b, n - 1);
      assert (a + b)[n - 1] == a[n - 1];
    }
  }

  /** The stopping point is unique: it is the longest prefix below the budget. */
  lemma FillIsLongest(rows: seq<Row>, budget: nat, n: nat, m: nat)
    requires FillsTo(rows, budget, n) && m <= |rows|
    ensures m <= n <==> m == 0 || PrefixSize(rows, m) < budget
  {
    if m < n { PrefixSizeGrows(rows, m, n); }
    if n + 1 < m { PrefixSizeGrows(rows, n + 1, m); }
  }

  ghost function NewestFirst(t: Table): (r: seq<Row>) {
    Execute(t.rows, BuildListQuery(Some(Filter(SORT_DESC, 0, 0, 0))))
  }

  ghost function Filled(rows: seq<Row>, n: nat): (c: map<Key, Row>)
    requires n <= |rows|
  {
    if n == 0 then map[] else Filled(rows, n - 1)[rows[n - 1].id := rows[n - 1]]
  }

  ghost predicate NewestOrder(rows: seq<Row>) {
    forall i, j :: 0 <= i < j < |rows| ==> rows[i].id > rows[j].id
  }

  lemma {:induction false} FilledHas(rows: seq<Row>, n: nat, i: nat)
    requires i < n <= |rows| && NewestOrder(rows)
    ensures rows[i].id in Filled(rows, n) && Filled(rows, n)[rows[i].id] == rows[i]
  {
    if i < n - 1 { FilledHas(rows, n - 1, i); }
  }

  lemma {:induction false} FilledOnly(rows: seq<Row>, n: nat, k: Key) returns (i: nat)
    requires n <= |rows| && k in Filled(rows, n)
    ensures i < n && rows[i].id == k
  {
    if k == rows[n - 1].id { i := n - 1; } else { i := FilledOnly(rows, n - 1, k); }
  }

  lemma FilledEntries(rows: seq<Row>, n: nat)
    requires n <= |rows| && NewestOrder(rows)
    ensures forall k :: k in Filled(rows, n) <==> exists i :: 0 <= i < n && rows[i].id == k
    ensures forall i :: 0 <= i < n ==> Filled(rows, n)[rows[i].id] == rows[i]
  {
    forall i: nat | i < n ensures rows[i].id in Filled(rows, n) && Filled(rows, n)[rows[i].id] == rows[i] {
      FilledHas(rows, n, i);
    }
    forall k | k in Filled(rows, n) ensures exists i :: 0 <= i < n && rows[i].id == k {
      var i := FilledOnly(rows, n, k);
    }
  }

  lemma {:induction false} FilledMin(rows: seq<Row>, n: nat)
    requires 0 < n <= |rows| && NewestOrder(rows)
    ensures IsMin(Filled(rows, n).Keys, rows[n - 1].id)
  {
    if n > 1 { FilledMin(rows, n - 1); }
    assert Filled(rows, n).Keys == Filled(rows, n - 1).Keys + {rows[n - 1].id};
  }

  /** The list behind the fill, without its limit. */
  ghost function AllNewestFirst(t: Table): (r: seq<Row>) {
    Full(t.rows, BuildListQuery(Some(Filter(SORT_DESC, 0, 0, 0))))
  }

  lemma NewestFirstPrefix(t: Table)
    ensures NewestFirst(t) <= AllNewestFirst(t)
  {
  }

  lemma AllNewestFacts(t: Table)
    requires TableOk(t)
    ensures NewestOrder(AllNewestFirst(t))
    ensures forall r :: r in AllNewestFirst(t) ==> r.id in t.rows && t.rows[r.id] == r
  {
    FullIsSelection(t.rows, BuildListQuery(Some(Filter(SORT_DESC, 0, 0, 0))));
  }

  lemma PrefixOrder(list: seq<Row>, all: seq<Row>)
    requires list <= all && NewestOrder(all)
    ensures NewestOrder(list)
  {
    forall i, j | 0 <= i < j < |list| ensures list[i].id > list[j].id {
      assert list[i] == all[i] && list[j] == all[j];
    }
  }

  /** The fill order: newest rows first, ids strictly descending, every one a table row. */
  lemma NewestFirstFacts(t: Table)
    requires TableOk(t)
    ensures NewestOrder(NewestFirst(t))
    ensures forall i :: 0 <= i < |NewestFirst(t)| ==>
              NewestFirst(t)[i].id in t.rows && t.rows[NewestFirst(t)[i].id] == NewestFirst(t)[i]
  {
    var list, all := NewestFirst(t), AllNewestFirst(t);
    AllNewestFacts(t);
    NewestFirstPrefix(t);
    PrefixOrder(list, all);
    forall i | 0 <= i < |list| ensures list[i].id in t.rows && t.rows[list[i].id] == list[i] {
      assert list[i] == all[i];
    }
  }

  /** The fill looks at the thousand newest rows at most. */
  lemma NewestFirstLength(t: Table)
    ensures |NewestFirst(t)| == if |t.rows| < 1000 then |t.rows| else 1000
  {
    PageSize(t.rows, Some(Filter(SORT_DESC, 0, 0, 0)));
  }

  /** No newer row is listed later than an older one. */
  lemma NewerIsEarlier(t: Table, k: Key, i: nat) returns (j: nat)
    requires TableOk(t) && i < |NewestFirst(t)| && k in t.rows && k > NewestFirst(t)[i].id
    ensures j < i && NewestFirst(t)[j].id == k
  {
    var q := BuildListQuery(Some(Filter(SORT_DESC, 0, 0, 0)));
    var full, list := Full(t.rows, q), NewestFirst(t);
    assert list[i] == full[i];
    j := DescPrecedes(t.rows, q, k, i);
    assert list[j] == full[j];
  }

  /** However far the budget reaches, the filled cache agrees with the table and is a suffix of it. */
  lemma FillEstablishes(t: Table, n: nat)
    requires TableOk(t) && n <= |NewestFirst(t)|
    ensures Coherent(Sys(t, Filled(NewestFirst(t), n))) && Suffix(Sys(t, Filled(NewestFirst(t), n)))
    ensures n > 0 ==> Min(Filled(NewestFirst(t), n).Keys) == NewestFirst(t)[n - 1].id
  {
    var list := NewestFirst(t);
    NewestFirstFacts(t);
    FilledEntries(list, n);
    if n > 0 {
      FilledMin(list, n);
      MinUnique(Filled(list, n).Keys, list[n - 1].id);
      forall k | k in t.rows && list[n - 1].id <= k ensures k in Filled(list, n) {
        if k > list[n - 1].id {
          var j := NewerIsEarlier(t, k, n - 1);
        }
      }
    }
  }

  /** The service as it starts, pre-filled under any budget: no run of requests can tell it from one without a cache. */
  lemma StartsTransparent(t: Table, budget: nat, n: nat, ops: seq<Op>)
    requires TableOk(t) && FillsTo(NewestFirst(t), budget, n) && NoLostWrite(ops) && NoReadFault(ops)
    ensures Run(Sys(t, Filled(NewestFirst(t), n)), ops).1 == RefRun(t, ops).1
    ensures Coherent(Run(Sys(t, Filled(NewestFirst(t), n)), ops).0)
  {
    FillEstablishes(t, n);
    CacheTransparency(Sys(t, Filled(NewestFirst(t), n)), ops);
  }
}
