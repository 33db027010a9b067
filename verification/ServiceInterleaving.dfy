/**
 The service under full interleaving (internal/services/task_service.go): any
 number of clients, every repository call and every cache access its own step,
 and evictions at any moment. `past` is auxiliary: all rows an id ever had.
 */
module ServiceInterleaving {
  import opened Prelude
  import opened Domain
  import opened Repository
  import Model = ServiceModel

  type Cid = nat

  datatype Pc =
    | Idle
    | CreateInsert(draft: Row)
    | GetCache(id: Key)
    | GetRow(id: Key)
    | Served(id: Key, answer: Result<Row, Error>)
    | UpdateLoad(id: Key, params: Model.Params)
    | UpdateWrite(loaded: Row, row: Row)
    | DeleteRow(id: Key)
    // cache.Store of a created or updated task: LoadOrStore, then Store if it was present
    | CacheProbe(row: Row)
    | CacheReplace(row: Row)
    // cache.Delete after a delete, or after an update that found no row
    | Evicting(id: Key)

  datatype State = State(table: Table, cache: map<Key, Row>, past: map<Key, set<Row>>, clients: map<Cid, Pc>)

  datatype Act =
    | Call(c: Cid, pc: Pc)
    | Go(c: Cid, gap: nat, now: Time, fault: Fault)
    | Evict(key: Key)

  predicate IsCall(pc: Pc) {
    pc.CreateInsert? || pc.GetCache? || pc.UpdateLoad? || pc.DeleteRow?
  }

  function PcOf(s: State, c: Cid): (pc: Pc) {
    if c in s.clients then s.clients[c] else Idle
  }

  function Past(s: State, k: Key): (rows: set<Row>) {
    if k in s.past then s.past[k] else {}
  }

  function Recorded(s: State, k: Key, r: Row): (past: map<Key, set<Row>>) {
    s.past[k := Past(s, k) + {r}]
  }

  function At(s: State, c: Cid, pc: Pc): (s': State) {
    s.(clients := s.clients[c := pc])
  }

  /** The table has this very row under `k`. */
  predicate Holds(t: Table, row: Row, k: Key := row.id) {
    k in t.rows && t.rows[k] == row
  }

  // ---------------------------------------------------------------- the steps

  function InsertStep(s: State, c: Cid, draft: Row, gap: nat, fault: Fault): (s': State) {
    var (t', res) := Insert(s.table, draft, gap, fault);
    var id := s.table.nextId + gap;
    var row := draft.(id := id);
    At(s.(table := t', past := if id in t'.rows then Recorded(s, id, row) else s.past), c,
       if res.Ok? then CacheProbe(row) else Idle)
  }

  function LoadStep(s: State, c: Cid, id: Key, params: Model.Params, now: Time, fault: Fault): (s': State) {
    match Find(s.table, id, !fault.Healthy?)
    case Err(_) => At(s, c, Idle)
    case Ok(row) =>
      match Model.Patch(row, params, now)
      case Err(_) => At(s, c, Idle)
      case Ok(row') => At(s, c, UpdateWrite(row, row'))
  }

  function WriteStep(s: State, c: Cid, row: Row, fault: Fault): (s': State) {
    var (t', res) := Change(s.table, row, fault);
    At(s.(table := t', past := if row.id in t'.rows then Recorded(s, row.id, t'.rows[row.id]) else s.past), c,
       if res.Ok? then CacheProbe(row) else if res.error.NotFound? then Evicting(row.id) else Idle)
  }

  function DeleteStep(s: State, c: Cid, id: Key, fault: Fault): (s': State) {
    var (t', res) := Remove(s.table, id, fault);
    At(s.(table := t'), c, if res.Ok? || res.error.NotFound? then Evicting(id) else Idle)
  }

  function ReadStep(s: State, c: Cid, pc: Pc, fault: Fault): (s': State)
    requires pc.GetCache? || pc.GetRow?
  {
    if pc.GetCache? then
      At(s, c, if pc.id in s.cache then Served(pc.id, Ok(s.cache[pc.id])) else GetRow(pc.id))
    else At(s, c, Served(pc.id, Find(s.table, pc.id, !fault.Healthy?)))
  }

  function CacheStep(s: State, c: Cid, pc: Pc): (s': State)
    requires pc.CacheProbe? || pc.CacheReplace? || pc.Evicting?
  {
    if pc.Evicting? then At(s.(cache := s.cache - {pc.id}), c, Idle)
    else if pc.CacheProbe? && pc.row.id in s.cache then At(s, c, CacheReplace(pc.row))
    else At(s.(cache := s.cache[pc.row.id := pc.row]), c, Idle)
  }

  function ClientStep(s: State, c: Cid, gap: nat, now: Time, fault: Fault): (r: Option<State>) {
    match PcOf(s, c)
    case Idle => None
    case Served(_, _) => None
    case CreateInsert(draft) => Some(InsertStep(s, c, draft, gap, fault))
    case GetCache(_) => Some(ReadStep(s, c, PcOf(s, c), fault))
    case GetRow(_) => Some(ReadStep(s, c, PcOf(s, c), fault))
    case UpdateLoad(id, params) => Some(LoadStep(s, c, id, params, now, fault))
    case UpdateWrite(_, row) => Some(WriteStep(s, c, row, fault))
    case DeleteRow(id) => Some(DeleteStep(s, c, id, fault))
    case CacheProbe(_) => Some(CacheStep(s, c, PcOf(s, c)))
    case CacheReplace(_) => Some(CacheStep(s, c, PcOf(s, c)))
    case Evicting(_) => Some(CacheStep(s, c, PcOf(s, c)))
  }

  function Next(s: State, a: Act): (r: Option<State>) {
    match a
    case Call(c, pc) =>
      if (PcOf(s, c).Idle? || PcOf(s, c).Served?) && IsCall(pc) then Some(At(s, c, pc)) else None
    case Go(c, gap, now, fault) => ClientStep(s, c, gap, now, fault)
    case Evict(key) => Some(s.(cache := s.cache - {key}))
  }

  ghost predicate Trace(states: seq<State>, acts: seq<Act>) {
    |states| == |acts| + 1 && forall i :: 0 <= i < |acts| ==> Next(states[i], acts[i]) == Some(states[i + 1])
  }

  /** The service comes up with a cache that agrees with the table and no client. */
  ghost predicate Initial(s: State) {
    && Model.Coherent(Model.Sys(s.table, s.cache))
    && s.past == (map k | k in s.table.rows :: {s.table.rows[k]})
    && s.clients == map[]
  }

  // ---------------------------------------------------------------- provenance

  /** All rows an id ever had carry that id and one creation time; unissued ids have none. */
  ghost predicate PastOk(s: State, k: Key) {
    && (Past(s, k) != {} ==> k < s.table.nextId)
    && (forall r :: r in Past(s, k) ==> r.id == k)
    && (forall r, q :: r in Past(s, k) && q in Past(s, k) ==> r.createdAt == q.createdAt)
  }

  ghost predicate PcOk(s: State, pc: Pc) {
    match pc
    case CacheProbe(row) => row in Past(s, row.id)
    case CacheReplace(row) => row in Past(s, row.id)
    case UpdateWrite(loaded, row) =>
      loaded in Past(s, row.id) && loaded.id == row.id && loaded.createdAt == row.createdAt
    case Served(id, answer) => answer.Ok? ==> answer.value in Past(s, id)
    case _ => true
  }

  ghost predicate Inv(s: State) {
    && TableOk(s.table)
    && (forall k :: PastOk(s, k))
    && (forall k :: k in s.table.rows ==> s.table.rows[k] in Past(s, k))
    && (forall k :: k in s.cache ==> s.cache[k] in Past(s, k))
    && (forall c :: c in s.clients ==> PcOk(s, s.clients[c]))
  }

  /** The past only grows. */
  ghost predicate Grows(s: State, s': State) {
    forall k, r :: r in Past(s, k) ==> r in Past(s', k)
  }

  lemma GrowsOk(s: State, s': State, pc: Pc)
    requires Grows(s, s') && PcOk(s, pc)
    ensures PcOk(s', pc)
  {
  }

  /** Steps that leave table and past alone. */
  lemma QuietKeepsInv(s: State, s': State, c: Cid)
    requires Inv(s) && s'.table == s.table && s'.past == s.past
    requires forall k :: k in s'.cache ==> s'.cache[k] in Past(s, k)
    requires forall d :: d in s'.clients && d != c ==> d in s.clients && s'.clients[d] == s.clients[d]
    requires c in s'.clients ==> PcOk(s, s'.clients[c])
    ensures Inv(s')
  {
    forall k ensures PastOk(s', k) { assert PastOk(s, k); }
    forall d | d in s'.clients ensures PcOk(s', s'.clients[d]) {
      if d != c { assert PcOk(s, s.clients[d]); }
    }
  }

  /** A row enters the table under `k`: fresh, or with the creation time its id always had. */
  lemma RecordKeepsPast(s: State, s': State, k: Key, row: Row)
    requires Inv(s) && s'.past == Recorded(s, k, row) && s.table.nextId <= s'.table.nextId
    requires row.id == k < s'.table.nextId
    requires forall r :: r in Past(s, k) ==> r.createdAt == row.createdAt
    ensures (forall j :: PastOk(s', j)) && Grows(s, s') && row in Past(s', k)
  {
    forall j ensures PastOk(s', j) { assert PastOk(s, j); }
  }

  lemma InsertKeepsInv(s: State, c: Cid, gap: nat, fault: Fault)
    requires Inv(s) && PcOf(s, c).CreateInsert?
    ensures Inv(InsertStep(s, c, PcOf(s, c).draft, gap, fault))
  {
    var draft := PcOf(s, c).draft;
    var s' := InsertStep(s, c, draft, gap, fault);
    var id := s.table.nextId + gap;
    var row := draft.(id := id);
    assert id !in s.table.rows;
    if id in s'.table.rows {
      assert PastOk(s, id);
      RecordKeepsPast(s, s', id, row);
      forall d | d in s'.clients ensures PcOk(s', s'.clients[d]) {
        if d != c { GrowsOk(s, s', s.clients[d]); }
      }
    } else {
      QuietKeepsInv(s, s', c);
    }
  }

  lemma WriteKeepsInv(s: State, c: Cid, fault: Fault)
    requires Inv(s) && PcOf(s, c).UpdateWrite?
    ensures Inv(WriteStep(s, c, PcOf(s, c).row, fault))
  {
    var UpdateWrite(loaded, row) := PcOf(s, c);
    var s' := WriteStep(s, c, row, fault);
    assert PcOk(s, PcOf(s, c)) && PastOk(s, row.id);
    if row.id in s.table.rows {
      var was := s.table.rows[row.id];
      assert was.createdAt == row.createdAt;
      assert Overwrite(was, row) == row;
      var now_ := s'.table.rows[row.id];
      RecordKeepsPast(s, s', row.id, now_);
      forall d | d in s'.clients ensures PcOk(s', s'.clients[d]) {
        if d != c { GrowsOk(s, s', s.clients[d]); }
      }
    } else {
      QuietKeepsInv(s, s', c);
    }
  }

  lemma LoadKeepsInv(s: State, c: Cid, now: Time, fault: Fault)
    requires Inv(s) && PcOf(s, c).UpdateLoad?
    ensures Inv(LoadStep(s, c, PcOf(s, c).id, PcOf(s, c).params, now, fault))
  {
    var UpdateLoad(id, params) := PcOf(s, c);
    var s' := LoadStep(s, c, id, params, now, fault);
    if id in s.table.rows && Model.Patch(s.table.rows[id], params, now).Ok? {
      Model.PatchFrame(s.table.rows[id], params, now);
    }
    QuietKeepsInv(s, s', c);
  }

  lemma DeleteKeepsInv(s: State, c: Cid, fault: Fault)
    requires Inv(s) && PcOf(s, c).DeleteRow?
    ensures Inv(DeleteStep(s, c, PcOf(s, c).id, fault))
  {
    var s' := DeleteStep(s, c, PcOf(s, c).id, fault);
    forall k ensures PastOk(s', k) { assert PastOk(s, k); }
    forall d | d in s'.clients ensures PcOk(s', s'.clients[d]) {
      if d != c { GrowsOk(s, s', s.clients[d]); }
    }
  }

  lemma ReadKeepsInv(s: State, c: Cid, fault: Fault)
    requires Inv(s) && (PcOf(s, c).GetCache? || PcOf(s, c).GetRow?)
    ensures Inv(ReadStep(s, c, PcOf(s, c), fault))
  {
    QuietKeepsInv(s, ReadStep(s, c, PcOf(s, c), fault), c);
  }

  lemma CacheKeepsInv(s: State, c: Cid)
    requires Inv(s) && (PcOf(s, c).CacheProbe? || PcOf(s, c).CacheReplace? || PcOf(s, c).Evicting?)
    ensures Inv(CacheStep(s, c, PcOf(s, c)))
  {
    assert PcOk(s, s.clients[c]);
    QuietKeepsInv(s, CacheStep(s, c, PcOf(s, c)), c);
  }

  lemma ClientKeepsInv(s: State, c: Cid, gap: nat, now: Time, fault: Fault)
    requires Inv(s) && ClientStep(s, c, gap, now, fault).Some?
    ensures Inv(ClientStep(s, c, gap, now, fault).value)
  {
    var pc := PcOf(s, c);
    if pc.CreateInsert? {
      InsertKeepsInv(s, c, gap, fault);
    } else if pc.UpdateWrite? {
      WriteKeepsInv(s, c, fault);
    } else if pc.UpdateLoad? {
      LoadKeepsInv(s, c, now, fault);
    } else if pc.DeleteRow? {
      DeleteKeepsInv(s, c, fault);
    } else if pc.GetCache? || pc.GetRow? {
      ReadKeepsInv(s, c, fault);
    } else {
      CacheKeepsInv(s, c);
    }
  }

  lemma NextKeepsInv(s: State, a: Act)
    requires Inv(s) && Next(s, a).Some?
    ensures Inv(Next(s, a).value)
  {
    match a {
      case Call(c, pc) => QuietKeepsInv(s, Next(s, a).value, c);
      case Evict(key) => QuietKeepsInv(s, Next(s, a).value, 0);
      case Go(c, gap, now, fault) => ClientKeepsInv(s, c, gap, now, fault);
    }
  }

  lemma InitialInv(s: State)
    requires Initial(s)
    ensures Inv(s)
  {
  }

  lemma {:induction false} TraceInv(states: seq<State>, acts: seq<Act>, j: nat)
    requires Trace(states, acts) && Initial(states[0]) && j < |states|
    ensures Inv(states[j])
  {
    if j == 0 {
      InitialInv(states[0]);
    } else {
      var i := j - 1;
      TraceInv(states, acts, i);
      assert Next(states[i], acts[i]) == Some(states[i + 1]);
      NextKeepsInv(states[i], acts[i]);
    }
  }

  lemma InsertPast(s: State, c: Cid, draft: Row, gap: nat, fault: Fault, k: Key, row: Row)
    requires TableOk(s.table) && row in Past(InsertStep(s, c, draft, gap, fault), k)
    ensures row in Past(s, k) || Holds(InsertStep(s, c, draft, gap, fault).table, row, k)
  {
  }

  lemma WritePast(s: State, c: Cid, written: Row, fault: Fault, k: Key, row: Row)
    requires row in Past(WriteStep(s, c, written, fault), k)
    ensures row in Past(s, k) || Holds(WriteStep(s, c, written, fault).table, row, k)
  {
  }

  lemma PastStep(s: State, a: Act, s': State, k: Key, row: Row)
    requires TableOk(s.table) && Next(s, a) == Some(s') && row in Past(s', k)
    ensures row in Past(s, k) || Holds(s'.table, row, k)
  {
    if a.Go? && PcOf(s, a.c).CreateInsert? {
      InsertPast(s, a.c, PcOf(s, a.c).draft, a.gap, a.fault, k, row);
    } else if a.Go? && PcOf(s, a.c).UpdateWrite? {
      WritePast(s, a.c, PcOf(s, a.c).row, a.fault, k, row);
    } else {
      assert s'.past == s.past;
    }
  }

  /** The auxiliary past is what it claims: each of its rows was in the table at some moment. */
  lemma {:induction false} PastWasHeld(states: seq<State>, acts: seq<Act>, j: nat, k: Key, row: Row) returns (i: nat)
    requires Trace(states, acts) && Initial(states[0]) && j < |states| && row in Past(states[j], k)
    ensures i <= j && k in states[i].table.rows && states[i].table.rows[k] == row
  {
    i := j;
    if j > 0 {
      var m := j - 1;
      TraceInv(states, acts, m);
      assert Next(states[m], acts[m]) == Some(states[m + 1]);
      PastStep(states[m], acts[m], states[j], k, row);
      if row in Past(states[j - 1], k) { i := PastWasHeld(states, acts, j - 1, k, row); }
    }
  }

  /** Whatever Get serves for an id was exactly that id's row at some moment of the run. */
  lemma Provenance(states: seq<State>, acts: seq<Act>, j: nat, c: Cid) returns (i: nat)
    requires Trace(states, acts) && Initial(states[0]) && j < |states|
    requires PcOf(states[j], c).Served? && PcOf(states[j], c).answer.Ok?
    ensures var Served(id, answer) := PcOf(states[j], c);
            i <= j && id in states[i].table.rows && states[i].table.rows[id] == answer.value
  {
    TraceInv(states, acts, j);
    var Served(id, answer) := PcOf(states[j], c);
    assert PcOk(states[j], PcOf(states[j], c));
    i := PastWasHeld(states, acts, j, id, answer.value);
  }

  // ---------------------------------------------------------------- coherence

  /** About to put a row into the cache. */
  predicate Storing(pc: Pc) {
    pc.CacheProbe? || pc.CacheReplace?
  }

  /** The id whose table row and cache entry may differ while this client is on its way. */
  function Dirty(pc: Pc): (id: Option<Key>) {
    if Storing(pc) then Some(pc.row.id) else if pc.Evicting? then Some(pc.id) else None
  }

  ghost predicate Clean(s: State, k: Key) {
    forall c :: c in s.clients ==> Dirty(s.clients[c]) != Some(k)
  }

  /** The step changes no table row that some client has written and not yet cached. */
  ghost predicate Undisturbed(s: State, s': State) {
    forall c :: c in s.clients && Storing(s.clients[c]) && Holds(s.table, s.clients[c].row) ==>
      Holds(s'.table, s.clients[c].row)
  }

  /** Acknowledged or rejected, but no change of a row is lost. */
  predicate Acknowledged(s: State, a: Act) {
    a.Go? && (PcOf(s, a.c).UpdateWrite? || PcOf(s, a.c).DeleteRow?) ==> !a.fault.Lost?
  }

  ghost predicate Tidy(s: State, a: Act, s': State) {
    Next(s, a) == Some(s') && Acknowledged(s, a) && Undisturbed(s, s')
  }

  /** Stores in flight carry the table's row, and clean entries are the table's. */
  ghost predicate Settled(s: State) {
    && Inv(s)
    && (forall c :: c in s.clients && Storing(s.clients[c]) ==> Holds(s.table, s.clients[c].row))
    && (forall k :: k in s.cache && Clean(s, k) ==> k in s.table.rows && s.table.rows[k] == s.cache[k])
  }

  /** Only client `c` moves; it may change table row and cache entry of `x`, and stays dirty on `x` unless they agree. */
  ghost predicate Touches(s: State, c: Cid, x: Key, s': State) {
    && c in s'.clients && s'.clients == s.clients[c := s'.clients[c]]
    && (forall k :: k != x && k in s.table.rows ==> k in s'.table.rows && s'.table.rows[k] == s.table.rows[k])
    && (forall k :: k != x && k in s'.cache ==> k in s.cache && s'.cache[k] == s.cache[k])
    && (Storing(s'.clients[c]) ==> Holds(s'.table, s'.clients[c].row))
    && (Dirty(PcOf(s, c)) == None || Dirty(PcOf(s, c)) == Some(x))
    && (x in s'.cache && Clean(s', x) ==> x in s'.table.rows && s'.table.rows[x] == s'.cache[x])
  }

  lemma CleanBefore(s: State, c: Cid, x: Key, s': State, k: Key)
    requires Touches(s, c, x, s') && k != x && Clean(s', k)
    ensures Clean(s, k)
  {
    forall d | d in s.clients ensures Dirty(s.clients[d]) != Some(k) {
      if d != c { assert s'.clients[d] == s.clients[d]; }
    }
  }

  lemma TouchKeepsSettled(s: State, c: Cid, x: Key, s': State)
    requires Settled(s) && Inv(s') && Touches(s, c, x, s') && Undisturbed(s, s')
    ensures Settled(s')
  {
    forall d | d in s'.clients && Storing(s'.clients[d]) ensures Holds(s'.table, s'.clients[d].row) {
      if d != c { assert s'.clients[d] == s.clients[d]; }
    }
    forall k | k in s'.cache && Clean(s', k) ensures k in s'.table.rows && s'.table.rows[k] == s'.cache[k] {
      if k != x { CleanBefore(s, c, x, s', k); }
    }
  }

  /** Steps that change neither table nor cache. */
  lemma SameKeepsSettled(s: State, c: Cid, s': State)
    requires Settled(s) && Inv(s') && s'.table == s.table && s'.cache == s.cache
    requires c in s'.clients && s'.clients == s.clients[c := s'.clients[c]]
    requires Dirty(PcOf(s, c)) == None || Dirty(PcOf(s, c)) == Dirty(s'.clients[c])
    requires Storing(s'.clients[c]) ==> Holds(s.table, s'.clients[c].row)
    ensures Settled(s')
  {
    forall d | d in s'.clients && Storing(s'.clients[d]) ensures Holds(s'.table, s'.clients[d].row) {
      if d != c { assert s'.clients[d] == s.clients[d]; }
    }
    forall k | k in s'.cache && Clean(s', k) ensures k in s'.table.rows && s'.table.rows[k] == s'.cache[k] {
      forall d | d in s.clients ensures Dirty(s.clients[d]) != Some(k) {
        assert s'.clients[d] == s.clients[d] || d == c;
      }
      assert Clean(s, k);
    }
  }

  /** A fresh id is neither in the table nor in the cache. */
  lemma FreshId(s: State, gap: nat)
    requires Inv(s)
    ensures s.table.nextId + gap !in s.table.rows && s.table.nextId + gap !in s.cache
  {
    var x := s.table.nextId + gap;
    assert PastOk(s, x);
  }

  lemma InsertSettled(s: State, c: Cid, gap: nat, fault: Fault, s': State)
    requires Settled(s) && Inv(s') && Undisturbed(s, s') && PcOf(s, c).CreateInsert?
    requires s' == InsertStep(s, c, PcOf(s, c).draft, gap, fault)
    ensures Settled(s')
  {
    FreshId(s, gap);
    InsertTouches(s, c, gap, fault, s');
    TouchKeepsSettled(s, c, s.table.nextId + gap, s');
  }

  lemma InsertTouches(s: State, c: Cid, gap: nat, fault: Fault, s': State)
    requires PcOf(s, c).CreateInsert? && s' == InsertStep(s, c, PcOf(s, c).draft, gap, fault)
    requires s.table.nextId + gap !in s.table.rows && s.table.nextId + gap !in s.cache
    ensures Touches(s, c, s.table.nextId + gap, s')
  {
  }

  /** An update always writes the row it was going to cache: the creation time cannot differ. */
  lemma WrittenAsLoaded(s: State, c: Cid)
    requires Inv(s) && PcOf(s, c).UpdateWrite?
    ensures var row := PcOf(s, c).row;
            row.id in s.table.rows ==> Overwrite(s.table.rows[row.id], row) == row
  {
    var row := PcOf(s, c).row;
    assert PcOk(s, s.clients[c]) && PastOk(s, row.id);
  }

  lemma WriteSettled(s: State, c: Cid, fault: Fault, s': State)
    requires Settled(s) && Inv(s') && Undisturbed(s, s') && !fault.Lost? && PcOf(s, c).UpdateWrite?
    requires s' == WriteStep(s, c, PcOf(s, c).row, fault)
    ensures Settled(s')
  {
    var row := PcOf(s, c).row;
    WrittenAsLoaded(s, c);
    if fault.Rejected? {
      SameKeepsSettled(s, c, s');
    } else {
      assert Dirty(s'.clients[c]) == Some(row.id);
      assert !Clean(s', row.id);
      TouchKeepsSettled(s, c, row.id, s');
    }
  }

  lemma DeleteSettled(s: State, c: Cid, fault: Fault, s': State)
    requires Settled(s) && Inv(s') && Undisturbed(s, s') && !fault.Lost? && PcOf(s, c).DeleteRow?
    requires s' == DeleteStep(s, c, PcOf(s, c).id, fault)
    ensures Settled(s')
  {
    if fault.Rejected? {
      SameKeepsSettled(s, c, s');
    } else {
      assert Dirty(s'.clients[c]) == Some(PcOf(s, c).id);
      assert !Clean(s', PcOf(s, c).id);
      TouchKeepsSettled(s, c, PcOf(s, c).id, s');
    }
  }

  lemma StoreSettled(s: State, c: Cid, s': State)
    requires Settled(s) && Inv(s') && c in s.clients && Storing(s.clients[c]) && s' == CacheStep(s, c, s.clients[c])
    ensures Settled(s')
  {
    var pc := s.clients[c];
    assert Holds(s.table, pc.row);
    if s'.clients[c].CacheReplace? {
      SameKeepsSettled(s, c, s');
    } else {
      assert s'.cache == s.cache[pc.row.id := pc.row];
      TouchKeepsSettled(s, c, pc.row.id, s');
    }
  }

  lemma CacheSettled(s: State, c: Cid, s': State)
    requires Settled(s) && Inv(s') && Dirty(PcOf(s, c)).Some? && s' == CacheStep(s, c, PcOf(s, c))
    ensures Settled(s')
  {
    if Storing(PcOf(s, c)) { StoreSettled(s, c, s'); } else { TouchKeepsSettled(s, c, PcOf(s, c).id, s'); }
  }

  lemma LoadSettled(s: State, c: Cid, now: Time, fault: Fault, s': State)
    requires Settled(s) && Inv(s') && PcOf(s, c).UpdateLoad?
    requires s' == LoadStep(s, c, PcOf(s, c).id, PcOf(s, c).params, now, fault)
    ensures Settled(s')
  {
    SameKeepsSettled(s, c, s');
  }

  lemma EvictSettled(s: State, key: Key, s': State)
    requires Settled(s) && Inv(s') && s' == s.(cache := s.cache - {key})
    ensures Settled(s')
  {
    forall k | k in s'.cache && Clean(s', k) ensures k in s'.table.rows && s'.table.rows[k] == s'.cache[k] {
      assert Clean(s, k);
    }
  }

  lemma GoSettled(s: State, a: Act, s': State)
    requires Settled(s) && Inv(s') && Tidy(s, a, s') && a.Go?
    ensures Settled(s')
  {
    var pc := PcOf(s, a.c);
    if pc.CreateInsert? {
      InsertSettled(s, a.c, a.gap, a.fault, s');
    } else if pc.UpdateWrite? {
      WriteSettled(s, a.c, a.fault, s');
    } else if pc.UpdateLoad? {
      LoadSettled(s, a.c, a.now, a.fault, s');
    } else if pc.DeleteRow? {
      DeleteSettled(s, a.c, a.fault, s');
    } else if pc.GetCache? || pc.GetRow? {
      SameKeepsSettled(s, a.c, s');
    } else {
      CacheSettled(s, a.c, s');
    }
  }

  lemma NextSettled(s: State, a: Act, s': State)
    requires Settled(s) && Tidy(s, a, s')
    ensures Settled(s')
  {
    NextKeepsInv(s, a);
    match a {
      case Call(c, pc) => SameKeepsSettled(s, c, s');
      case Evict(key) => EvictSettled(s, key, s');
      case Go(_, _, _, _) => GoSettled(s, a, s');
    }
  }

  ghost function TidyExec(s: State, acts: seq<Act>): (r: Option<State>)
    decreases |acts|
  {
    if acts == [] then Some(s) else
      var s1 := Next(s, acts[0]);
      if s1.None? || !Tidy(s, acts[0], s1.value) then None else TidyExec(s1.value, acts[1..])
  }

  lemma InitialSettled(s: State)
    requires Initial(s)
    ensures Settled(s)
  {
    InitialInv(s);
  }

  lemma {:induction false} TidySettled(s: State, acts: seq<Act>)
    requires Settled(s) && TidyExec(s, acts).Some?
    ensures Settled(TidyExec(s, acts).value)
    decreases |acts|
  {
    if acts != [] {
      var s1 := Next(s, acts[0]).value;
      NextSettled(s, acts[0], s1);
      TidySettled(s1, acts[1..]);
    }
  }

  /** No client is between its table write and its last cache access. */
  ghost predicate Quiet(s: State) {
    forall c :: c in s.clients ==> Dirty(s.clients[c]) == None
  }

  /**
   If no row changes while a client that wrote it has yet to cache it, then at every
   moment each cached id that no client is dirty on maps to its row. Updates may overlap
   from load to write, and any clients may overlap on different ids.
   */
  lemma TidyCoherence(s0: State, acts: seq<Act>, s: State)
    requires Initial(s0) && TidyExec(s0, acts) == Some(s)
    ensures forall k :: k in s.cache && Clean(s, k) ==> k in s.table.rows && s.table.rows[k] == s.cache[k]
    ensures Quiet(s) ==> Model.Coherent(Model.Sys(s.table, s.cache))
  {
    InitialSettled(s0);
    TidySettled(s0, acts);
    if Quiet(s) {
      forall k | k in s.cache ensures k in s.table.rows && s.table.rows[k] == s.cache[k] {
        assert Clean(s, k);
      }
    }
  }

  // ---------------------------------------------------------------- and the condition is exact

  ghost predicate Leads(s: State, s': State) {
    exists acts :: TidyExec(s, acts) == Some(s')
  }

  lemma LeadsSelf(s: State)
    ensures Leads(s, s)
  {
    assert TidyExec(s, []) == Some(s);
  }

  lemma LeadsOn(s: State, a: Act, s1: State, s': State)
    requires Tidy(s, a, s1) && Leads(s1, s')
    ensures Leads(s, s')
  {
    var acts :| TidyExec(s1, acts) == Some(s');
    var all := [a] + acts;
    assert all[1..] == acts;
    assert TidyExec(s, all) == Some(s');
  }

  /** Some tidy continuation comes to rest with a cache that disagrees with the table. */
  ghost predicate CanGoStale(s: State) {
    exists s' :: Leads(s, s') && Quiet(s') && !Model.Coherent(Model.Sys(s'.table, s'.cache))
  }

  ghost function Others(s: State, c: Cid): (ds: set<Cid>) {
    set d | d in s.clients && d != c && Dirty(s.clients[d]).Some?
  }

  /** A dirty client's next cache access. */
  lemma CacheGoes(s: State, d: Cid) returns (s': State)
    requires d in s.clients && Dirty(s.clients[d]).Some?
    ensures Tidy(s, Go(d, 0, 0, Healthy), s') && s' == CacheStep(s, d, s.clients[d])
    ensures s'.table == s.table && s'.clients == s.clients[d := s'.clients[d]]
    ensures s'.clients[d].Idle? || (s.clients[d].CacheProbe? && s'.clients[d] == CacheReplace(s.clients[d].row))
  {
    s' := CacheStep(s, d, s.clients[d]);
  }

  lemma {:induction false} OthersFinish(s: State, c: Cid) returns (s': State)
    requires c in s.clients
    ensures Leads(s, s') && s'.table == s.table && c in s'.clients && s'.clients[c] == s.clients[c]
    ensures Others(s', c) == {}
    decreases |Others(s, c)|, if exists d :: d in Others(s, c) && s.clients[d].CacheReplace? then 0 else 1
  {
    if Others(s, c) == {} {
      s' := s;
      LeadsSelf(s);
    } else {
      var d := PickOther(s, c);
      var s1 := CacheGoes(s, d);
      OthersShrink(s, c, d, s1);
      s' := OthersFinish(s1, c);
      LeadsOn(s, Go(d, 0, 0, Healthy), s1, s');
    }
  }

  /** One that replaces, if there is one. */
  lemma PickOther(s: State, c: Cid) returns (d: Cid)
    requires Others(s, c) != {}
    ensures d in Others(s, c)
    ensures s.clients[d].CacheReplace? || forall e :: e in Others(s, c) ==> !s.clients[e].CacheReplace?
  {
    if e :| e in Others(s, c) && s.clients[e].CacheReplace? {
      d := e;
    } else {
      d :| d in Others(s, c);
    }
  }

  lemma OthersShrink(s: State, c: Cid, d: Cid, s1: State)
    requires d in Others(s, c) && d in s1.clients && s1.clients == s.clients[d := s1.clients[d]]
    requires s1.clients[d].Idle? || s1.clients[d].CacheReplace?
    ensures Others(s1, c) == if s1.clients[d].Idle? then Others(s, c) - {d} else Others(s, c)
  {
  }

  lemma StaleStoreFinishes(s: State, c: Cid) returns (s': State)
    requires c in s.clients && Storing(s.clients[c]) && Others(s, c) == {}
    ensures Leads(s, s') && s'.table == s.table && Quiet(s')
    ensures s.clients[c].row.id in s'.cache && s'.cache[s.clients[c].row.id] == s.clients[c].row
  {
    var s1 := CacheGoes(s, c);
    assert forall d :: d in s.clients && d != c ==> d !in Others(s, c);
    s' := s1;
    LeadsSelf(s1);
    if s1.clients[c].CacheReplace? {
      s' := CacheGoes(s1, c);
      LeadsSelf(s');
      LeadsOn(s1, Go(c, 0, 0, Healthy), s', s');
    }
    LeadsOn(s, Go(c, 0, 0, Healthy), s1, s');
  }

  lemma {:induction false} ExecThen(s: State, acts: seq<Act>, s1: State, s2: State)
    requires TidyExec(s, acts) == Some(s1) && Leads(s1, s2)
    ensures Leads(s, s2)
    decreases |acts|
  {
    if acts != [] {
      var m := Next(s, acts[0]).value;
      ExecThen(m, acts[1..], s1, s2);
      LeadsOn(s, acts[0], m, s2);
    }
  }

  /** From any state in which a store in flight carries a row the table no longer has, a stale rest is ahead. */
  lemma StaleStoreSettles(s: State, c: Cid)
    requires c in s.clients && Storing(s.clients[c]) && !Holds(s.table, s.clients[c].row)
    ensures CanGoStale(s)
  {
    var s1 := OthersFinish(s, c);
    var s2 := StaleStoreFinishes(s1, c);
    var acts :| TidyExec(s, acts) == Some(s1);
    ExecThen(s, acts, s1, s2);
    assert Leads(s, s2) && Quiet(s2);
  }

  /**
   After tidy steps only, an acknowledged step may be taken without a stale rest ahead,
   on tidy continuations, iff it disturbs no store in flight.
   */
  lemma UndisturbedIff(s0: State, acts: seq<Act>, s: State, a: Act, s': State)
    requires Initial(s0) && TidyExec(s0, acts) == Some(s) && Next(s, a) == Some(s') && Acknowledged(s, a)
    ensures Undisturbed(s, s') <==> !CanGoStale(s')
  {
    InitialSettled(s0);
    TidySettled(s0, acts);
    if Undisturbed(s, s') {
      NextSettled(s, a, s');
      SettledNeverStale(s');
    } else {
      var c :| c in s.clients && Storing(s.clients[c]) && Holds(s.table, s.clients[c].row) && !Holds(s'.table, s.clients[c].row);
      StillStoring(s, a, s', c);
      StaleStoreSettles(s', c);
    }
  }

  /** Whoever changes a row is not the client that is storing it. */
  lemma StillStoring(s: State, a: Act, s': State, c: Cid)
    requires Next(s, a) == Some(s') && c in s.clients && Storing(s.clients[c]) && s'.table != s.table
    ensures c in s'.clients && s'.clients[c] == s.clients[c]
  {
  }

  lemma SettledNeverStale(s: State)
    requires Settled(s)
    ensures !CanGoStale(s)
  {
    if s' :| Leads(s, s') && Quiet(s') && !Model.Coherent(Model.Sys(s'.table, s'.cache)) {
      var acts :| TidyExec(s, acts) == Some(s');
      TidySettled(s, acts);
      forall k | k in s'.cache ensures k in s'.table.rows && s'.table.rows[k] == s'.cache[k] {
        assert Clean(s', k);
      }
    }
  }

  // ---------------------------------------------------------------- the lifecycle

  predicate Legal(was: Status, next: Status) {
    was == next || CanTransitionTo(was, next)
  }

  /** The statuses a step may leave behind. */
  ghost predicate LegalMoves(t: Table, t': Table) {
    forall k :: k in t.rows && k in t'.rows ==> Legal(t.rows[k].status, t'.rows[k].status)
  }

  /** Every update between its load and its write would still move the status legally. */
  ghost predicate PendingLegal(s: State) {
    forall c :: c in s.clients && s.clients[c].UpdateWrite? && s.clients[c].row.id in s.table.rows ==>
      Legal(s.table.rows[s.clients[c].row.id].status, s.clients[c].row.status)
  }

  /** Exactly then every next step is legal. */
  lemma LegalIff(s: State)
    requires Inv(s)
    ensures PendingLegal(s) <==> forall a :: Next(s, a).Some? ==> LegalMoves(s.table, Next(s, a).value.table)
  {
    if PendingLegal(s) {
      forall a | Next(s, a).Some? ensures LegalMoves(s.table, Next(s, a).value.table) { StepIsLegal(s, a); }
    } else {
      var c :| c in s.clients && s.clients[c].UpdateWrite? && s.clients[c].row.id in s.table.rows
        && !Legal(s.table.rows[s.clients[c].row.id].status, s.clients[c].row.status);
      var a := Go(c, 0, 0, Healthy);
      var k := s.clients[c].row.id;
      assert Next(s, a).value.table.rows[k].status == s.clients[c].row.status;
    }
  }

  lemma WriteIsLegal(s: State, c: Cid, fault: Fault)
    requires PendingLegal(s) && PcOf(s, c).UpdateWrite?
    ensures LegalMoves(s.table, WriteStep(s, c, PcOf(s, c).row, fault).table)
  {
  }

  /** Only inserts, updates and deletes touch the table. */
  lemma TableStep(s: State, a: Act)
    requires Next(s, a).Some?
    ensures Next(s, a).value.table == s.table || (a.Go? && (PcOf(s, a.c).CreateInsert? || PcOf(s, a.c).UpdateWrite? || PcOf(s, a.c).DeleteRow?))
  {
  }

  lemma StepIsLegal(s: State, a: Act)
    requires Inv(s) && PendingLegal(s) && Next(s, a).Some?
    ensures LegalMoves(s.table, Next(s, a).value.table)
  {
    TableStep(s, a);
    if a.Go? && PcOf(s, a.c).CreateInsert? {
      FreshId(s, a.gap);
    } else if a.Go? && PcOf(s, a.c).UpdateWrite? {
      WriteIsLegal(s, a.c, a.fault);
    }
  }

  /** No step changes a row that another client has loaded for an update and not yet written. */
  ghost predicate LoadKept(s: State, s': State) {
    forall c :: c in s.clients && c in s'.clients && s.clients[c].UpdateWrite? && s'.clients[c] == s.clients[c] ==>
      var k := s.clients[c].row.id;
      k in s.table.rows && k in s'.table.rows ==> s'.table.rows[k] == s.table.rows[k]
  }

  /** An update in flight goes from the table's own row to a legal successor. */
  ghost predicate LoadsCurrent(s: State) {
    forall c :: c in s.clients && s.clients[c].UpdateWrite? ==>
      var UpdateWrite(loaded, row) := s.clients[c];
      Legal(loaded.status, row.status) && (row.id in s.table.rows ==> s.table.rows[row.id] == loaded)
  }

  lemma LoadedLegal(s: State, c: Cid, now: Time, fault: Fault)
    requires Inv(s) && PcOf(s, c).UpdateLoad?
    ensures var s' := LoadStep(s, c, PcOf(s, c).id, PcOf(s, c).params, now, fault);
            s'.clients[c].UpdateWrite? ==>
              var UpdateWrite(loaded, row) := s'.clients[c];
              Legal(loaded.status, row.status) && Holds(s.table, loaded) && row.id == loaded.id
  {
    var UpdateLoad(id, params) := PcOf(s, c);
    if id in s.table.rows && Model.Patch(s.table.rows[id], params, now).Ok? {
      Model.PatchFrame(s.table.rows[id], params, now);
    }
  }

  /** Rows under a loaded id do not appear out of nowhere: ids are not reissued. */
  lemma NoneAppears(s: State, a: Act, s': State, c: Cid)
    requires Inv(s) && Next(s, a) == Some(s') && c in s.clients && s.clients[c].UpdateWrite?
    requires s.clients[c].row.id !in s.table.rows
    ensures s.clients[c].row.id !in s'.table.rows
  {
    assert PcOk(s, s.clients[c]) && PastOk(s, s.clients[c].row.id);
  }

  lemma LoadsStayCurrent(s: State, a: Act, s': State)
    requires Inv(s) && LoadsCurrent(s) && Next(s, a) == Some(s') && LoadKept(s, s')
    ensures LoadsCurrent(s')
  {
    forall c | c in s'.clients && s'.clients[c].UpdateWrite?
      ensures Legal(s'.clients[c].loaded.status, s'.clients[c].row.status)
      ensures s'.clients[c].row.id in s'.table.rows ==> s'.table.rows[s'.clients[c].row.id] == s'.clients[c].loaded
    {
      if c in s.clients && s.clients[c] == s'.clients[c] {
        if s.clients[c].row.id !in s.table.rows { NoneAppears(s, a, s', c); }
      } else {
        NewLoad(s, a, s', c);
        LoadedLegal(s, c, a.now, a.fault);
      }
    }
  }

  lemma NewLoad(s: State, a: Act, s': State, c: Cid)
    requires Next(s, a) == Some(s') && c in s'.clients && s'.clients[c].UpdateWrite?
    requires !(c in s.clients && s.clients[c] == s'.clients[c])
    ensures a.Go? && a.c == c && PcOf(s, c).UpdateLoad? && s'.table == s.table
    ensures s' == LoadStep(s, c, PcOf(s, c).id, PcOf(s, c).params, a.now, a.fault)
  {
  }

  ghost predicate LoadKeepingTrace(states: seq<State>, acts: seq<Act>) {
    && Trace(states, acts) && Initial(states[0])
    && (forall i :: 0 <= i < |acts| ==> LoadKept(states[i], states[i + 1]))
  }

  lemma {:induction false} TraceLoadsCurrent(states: seq<State>, acts: seq<Act>, j: nat)
    requires LoadKeepingTrace(states, acts) && j < |states|
    ensures LoadsCurrent(states[j])
  {
    if j > 0 {
      var i := j - 1;
      TraceLoadsCurrent(states, acts, i);
      TraceInv(states, acts, i);
      assert Next(states[i], acts[i]) == Some(states[i + 1]);
      LoadsStayCurrent(states[i], acts[i], states[j]);
    }
  }

  /**
   If no row changes between another client's load and write of it, every status change
   is legal; cache stores may overlap at will, and acknowledgements may be lost.
   */
  lemma SerialLifecycle(states: seq<State>, acts: seq<Act>, j: nat)
    requires LoadKeepingTrace(states, acts) && j < |acts|
    ensures PendingLegal(states[j]) && LegalMoves(states[j].table, states[j + 1].table)
  {
    TraceLoadsCurrent(states, acts, j);
    TraceInv(states, acts, j);
    assert Next(states[j], acts[j]) == Some(states[j + 1]);
    StepIsLegal(states[j], acts[j]);
  }
}
