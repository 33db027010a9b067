/**
 The task table and its SQL statements (internal/adapters/repositories/task_repository.go).
 The table is a map with fresh, increasing ids; `Fault` says how a statement fails.
 */
module Repository {
  import opened Prelude
  import opened KeyOrder
  import opened Domain

  datatype Table = Table(rows: map<Key, Row>, nextId: Key)

  /** `Rejected`: an error, nothing applied. `Lost`: applied, but the caller is told it failed. */
  datatype Fault = Healthy | Rejected | Lost

  /** Rows sit under their own id; ids come from a sequence that starts at 1 and never goes back. */
  ghost predicate TableOk(t: Table) {
    t.nextId >= 1 && forall k :: k in t.rows ==> 1 <= k < t.nextId && t.rows[k].id == k
  }

  const MAX_ID: Key := 0x7FFF_FFFF_FFFF_FFFF

  /** INSERT ... RETURNING id; `gap` ids were burnt by rolled-back inserts. */
  function Insert(t: Table, draft: Row, gap: nat, fault: Fault): (r: (Table, Result<Key, Error>))
    ensures TableOk(t) ==> TableOk(r.0)
    ensures r.1.Ok? ==> t.nextId <= r.1.value < r.0.nextId && r.0.rows == t.rows[r.1.value := draft.(id := r.1.value)]
    ensures fault.Rejected? ==> r.1.Err?
    ensures r.1.Err? && !fault.Lost? ==> r.0 == t
    ensures r.1 == if fault.Healthy? && t.nextId + gap <= 0x7FFF_FFFF_FFFF_FFFF then Ok(t.nextId + gap) else Err(DbError)
  {
    var id := t.nextId + gap;
    if fault.Rejected? || id > MAX_ID then (t, Err(DbError))
    else
      var t' := Table(t.rows[id := draft.(id := id)], id + 1);
      (t', if fault.Lost? then Err(DbError) else Ok(id))
  }

  function Find(t: Table, id: Key, fails: bool): (r: Result<Row, Error>)
    ensures r.Ok? ==> id in t.rows && r.value == t.rows[id]
    ensures r == Err(NotFound) <==> !fails && id !in t.rows
    ensures r == Err(DbError) <==> fails
  {
    if fails then Err(DbError) else if id in t.rows then Ok(t.rows[id]) else Err(NotFound)
  }

  /** What UPDATE sets; the created_at column keeps the table's value. */
  function Overwrite(old_: Row, r: Row): (n: Row) {
    old_.(name := r.name, body := r.body, status := r.status, updatedAt := r.updatedAt)
  }

  /** UPDATE ... WHERE id. */
  function Change(t: Table, r: Row, fault: Fault): (res: (Table, Result<(), Error>))
    ensures TableOk(t) ==> TableOk(res.0)
    ensures res.0.rows.Keys == t.rows.Keys && res.0.nextId == t.nextId
    ensures forall k :: k in t.rows ==>
              && (k != r.id || fault.Rejected? ==> res.0.rows[k] == t.rows[k])
              && res.0.rows[k].createdAt == t.rows[k].createdAt
    ensures fault.Healthy? ==> (if r.id in t.rows then res.1.Ok? else res.1 == Err(NotFound))
    ensures !fault.Healthy? ==> res.1 == Err(DbError)
  {
    if fault.Rejected? then (t, Err(DbError))
    else
      var t' := if r.id in t.rows then t.(rows := t.rows[r.id := Overwrite(t.rows[r.id], r)]) else t;
      (t', if fault.Lost? then Err(DbError) else if r.id in t.rows then Ok(()) else Err(NotFound))
  }

  /** DELETE ... WHERE id. */
  function Remove(t: Table, id: Key, fault: Fault): (res: (Table, Result<(), Error>))
    ensures TableOk(t) ==> TableOk(res.0)
    ensures res.0.rows == if fault.Rejected? then t.rows else t.rows - {id}
    ensures fault.Healthy? ==> (if id in t.rows then res.1.Ok? else res.1 == Err(NotFound))
    ensures !fault.Healthy? ==> res.1 == Err(DbError)
  {
    if fault.Rejected? then (t, Err(DbError))
    else
      (t.(rows := t.rows - {id}),
       if fault.Lost? then Err(DbError) else if id in t.rows then Ok(()) else Err(NotFound))
  }

  // ---------------------------------------------------------------- listing

  datatype Filter = Filter(sort: string, toId: Key, limit: Key, offset: Key)

  /** The four prepared list statements with their arguments. */
  datatype Query =
    | ListAsc(limit: Key, offset: Key)
    | ListDesc(limit: Key, offset: Key)
    | ToIdAsc(toId: Key, limit: Key, offset: Key)
    | ToIdDesc(toId: Key, limit: Key, offset: Key)

  const DEFAULT_LIST_LIMIT: Key := 1000
  const SORT_DESC: string := "desc"
  const SORT_ASC: string := "asc"

  function BuildListQuery(f: Option<Filter>): (q: Query) {
    var desc := f.Some? && f.value.sort == SORT_DESC;
    var hasToId := f.Some? && f.value.toId > 0;
    var limit := if f.Some? && f.value.limit > 0 then f.value.limit else DEFAULT_LIST_LIMIT;
    var offset := if f.Some? then f.value.offset else 0;
    if hasToId && desc then ToIdDesc(f.value.toId, limit, offset)
    else if hasToId then ToIdAsc(f.value.toId, limit, offset)
    else if desc then ListDesc(limit, offset)
    else ListAsc(limit, offset)
  }

  /** WHERE id < toId. */
  function Selected(rows: map<Key, Row>, toId: Option<Key>): (s: set<Key>) {
    set k | k in rows && (toId.Some? ==> k < toId.value)
  }

  function Bound(q: Query): (toId: Option<Key>) {
    if q.ToIdAsc? || q.ToIdDesc? then Some(q.toId) else None
  }

  ghost predicate Descending(ks: seq<Key>) {
    forall i, j :: 0 <= i < j < |ks| ==> ks[i] > ks[j]
  }

  function Reverse<T>(s: seq<T>): (r: seq<T>)
    ensures |r| == |s| && forall i :: 0 <= i < |s| ==> r[i] == s[|s| - 1 - i]
  {
    seq(|s|, i requires 0 <= i < |s| => s[|s| - 1 - i])
  }

  lemma ReverseElements(ks: seq<Key>)
    ensures Elements(Reverse(ks)) == Elements(ks)
    ensures Ascending(ks) ==> Descending(Reverse(ks))
    ensures Descending(ks) ==> Ascending(Reverse(ks))
  {
    var r := Reverse(ks);
    forall k | k in Elements(ks) ensures k in Elements(r) {
      var i :| 0 <= i < |ks| && ks[i] == k;
      assert r[|ks| - 1 - i] == k;
    }
  }

  lemma HasDescending(s: set<Key>)
    ensures exists ks :: Descending(ks) && Elements(ks) == s && |ks| == |s|
  {
    ReverseElements(SortedKeys(s));
  }

  /** The descending enumeration of `s`. */
  ghost function DescKeys(s: set<Key>): (ks: seq<Key>)
    ensures Descending(ks) && Elements(ks) == s && |ks| == |s|
  {
    HasDescending(s);
    var ks :| Descending(ks) && Elements(ks) == s && |ks| == |s|;
    ks
  }

  function RowsAt(rows: map<Key, Row>, ks: seq<Key>): (r: seq<Row>)
    requires Elements(ks) <= rows.Keys
    ensures |r| == |ks|
    ensures forall i :: 0 <= i < |ks| ==> ks[i] in rows && r[i] == rows[ks[i]]
  {
    assert forall i :: 0 <= i < |ks| ==> ks[i] in Elements(ks);
    seq(|ks|, i requires 0 <= i < |ks| => rows[ks[i]])
  }

  /** ORDER BY id ASC or DESC. */
  ghost function KeyListing(rows: map<Key, Row>, toId: Option<Key>, desc: bool): (ks: seq<Key>)
    ensures Elements(ks) == Selected(rows, toId) && |ks| == |Selected(rows, toId)|
    ensures if desc then Descending(ks) else Ascending(ks)
  {
    if desc then DescKeys(Selected(rows, toId)) else SortedKeys(Selected(rows, toId))
  }

  predicate IsDesc(q: Query) {
    q.ListDesc? || q.ToIdDesc?
  }

  /** The whole answer of a query, before LIMIT and OFFSET. */
  ghost function Full(rows: map<Key, Row>, q: Query): (r: seq<Row>)
    ensures |r| == |Selected(rows, Bound(q))|
  {
    RowsAt(rows, KeyListing(rows, Bound(q), IsDesc(q)))
  }

  function Page<T>(all: seq<T>, limit: nat, offset: nat): (r: seq<T>)
    ensures |r| == if offset >= |all| then 0 else if |all| - offset < limit then |all| - offset else limit
  {
    if offset >= |all| then []
    else if offset + limit >= |all| then all[offset..]
    else all[offset..offset + limit]
  }

  ghost function Execute(rows: map<Key, Row>, q: Query): (r: seq<Row>) {
    Page(Full(rows, q), q.limit, q.offset)
  }

  function CountRows(rows: map<Key, Row>, f: Option<Filter>): (n: nat) {
    if f.Some? && f.value.toId > 0 then |Selected(rows, Some(f.value.toId))| else |rows|
  }

  // ---------------------------------------------------------------- facts about listings

  /** The descending order is the ascending one backwards. */
  lemma DescIsReverse(s: set<Key>)
    ensures DescKeys(s) == Reverse(SortedKeys(s))
  {
    var d := DescKeys(s);
    ReverseElements(d);
    AscendingUnique(Reverse(d), SortedKeys(s));
    assert Reverse(Reverse(d)) == d;
  }

  /** The full listings of one filter in the two orders are each other's reverse. */
  lemma ListingsReverse(rows: map<Key, Row>, q: Query, q': Query)
    requires Bound(q) == Bound(q') && !IsDesc(q) && IsDesc(q')
    ensures Full(rows, q') == Reverse(Full(rows, q))
  {
    DescIsReverse(Selected(rows, Bound(q)));
  }

  /** The listing holds every selected row once, in strict id order. */
  lemma FullIsSelection(rows: map<Key, Row>, q: Query)
    requires forall k :: k in rows ==> rows[k].id == k
    ensures forall k :: k in rows ==> (k in Selected(rows, Bound(q)) <==> rows[k] in Full(rows, q))
    ensures forall r :: r in Full(rows, q) ==> r.id in rows && rows[r.id] == r
    ensures forall i, j :: 0 <= i < j < |Full(rows, q)| ==>
              if IsDesc(q) then Full(rows, q)[i].id > Full(rows, q)[j].id
              else Full(rows, q)[i].id < Full(rows, q)[j].id
  {
    var s := Selected(rows, Bound(q));
    var ks := KeyListing(rows, Bound(q), IsDesc(q));
    var full := Full(rows, q);
    forall i | 0 <= i < |ks| ensures ks[i] in s && full[i] == rows[ks[i]] && full[i].id == ks[i] {
      assert ks[i] in Elements(ks);
    }
    forall k | k in s ensures rows[k] in full {
      assert k in Elements(ks);
      var i :| 0 <= i < |ks| && ks[i] == k;
      assert full[i] == rows[k];
    }
  }

  /** In a descending listing a selected larger id comes before any smaller one. */
  lemma DescPrecedes(rows: map<Key, Row>, q: Query, k: Key, i: nat) returns (j: nat)
    requires forall k :: k in rows ==> rows[k].id == k
    requires IsDesc(q) && i < |Full(rows, q)| && k in Selected(rows, Bound(q)) && k > Full(rows, q)[i].id
    ensures j < i && Full(rows, q)[j].id == k
  {
    var ks := KeyListing(rows, Bound(q), IsDesc(q));
    assert k in Elements(ks);
    j :| 0 <= j < |ks| && ks[j] == k;
    assert ks[i] == Full(rows, q)[i].id;
  }

  /** A page has min(limit, max(0, Count - offset)) rows, and Count counts the same filter. */
  lemma PageSize(rows: map<Key, Row>, f: Option<Filter>)
    ensures var q := BuildListQuery(f);
            var rest := if CountRows(rows, f) < q.offset then 0 else CountRows(rows, f) - q.offset;
            && q.limit > 0 && q.offset == (if f.Some? then f.value.offset else 0)
            && CountRows(rows, f) == |Full(rows, q)|
            && |Execute(rows, q)| == if rest < q.limit then rest else q.limit
  {
    assert Selected(rows, None) == rows.Keys;
    assert |rows.Keys| == |rows|;
  }

  /** What a client collects from `p` consecutive List calls with the same filter. */
  ghost function FetchPages(rows: map<Key, Row>, f: Filter, p: nat): (r: seq<Row>) {
    if p == 0 then [] else
      FetchPages(rows, f, p - 1) + Execute(rows, BuildListQuery(Some(f.(offset := (p - 1) * f.limit))))
  }

  function Upto<T>(all: seq<T>, n: nat): (r: seq<T>) {
    if n >= |all| then all else all[..n]
  }

  lemma NextPage<T>(all: seq<T>, limit: nat, offset: nat)
    ensures Upto(all, offset) + Page(all, limit, offset) == Upto(all, offset + limit)
  {
  }

  lemma PageOf(rows: map<Key, Row>, f: Filter, offset: nat)
    requires f.limit > 0
    ensures Execute(rows, BuildListQuery(Some(f.(offset := offset))))
            == Page(Full(rows, BuildListQuery(Some(f))), f.limit, offset)
  {
  }

  lemma NextOffset(p: nat, limit: nat)
    requires p > 0
    ensures (p - 1) * limit >= 0 && p * limit == (p - 1) * limit + limit
  {
  }

  /** `p` pages collect the first `p * limit` rows. */
  lemma {:induction false} PagesCollect(rows: map<Key, Row>, f: Filter, p: nat)
    requires f.limit > 0
    ensures FetchPages(rows, f, p) == Upto(Full(rows, BuildListQuery(Some(f))), p * f.limit)
  {
    var all := Full(rows, BuildListQuery(Some(f)));
    if p > 0 {
      PagesCollect(rows, f, p - 1);
      NextOffset(p, f.limit);
      var offset := (p - 1) * f.limit;
      PageOf(rows, f, offset);
      NextPage(all, f.limit, offset);
    }
  }

  /** Paging through any filter: no row is skipped or repeated, and enough pages give them all. */
  lemma Pagination(rows: map<Key, Row>, f: Filter, p: nat)
    requires f.limit > 0
    ensures FetchPages(rows, f, p) == Upto(Full(rows, BuildListQuery(Some(f))), p * f.limit)
    ensures p * f.limit >= CountRows(rows, Some(f)) ==>
              FetchPages(rows, f, p) == Full(rows, BuildListQuery(Some(f)))
  {
    PagesCollect(rows, f, p);
    PageSize(rows, Some(f));
  }

  // ---------------------------------------------------------------- what a client gets

  /** The ids a filter lets through. */
  function Wanted(rows: map<Key, Row>, f: Option<Filter>): (s: set<Key>) {
    set k | k in rows && (f.Some? && f.value.toId > 0 ==> k < f.value.toId)
  }

  /** The ids that come before `id`, smallest or largest first. */
  ghost function Ahead(ids: set<Key>, id: Key, desc: bool): (s: set<Key>) {
    set k | k in ids && if desc then k > id else k < id
  }

  lemma RankAscending(ks: seq<Key>, j: nat)
    requires Ascending(ks) && j < |ks|
    ensures |Ahead(Elements(ks), ks[j], false)| == j
  {
    var before := ks[..j];
    DistinctSize(before);
    forall k | k in Elements(ks) && k < ks[j] ensures k in Elements(before) {
      var i :| 0 <= i < |ks| && ks[i] == k;
      assert before[i] == k;
    }
    assert Ahead(Elements(ks), ks[j], false) == Elements(before);
  }

  lemma RankDescending(ks: seq<Key>, j: nat)
    requires Descending(ks) && j < |ks|
    ensures |Ahead(Elements(ks), ks[j], true)| == j
  {
    var before := ks[..j];
    DistinctSize(before);
    forall k | k in Elements(ks) && k > ks[j] ensures k in Elements(before) {
      var i :| 0 <= i < |ks| && ks[i] == k;
      assert before[i] == k;
    }
    assert Ahead(Elements(ks), ks[j], true) == Elements(before);
  }

  lemma FullRank(rows: map<Key, Row>, q: Query, j: nat)
    requires (forall k :: k in rows ==> rows[k].id == k) && j < |Full(rows, q)|
    ensures var r, ids := Full(rows, q)[j], Selected(rows, Bound(q));
            r.id in ids && rows[r.id] == r && |Ahead(ids, r.id, IsDesc(q))| == j
  {
    var ks := KeyListing(rows, Bound(q), IsDesc(q));
    assert ks[j] in Elements(ks);
    if IsDesc(q) { RankDescending(ks, j); } else { RankAscending(ks, j); }
  }

  /** The four statements by what they select, how they sort and where they cut. */
  lemma QueryChoice(rows: map<Key, Row>, f: Option<Filter>)
    ensures var q := BuildListQuery(f);
            && Selected(rows, Bound(q)) == Wanted(rows, f)
            && (IsDesc(q) <==> f.Some? && f.value.sort == "desc")
            && q.limit == (if f.Some? && f.value.limit > 0 then f.value.limit else 1000)
            && q.offset == (if f.Some? then f.value.offset else 0)
  {
  }

  lemma PageAt<T>(all: seq<T>, limit: nat, offset: nat, i: nat)
    requires i < |Page(all, limit, offset)|
    ensures offset + i < |all| && Page(all, limit, offset)[i] == all[offset + i]
  {
  }

  lemma PageRow(rows: map<Key, Row>, q: Query, i: nat)
    requires (forall k :: k in rows ==> rows[k].id == k) && i < |Execute(rows, q)|
    ensures var r, ids := Execute(rows, q)[i], Selected(rows, Bound(q));
            r.id in ids && rows[r.id] == r && |Ahead(ids, r.id, IsDesc(q))| == q.offset + i
  {
    PageAt(Full(rows, q), q.limit, q.offset, i);
    FullRank(rows, q, q.offset + i);
  }

  /** The i-th row of a page is the selected row with exactly `offset + i` selected ids ahead of it. */
  ghost predicate RowInPlace(rows: map<Key, Row>, f: Option<Filter>, r: Row, place: nat) {
    && r.id in Wanted(rows, f) && rows[r.id] == r
    && |Ahead(Wanted(rows, f), r.id, f.Some? && f.value.sort == "desc")| == place
  }

  /** A page, for every filter and fixed table: how many rows, and which. */
  lemma PageMeaning(rows: map<Key, Row>, f: Option<Filter>)
    requires forall k :: k in rows ==> rows[k].id == k
    ensures var page, total := Execute(rows, BuildListQuery(f)), |Wanted(rows, f)|;
            var offset := if f.Some? then f.value.offset else 0;
            var limit := if f.Some? && f.value.limit > 0 then f.value.limit else 1000;
            var rest := if total < offset then 0 else total - offset;
            && CountRows(rows, f) == total
            && |page| == (if rest < limit then rest else limit)
            && forall i: nat :: i < |page| ==> RowInPlace(rows, f, page[i], offset + i)
  {
    var q := BuildListQuery(f);
    QueryChoice(rows, f);
    PageSize(rows, f);
    forall i: nat | i < |Execute(rows, q)| ensures RowInPlace(rows, f, Execute(rows, q)[i], q.offset + i) {
      PageRow(rows, q, i);
    }
  }
}
