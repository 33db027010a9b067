/**
 Status histories over whole sequential runs (internal/domain/task.go,
 internal/services/task_service.go). `Tables` lists the table before and after
 every operation; the lemmas follow one id through it.
 */
module Lifecycle {
  import opened Prelude
  import opened Domain
  import opened Repository
  import opened ServiceModel

  ghost function Tables(t: Table, ops: seq<Op>): (r: seq<Table>)
    ensures |r| == |ops| + 1 && r[0] == t
    decreases |ops|
  {
    if ops == [] then [t] else [t] + Tables(Ref(t, ops[0]).0, ops[1..])
  }

  lemma {:induction false} TablesStep(t: Table, ops: seq<Op>, i: nat)
    requires i < |ops|
    ensures Tables(t, ops)[i + 1] == Ref(Tables(t, ops)[i], ops[i]).0
    decreases |ops|
  {
    if i > 0 { TablesStep(Ref(t, ops[0]).0, ops[1..], i - 1); }
  }

  /** These are the tables of the cached service too, at every moment and whatever its cache holds. */
  lemma {:induction false} TablesOfRun(s: Sys, ops: seq<Op>, i: nat)
    requires i <= |ops|
    ensures Run(s, ops[..i]).0.table == Tables(s.table, ops)[i]
    decreases |ops|
  {
    if i > 0 {
      var s1 := Step(s, ops[0]).0;
      TablesOfRun(s1, ops[1..], i - 1);
      assert ops[..i][1..] == ops[1..][..i - 1];
    }
  }

  /** One operation, one id: kept rows follow the lifecycle, new rows are fresh inserts. */
  ghost predicate RowMoves(t: Table, op: Op, t': Table, k: Key) {
    && t.nextId <= t'.nextId
    && (k in t.rows && k in t'.rows ==>
          var a, b := t.rows[k], t'.rows[k];
          a.id == b.id && a.createdAt == b.createdAt && (a.status == b.status || CanTransitionTo(a.status, b.status)))
    && (k !in t.rows && k in t'.rows ==>
          t.nextId <= k && op.Create? && t'.rows[k] == op.draft.(id := k))
  }

  lemma RefMoves(t: Table, op: Op, k: Key)
    requires TableOk(t)
    ensures TableOk(Ref(t, op).0) && RowMoves(t, op, Ref(t, op).0, k)
  {
    if op.Update? && Patched(t, op).Ok? {
      PatchFrame(t.rows[op.id], op.params, op.now);
    }
  }

  lemma {:induction false} TablesOk(t: Table, ops: seq<Op>, i: nat)
    requires TableOk(t) && i <= |ops|
    ensures TableOk(Tables(t, ops)[i])
  {
    if i > 0 {
      TablesOk(t, ops, i - 1);
      TablesStep(t, ops, i - 1);
      RefMoves(Tables(t, ops)[i - 1], ops[i - 1], 0);
    }
  }

  /** Ids are never reused: once an issued id is gone, it stays gone. */
  lemma {:induction false} GoneForGood(t: Table, ops: seq<Op>, k: Key, i: nat, j: nat)
    requires TableOk(t) && i <= j <= |ops|
    requires k !in Tables(t, ops)[i].rows && k < Tables(t, ops)[i].nextId
    ensures k !in Tables(t, ops)[j].rows && k < Tables(t, ops)[j].nextId
  {
    if i < j {
      GoneForGood(t, ops, k, i, j - 1);
      TablesOk(t, ops, j - 1);
      TablesStep(t, ops, j - 1);
      RefMoves(Tables(t, ops)[j - 1], ops[j - 1], k);
    }
  }

  /** So a row seen at two moments was there in between. */
  lemma Continuous(t: Table, ops: seq<Op>, k: Key, i: nat, m: nat, j: nat)
    requires TableOk(t) && i <= m <= j <= |ops|
    requires k in Tables(t, ops)[i].rows && k in Tables(t, ops)[j].rows
    ensures k in Tables(t, ops)[m].rows
  {
    if k !in Tables(t, ops)[m].rows {
      TablesOk(t, ops, i);
      NextIdGrows(t, ops, i, m);
      GoneForGood(t, ops, k, m, j);
    }
  }

  lemma {:induction false} NextIdGrows(t: Table, ops: seq<Op>, i: nat, j: nat)
    requires TableOk(t) && i <= j <= |ops|
    ensures Tables(t, ops)[i].nextId <= Tables(t, ops)[j].nextId
  {
    if i < j {
      NextIdGrows(t, ops, i, j - 1);
      TablesOk(t, ops, j - 1);
      TablesStep(t, ops, j - 1);
      RefMoves(Tables(t, ops)[j - 1], ops[j - 1], 0);
    }
  }

  ghost predicate Completes(tables: seq<Table>, k: Key, m: nat)
    requires m + 1 < |tables|
  {
    && k in tables[m].rows && k in tables[m + 1].rows
    && tables[m].rows[k].status == IN_PROCESS && tables[m + 1].rows[k].status == COMPLETE
  }

  /** What the row of `k` at moment `i` and its row at the later moment `j` have to do with each other. */
  ghost predicate Follows(tables: seq<Table>, k: Key, i: nat, j: nat)
    requires i <= j < |tables| && k in tables[i].rows && k in tables[j].rows
  {
    var a, b := tables[i].rows[k], tables[j].rows[k];
    && a.id == b.id == k && a.createdAt == b.createdAt
    && (a.status == COMPLETE || a.status == CANCEL ==> b.status == a.status)
    && (b.status == NEW ==> a.status == NEW)
    && (b.status == COMPLETE && a.status != COMPLETE ==>
          exists m: nat :: i <= m < j && Completes(tables, k, m))
  }

  lemma OneMore(tables: seq<Table>, op: Op, k: Key, i: nat, j: nat)
    requires i < j < |tables| && k in tables[i].rows && k in tables[j - 1].rows && k in tables[j].rows
    requires Follows(tables, k, i, j - 1) && RowMoves(tables[j - 1], op, tables[j], k)
    ensures Follows(tables, k, i, j)
  {
    var a, m, b := tables[i].rows[k], tables[j - 1].rows[k], tables[j].rows[k];
    if b.status == COMPLETE && m.status != COMPLETE {
      assert Completes(tables, k, j - 1);
    }
  }

  /**
   From moment `i` to moment `j` of any run: id and creation time are fixed,
   terminal statuses are never left, NEW is never entered, and COMPLETE is
   entered only directly from IN_PROCESS.
   */
  lemma {:induction false} LifecyclePath(t: Table, ops: seq<Op>, k: Key, i: nat, j: nat)
    requires TableOk(t) && i <= j <= |ops|
    requires k in Tables(t, ops)[i].rows && k in Tables(t, ops)[j].rows
    ensures Follows(Tables(t, ops), k, i, j)
  {
    TablesOk(t, ops, j);
    if i < j {
      Continuous(t, ops, k, i, j - 1, j);
      LifecyclePath(t, ops, k, i, j - 1);
      TablesOk(t, ops, j - 1);
      TablesStep(t, ops, j - 1);
      RefMoves(Tables(t, ops)[j - 1], ops[j - 1], k);
      OneMore(Tables(t, ops), ops[j - 1], k, i, j);
    }
  }

  /** Tasks built by NewTask start at NEW; they keep their birth row's id and creation time. */
  ghost predicate DraftsAreNew(ops: seq<Op>) {
    forall i :: 0 <= i < |ops| && ops[i].Create? ==> ops[i].draft.status == NEW && ops[i].draft.updatedAt.None?
  }

  /** In a run from an empty table every row was born NEW, by exactly one Create, and lived on from there. */
  lemma {:induction false} BornNew(ops: seq<Op>, k: Key, j: nat) returns (m: nat)
    requires j <= |ops| && DraftsAreNew(ops)
    requires k in Tables(Table(map[], 1), ops)[j].rows
    ensures m < j && ops[m].Create?
    ensures var tables := Tables(Table(map[], 1), ops);
            && (forall n :: 0 <= n <= m ==> k !in tables[n].rows)
            && (forall n :: m < n <= j ==> k in tables[n].rows)
            && tables[m + 1].rows[k] == ops[m].draft.(id := k)
            && tables[m + 1].rows[k].status == NEW
            && tables[j].rows[k].createdAt == ops[m].draft.createdAt
    decreases j
  {
    var t := Table(map[], 1);
    var tables := Tables(t, ops);
    TablesOk(t, ops, j - 1);
    TablesStep(t, ops, j - 1);
    RefMoves(tables[j - 1], ops[j - 1], k);
    if k in tables[j - 1].rows {
      m := BornNew(ops, k, j - 1);
    } else {
      m := j - 1;
      forall n | 0 <= n <= m ensures k !in tables[n].rows {
        if k in tables[n].rows {
          TablesOk(t, ops, n);
          NextIdGrows(t, ops, n, m);
        }
      }
    }
  }
}
