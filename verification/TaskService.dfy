/**
 The service on heap objects: the repository, the cache wrapper and TaskService
 itself (internal/services). Task pointers are shared between callers and the
 cache, so frames matter: each `modifies` clause lists everything an operation
 may write, and no operation but Create names a Task that existed before.
 */
module TaskService {
  import opened Prelude
  import opened KeyOrder
  import opened Domain
  import opened Repository
  import opened MemoryCache
  import Model = ServiceModel

  class TaskRepository {
    var table: Table

    constructor (t: Table)
      ensures table == t
    {
      table := t;
    }

    method Store(task: Task, gap: nat, fault: Fault) returns (r: Result<Key, Error>)
      modifies this
      ensures (table, r) == Insert(old(table), task.Value(), gap, fault)
    {
      var draft := Row(task.id, task.name, task.body, task.status, task.createdAt, task.updatedAt);
      var res := Insert(table, draft, gap, fault);
      table := res.0;
      return res.1;
    }

    method Get(id: Key, fails: bool) returns (r: Result<Task, Error>)
      ensures r.Ok? ==> fresh(r.value) && Find(table, id, fails) == Ok(r.value.Value())
      ensures r.Err? ==> Find(table, id, fails) == Err(r.error)
      ensures fails ==> r == Err(DbError)
      ensures !fails ==> if id in table.rows then r.Ok? && r.value.Value() == table.rows[id] else r == Err(NotFound)
    {
      var found := Find(table, id, fails);
      if found.Err? {
        return Err(found.error);
      }
      var task := new Task.FromRow(found.value);
      return Ok(task);
    }

    method Update(task: Task, fault: Fault) returns (r: Result<(), Error>)
      modifies this
      ensures (table, r) == Change(old(table), task.Value(), fault)
    {
      var row := Row(task.id, task.name, task.body, task.status, task.createdAt, task.updatedAt);
      var res := Change(table, row, fault);
      table := res.0;
      return res.1;
    }

    method Delete(id: Key, fault: Fault) returns (r: Result<(), Error>)
      modifies this
      ensures (table, r) == Remove(old(table), id, fault)
    {
      var res := Remove(table, id, fault);
      table := res.0;
      return res.1;
    }

    /** Counts the rows that the list statement of the same filter would page through. */
    method Count(f: Option<Filter>, fails: bool) returns (r: Result<nat, Error>)
      ensures r == if fails then Err(DbError) else Ok(|Full(table.rows, BuildListQuery(f))|)
      ensures r.Ok? ==> r.value == CountRows(table.rows, f)
    {
      if fails {
        return Err(DbError);
      }
      PageSize(table.rows, f);
      return Ok(CountRows(table.rows, f));
    }

    /** The selected ids in ascending order. */
    method SelectKeys(q: Query) returns (keys: seq<Key>)
      ensures keys == SortedKeys(Selected(table.rows, Bound(q)))
    {
      var selected := Selected(table.rows, Bound(q));
      keys := [];
      var rest := selected;
      while rest != {}
        invariant Visited(selected, rest, keys)
        decreases |rest|
      {
        var k :| k in rest;
        VisitOne(selected, rest, keys, k);
        rest := rest - {k};
        keys := keys + [k];
      }
      SortAscending(keys);
      keys := Sort(keys);
      AscendingUnique(keys, SortedKeys(selected));
    }

    /** The statement's answer, as any evaluation of it would produce it. */
    method Query(q: Query) returns (rows: seq<Row>)
      ensures rows == Execute(table.rows, q)
    {
      ghost var selected := Selected(table.rows, Bound(q));
      var keys := SelectKeys(q);
      if IsDesc(q) {
        DescIsReverse(selected);
        keys := Reverse(keys);
      }
      assert keys == KeyListing(table.rows, Bound(q), IsDesc(q));
      rows := Page(RowsAt(table.rows, keys), q.limit, q.offset);
    }

    /** Every row becomes a new object, in the order of the answer. */
    method List(f: Option<Filter>, fails: bool) returns (r: Result<seq<Task>, Error>)
      ensures r.Err? <==> fails
      ensures fails ==> r.error == DbError
      ensures r.Ok? ==>
                && Values(r.value) == Execute(table.rows, BuildListQuery(f))
                && forall i :: 0 <= i < |r.value| ==> fresh(r.value[i])
    {
      if fails {
        return Err(DbError);
      }
      var rows := Query(BuildListQuery(f));
      var tasks: seq<Task> := [];
      for i := 0 to |rows|
        invariant |tasks| == i
        invariant forall j :: 0 <= j < i ==> fresh(tasks[j]) && tasks[j].Value() == rows[j]
      {
        var task := new Task.FromRow(rows[i]);
        tasks := tasks + [task];
      }
      assert Values(tasks) == rows;
      return Ok(tasks);
    }
  }

  ghost function Values(tasks: seq<Task>): (rows: seq<Row>)
    reads tasks
  {
    seq(|tasks|, i requires 0 <= i < |tasks| reads tasks => tasks[i].Value())
  }

  ghost function RowsOf(items: map<Key, Task>): (rows: map<Key, Row>)
    reads items.Values
  {
    map k | k in items :: items[k].Value()
  }

  lemma RowsOfRemove(items: map<Key, Task>, id: Key)
    ensures RowsOf(items - {id}) == RowsOf(items) - {id}
  {
  }

  lemma RowsOfStore(items: map<Key, Task>, id: Key, task: Task)
    ensures RowsOf(items[id := task]) == RowsOf(items)[id := task.Value()]
  {
  }

  ghost function Published(items: map<Key, Task>, id: Key, task: Task, res: Result<(), Error>): (r: map<Key, Task>)
    reads task
  {
    if res.Ok? then items[task.id := task] else if res.error.NotFound? then items - {id} else items
  }

  /** Cached on success, evicted when the row is gone, left alone on any other error. */
  lemma PublishedCases(items: map<Key, Task>, id: Key, task: Task)
    ensures Published(items, id, task, Ok(())) == items[task.id := task]
    ensures Published(items, id, task, Err(NotFound)) == items - {id}
    ensures Published(items, id, task, Err(DbError)) == items
  {
  }

  lemma RowsOfPublished(items: map<Key, Task>, id: Key, task: Task, res: Result<(), Error>)
    ensures RowsOf(Published(items, id, task, res)) ==
            if res.Ok? then RowsOf(items)[task.id := task.Value()]
            else if res.error.NotFound? then RowsOf(items) - {id} else RowsOf(items)
  {
    RowsOfStore(items, task.id, task);
    RowsOfRemove(items, id);
  }

  ghost function Kept(items: map<Key, Task>): (r: map<Key, Task>) {
    Restrict(items, Largest(items.Keys, |items.Keys| - |items.Keys| / 5))
  }

  lemma RowsOfEvicted(items: map<Key, Task>)
    ensures RowsOf(Kept(items)) == Model.Evicted(RowsOf(items))
  {
    assert RowsOf(items).Keys == items.Keys;
  }

  /** The pre-fill budget in bytes; the multiplication wraps at 64 bits. */
  function Budget(cleanupStartMB: Key): (bytes: nat) {
    (cleanupStartMB * 1024 * 1024 * 9) % TWO_TO_THE_64 / 10
  }

  /** Nine tenths of the threshold in bytes, computed modulo 2^64 and rounded down. */
  lemma BudgetIsNineTenths(cleanupStartMB: Key)
    ensures exists wraps: nat ::
              var bytes := cleanupStartMB * 9437184 - wraps * 18446744073709551616;
              0 <= bytes < 18446744073709551616 && 10 * Budget(cleanupStartMB) <= bytes < 10 * Budget(cleanupStartMB) + 10
    ensures cleanupStartMB * 9437184 < 18446744073709551616 ==>
              10 * Budget(cleanupStartMB) <= cleanupStartMB * 9437184 < 10 * Budget(cleanupStartMB) + 10
  {
    var all := cleanupStartMB * 9437184;
    var wraps := all / 18446744073709551616;
    assert 0 <= all - wraps * 18446744073709551616 < 18446744073709551616;
  }

  class TaskCache {
    const inner: Cache<Task>

    constructor (cleanupStartMB: Key)
      ensures fresh(inner) && inner.items == map[] && Wf(inner.Contents())
      ensures inner.cleanupStartMB == cleanupStartMB
    {
      inner := new Cache<Task>(cleanupStartMB);
    }

    ghost function Rows(): (rows: map<Key, Row>)
      reads inner, inner.items.Values
    {
      RowsOf(inner.items)
    }

    method Store(task: Task)
      modifies inner
      ensures inner.items == old(inner.items)[task.id := task]
      ensures old(Wf(inner.Contents())) ==> Wf(inner.Contents())
    {
      inner.Store(task.id, task);
    }

    method Get(id: Key) returns (r: Option<Task>)
      ensures r == if id in inner.items then Some(inner.items[id]) else None
    {
      r := inner.Get(id);
    }

    method Delete(id: Key)
      modifies inner
      ensures inner.items == old(inner.items) - {id}
      ensures old(Wf(inner.Contents())) ==> Wf(inner.Contents())
    {
      inner.Delete(id);
    }

    /** One listed task goes into the cache and becomes the first key. */
    method FillOne(task: Task, ghost tasks: seq<Task>, ghost list: seq<Row>, ghost i: nat)
      requires i < |list| == |tasks| && task == tasks[i] && task.id == list[i].id && Model.NewestOrder(list)
      requires Wf(inner.Contents()) && inner.items == Pointers(tasks, list, i)
      modifies inner
      ensures Wf(inner.Contents()) && inner.items == Pointers(tasks, list, i + 1) && inner.firstKey == task.id
    {
      inner.Store(task.id, task);
      PointersMin(tasks, list, i + 1);
      MinUnique(inner.items.Keys, task.id);
      MinUnique(inner.items.Keys, inner.firstKey);
      inner.SetFirstKey(task.id);
    }

    /** Caches the longest newest-first prefix below the budget and leaves the index on its last id. */
    method Fill(repository: TaskRepository, fails: bool) returns (r: Result<(), Error>, ghost n: nat)
      requires inner.items == map[] && Wf(inner.Contents()) && TableOk(repository.table)
      modifies inner
      ensures Wf(inner.Contents())
      ensures r.Err? <==> fails
      ensures r.Err? ==> r.error == DbError && inner.Contents() == old(inner.Contents()) && n == 0
      ensures r.Ok? ==> Model.FillsTo(Model.NewestFirst(repository.table), Budget(inner.cleanupStartMB), n)
      ensures n <= |Model.NewestFirst(repository.table)|
              && Rows() == Model.Filled(Model.NewestFirst(repository.table), n)
      ensures n > 0 ==> inner.firstKey == Model.NewestFirst(repository.table)[n - 1].id
    {
      n := 0;
      var listed := repository.List(Some(Filter(SORT_DESC, 0, 0, 0)), fails);
      if listed.Err? {
        return Err(listed.error), 0;
      }
      ghost var list := Values(listed.value);
      Model.NewestFirstFacts(repository.table);
      n := FillFrom(listed.value, Budget(inner.cleanupStartMB), list);
      PointersRows(listed.value, list, n);
      return Ok(()), n;
    }

    method FillFrom(tasks: seq<Task>, budget: nat, ghost list: seq<Row>) returns (ghost n: nat)
      requires list == Values(tasks) && Model.NewestOrder(list)
      requires inner.items == map[] && Wf(inner.Contents())
      modifies inner
      ensures Wf(inner.Contents()) && Model.FillsTo(list, budget, n) && inner.items == Pointers(tasks, list, n)
      ensures n > 0 ==> inner.firstKey == list[n - 1].id
    {
      n := 0;
      var totalSize := 0;
      for i := 0 to |tasks|
        invariant n == i && totalSize == Model.PrefixSize(list, i)
        invariant i > 0 ==> totalSize < budget && inner.firstKey == list[i - 1].id
        invariant Values(tasks) == list
        invariant Wf(inner.Contents()) && inner.items == Pointers(tasks, list, i)
      {
        var task := tasks[i];
        assert task.Value() == list[i];
        totalSize := totalSize + Bytes(task);
        if totalSize >= budget {
          return n;
        }
        FillOne(task, tasks, list, i);
        n := n + 1;
      }
    }
  }

  /** The first `n` listed tasks under their ids, as pointers. */
  ghost function Pointers(tasks: seq<Task>, list: seq<Row>, n: nat): (items: map<Key, Task>)
    requires n <= |tasks| == |list|
  {
    if n == 0 then map[] else Pointers(tasks, list, n - 1)[list[n - 1].id := tasks[n - 1]]
  }

  lemma {:induction false} PointersMin(tasks: seq<Task>, list: seq<Row>, n: nat)
    requires 0 < n <= |tasks| == |list| && Model.NewestOrder(list)
    ensures IsMin(Pointers(tasks, list, n).Keys, list[n - 1].id)
  {
    if n > 1 { PointersMin(tasks, list, n - 1); }
    assert Pointers(tasks, list, n).Keys == Pointers(tasks, list, n - 1).Keys + {list[n - 1].id};
  }

  lemma {:induction false} PointersRows(tasks: seq<Task>, list: seq<Row>, n: nat)
    requires n <= |tasks| && list == Values(tasks)
    ensures RowsOf(Pointers(tasks, list, n)) == Model.Filled(list, n)
  {
    if n > 0 {
      PointersRows(tasks, list, n - 1);
      RowsOfStore(Pointers(tasks, list, n - 1), list[n - 1].id, tasks[n - 1]);
    }
  }

  function Bytes(t: Task): (n: nat)
    reads t
    ensures n == Size(t.Value())
  {
    Size(Row(t.id, t.name, t.body, t.status, t.createdAt, t.updatedAt))
  }

  ghost function Seen(r: Result<Task, Error>): (v: Result<Row, Error>)
    reads if r.Ok? then {r.value} else {}
  {
    if r.Ok? then Ok(r.value.Value()) else Err(r.error)
  }

  /** A cached task that takes another id no longer sits under its own key. */
  lemma CachedAlias(s: Model.Sys, t': Table, items: map<Key, Task>, task: Task, id: Key)
    requires Model.Coherent(s) && items.Keys == s.cache.Keys
    requires task in items.Values && task.id == id && id !in s.table.rows
    ensures !Model.Coherent(Model.Sys(t', RowsOf(items[id := task])))
  {
    var k :| k in items && items[k] == task;
    assert k in s.cache && k != id;
    assert RowsOf(items[id := task])[k].id == id;
  }

  class TaskService {
    const repository: TaskRepository
    const cache: TaskCache

    constructor (repository: TaskRepository, cache: TaskCache)
      ensures this.repository == repository && this.cache == cache
    {
      this.repository, this.cache := repository, cache;
    }

    /** The value the model speaks about. */
    ghost function Sys(): (s: Model.Sys)
      reads repository, cache.inner, cache.inner.items.Values
    {
      Model.Sys(repository.table, cache.Rows())
    }

    /** The stored task gets its id and goes into the cache. */
    method Adopt(task: Task, id: Key)
      modifies cache.inner, task`id
      ensures old(Wf(cache.inner.Contents())) ==> Wf(cache.inner.Contents())
      ensures task.Value() == old(task.Value()).(id := id)
      ensures cache.inner.items == old(cache.inner.items)[id := task]
      ensures task !in old(cache.inner.items).Values ==>
                cache.Rows() == old(cache.Rows())[id := task.Value()]
    {
      ghost var items := cache.inner.items;
      ghost var rows := cache.Rows();
      task.id := id;
      cache.Store(task);
      assert task !in items.Values ==> RowsOf(items) == rows;
      RowsOfStore(items, id, task);
    }

    /** The statement, then the caller's own task becomes the cached one. */
    method StoreAndCache(task: Task, gap: nat, fault: Fault) returns (r: Result<Key, Error>)
      modifies repository, cache.inner, task`id
      ensures old(Wf(cache.inner.Contents())) ==> Wf(cache.inner.Contents())
      ensures (repository.table, r) == Insert(old(repository.table), old(task.Value()), gap, fault)
      ensures r.Err? ==> unchanged(task) && unchanged(cache.inner)
      ensures r.Ok? ==>
                && task.Value() == old(task.Value()).(id := r.value)
                && cache.inner.items == old(cache.inner.items)[r.value := task]
      ensures r.Ok? && task !in old(cache.inner.items).Values ==>
                cache.Rows() == old(cache.Rows())[r.value := task.Value()]
    {
      r := repository.Store(task, gap, fault);
      if r.Ok? {
        Adopt(task, r.value);
      }
    }

    /** On a task that is not cached yet this is the model's Create. */
    method CreateStep(task: Task, gap: nat, fault: Fault) returns (r: Result<Key, Error>)
      modifies repository, cache.inner, task`id
      ensures old(Wf(cache.inner.Contents())) ==> Wf(cache.inner.Contents())
      ensures (repository.table, r) == Insert(old(repository.table), old(task.Value()), gap, fault)
      ensures r.Err? ==> unchanged(task) && unchanged(cache.inner)
      ensures r.Ok? ==>
                && task.Value() == old(task.Value()).(id := r.value)
                && cache.inner.items == old(cache.inner.items)[r.value := task]
      ensures task !in old(cache.inner.items).Values ==>
                (Sys(), Model.Created(r)) == Model.Step(old(Sys()), Model.Create(old(task.Value()), gap, fault))
    {
      ghost var before := Sys();
      ghost var op := Model.Create(task.Value(), gap, fault);
      r := StoreAndCache(task, gap, fault);
      if r.Err? {
        assert Sys().cache == before.cache;
        Model.CreateFailed(before, op);
      } else {
        Model.CreateStored(before, op);
      }
    }

    /**
     Create follows the model unless the caller hands in a task that is already
     cached: the cache stays coherent exactly when it is not.
     */
    method Create(task: Task, gap: nat, fault: Fault) returns (r: Result<Key, Error>)
      modifies repository, cache.inner, task`id
      ensures old(Wf(cache.inner.Contents())) ==> Wf(cache.inner.Contents())
      ensures r.Err? ==> unchanged(task) && unchanged(cache.inner)
      ensures r.Ok? ==>
                && task.Value() == old(task.Value()).(id := r.value)
                && cache.inner.items == old(cache.inner.items)[r.value := task]
      ensures task !in old(cache.inner.items).Values ==>
                (Sys(), Model.Created(r)) == Model.Step(old(Sys()), Model.Create(old(task.Value()), gap, fault))
      ensures r.Ok? && old(Model.Coherent(Sys())) ==>
                (Model.Coherent(Sys()) <==> task !in old(cache.inner.items).Values)
      ensures (repository.table, r) == Insert(old(repository.table), old(task.Value()), gap, fault)
    {
      ghost var before := Sys();
      ghost var items := cache.inner.items;
      ghost var op := Model.Create(task.Value(), gap, fault);
      r := CreateStep(task, gap, fault);
      if r.Ok? && Model.Coherent(before) {
        if task in items.Values {
          CachedAlias(before, repository.table, items, task, r.value);
        } else {
          Model.CreateCoherence(before, op);
        }
      }
    }

    method Get(id: Key, fails: bool) returns (r: Result<Task, Error>)
      ensures Model.Task(Seen(r)) == Model.Step(Sys(), Model.Get(id, fails)).1
      ensures id in cache.inner.items ==> r == Ok(cache.inner.items[id])
      ensures id !in cache.inner.items && fails ==> r == Err(DbError)
      ensures id !in cache.inner.items && !fails ==>
                if id in repository.table.rows then r.Ok? && fresh(r.value) && r.value.Value() == repository.table.rows[id]
                else r == Err(NotFound)
    {
      var hit := cache.Get(id);
      if hit.Some? {
        return Ok(hit.value);
      }
      r := repository.Get(id, fails);
    }

    method List(limit: Key, offset: Key, countFails: bool, listFails: bool)
      returns (r: Result<(seq<Task>, nat), Error>)
      ensures match Model.Step(Sys(), Model.List(limit, offset, countFails, listFails)).1.page
              case Err(e) => r == Err(e)
              case Ok((rows, total)) =>
                r.Ok? && Values(r.value.0) == rows && r.value.1 == total
                && forall i :: 0 <= i < |r.value.0| ==> fresh(r.value.0[i])
      ensures countFails || listFails ==> r == Err(DbError)
      ensures !countFails && !listFails && TableOk(repository.table) ==>
                r.Ok? && Model.IsPage(repository.table.rows, limit, offset, Values(r.value.0), r.value.1)
    {
      if TableOk(repository.table) { Model.ListIsPage(repository.table, limit, offset); }
      var filter := Some(Filter(SORT_ASC, 0, limit, offset));
      var total := repository.Count(filter, countFails);
      if total.Err? {
        return Err(total.error);
      }
      var tasks := repository.List(filter, listFails);
      if tasks.Err? {
        return Err(tasks.error);
      }
      return Ok((tasks.value, total.value));
    }

    /** The assignments and status checks, in place and in the source's order. */
    method Apply(task: Task, params: Model.Params, now: Time) returns (refused: Option<Error>)
      modifies task
      ensures Model.Patch(old(task.Value()), params, now) ==
              if refused.Some? then Err(refused.value) else Ok(task.Value())
    {
      if params.name.Some? {
        task.name := params.name.value;
      }
      if params.body.Some? {
        task.body := params.body.value;
      }
      if params.status.Some? {
        var next := params.status.value;
        if !IsValid(next) {
          return Some(UnknownStatus);
        }
        if !CanTransitionTo(task.status, next) {
          return Some(InvalidTransition);
        }
        task.status := next;
      }
      task.updatedAt := Some(now);
      return None;
    }

    /** Up to the UPDATE statement only a private copy is written: nothing is modified here. */
    method LoadPatched(id: Key, params: Model.Params, now: Time, fails: bool, ghost fault: Fault)
      returns (r: Result<Task, Error>)
      ensures Seen(r) == Model.Patched(repository.table, Model.Update(id, params, now, fails, fault))
      ensures r.Ok? ==> fresh(r.value)
    {
      r := repository.Get(id, fails);
      if r.Ok? {
        var refused := Apply(r.value, params, now);
        if refused.Some? {
          r := Err(refused.value);
        }
      }
    }

    method UpdateStep(id: Key, params: Model.Params, now: Time, fails: bool, fault: Fault)
      returns (r: Result<Task, Error>)
      modifies repository, cache.inner
      ensures old(Wf(cache.inner.Contents())) ==> Wf(cache.inner.Contents())
      ensures (Sys(), Model.Task(Seen(r))) == Model.Step(old(Sys()), Model.Update(id, params, now, fails, fault))
      ensures r.Ok? ==> fresh(r.value)
      ensures Model.Patched(old(repository.table), Model.Update(id, params, now, fails, fault)).Err? ==>
                unchanged(repository) && unchanged(cache.inner)
    {
      ghost var before := Sys();
      ghost var op := Model.Update(id, params, now, fails, fault);
      r := LoadPatched(id, params, now, fails, fault);
      assert Sys() == before;
      if r.Err? {
        Model.UpdateRefused(before, op);
        return;
      }
      var task := r.value;
      ghost var row := task.Value();
      ghost var items := cache.inner.items;
      var res := Publish(id, task, fault);
      assert RowsOf(items) == before.cache && task.Value() == row;
      RowsOfPublished(items, id, task, res);
      if res.Err? {
        r := Err(res.error);
      }
      Model.UpdateWritten(before, op, row);
    }

    /** Nothing is published, and no table row changes, before every check has passed. */
    method Update(id: Key, params: Model.Params, now: Time, fails: bool, fault: Fault)
      returns (r: Result<Task, Error>)
      modifies repository, cache.inner
      ensures old(Wf(cache.inner.Contents())) ==> Wf(cache.inner.Contents())
      ensures (Sys(), Model.Task(Seen(r))) == Model.Step(old(Sys()), Model.Update(id, params, now, fails, fault))
      ensures r.Ok? ==> fresh(r.value)
      ensures Model.Patched(old(repository.table), Model.Update(id, params, now, fails, fault)).Err? ==>
                unchanged(repository) && unchanged(cache.inner)
      ensures old(TableOk(repository.table)) ==>
                Model.UpdateAnswers(old(repository.table), id, params, now, fails, fault, Seen(r))
    {
      ghost var before := Sys();
      r := UpdateStep(id, params, now, fails, fault);
      if TableOk(before.table) { Model.UpdateAnswered(before, id, params, now, fails, fault); }
    }

    /** The UPDATE statement and what it makes of the cache. */
    method Publish(id: Key, task: Task, fault: Fault) returns (res: Result<(), Error>)
      modifies repository, cache.inner
      ensures old(Wf(cache.inner.Contents())) ==> Wf(cache.inner.Contents())
      ensures (repository.table, res) == Change(old(repository.table), task.Value(), fault)
      ensures cache.inner.items == Published(old(cache.inner.items), id, task, res)
    {
      res := repository.Update(task, fault);
      if res.Err? {
        if res.error.NotFound? {
          cache.Delete(id);
        }
        return;
      }
      cache.Store(task);
    }

    /** The DELETE statement; a missing row is evicted too. */
    method Forget(id: Key, fault: Fault) returns (res: Result<(), Error>)
      modifies repository, cache.inner
      ensures old(Wf(cache.inner.Contents())) ==> Wf(cache.inner.Contents())
      ensures (repository.table, res) == Remove(old(repository.table), id, fault)
      ensures cache.inner.items == if res.Ok? || res.error.NotFound? then old(cache.inner.items) - {id}
                                   else old(cache.inner.items)
    {
      res := repository.Delete(id, fault);
      if res.Err? && !res.error.NotFound? {
        return;
      }
      cache.Delete(id);
    }

    method Delete(id: Key, fault: Fault) returns (r: Result<(), Error>)
      modifies repository, cache.inner
      ensures old(Wf(cache.inner.Contents())) ==> Wf(cache.inner.Contents())
      ensures (Sys(), Model.Deleted(r)) == Model.Step(old(Sys()), Model.Delete(id, fault))
      ensures fault.Healthy? ==>
                && r == (if id in old(repository.table.rows) then Ok(()) else Err(NotFound))
                && repository.table.rows == old(repository.table.rows) - {id}
                && cache.inner.items == old(cache.inner.items) - {id}
      ensures !fault.Healthy? ==> r == Err(DbError) && cache.inner.items == old(cache.inner.items)
    {
      ghost var before := Sys();
      ghost var items := cache.inner.items;
      r := Forget(id, fault);
      assert RowsOf(items) == before.cache;
      RowsOfRemove(items, id);
      assert cache.Rows() == if r.Ok? || r.error.NotFound? then before.cache - {id} else before.cache;
      Model.DeleteDone(before, id, fault);
    }

    method EvictItems()
      requires Wf(cache.inner.Contents())
      modifies cache.inner
      ensures Wf(cache.inner.Contents())
      ensures cache.inner.items == Kept(old(cache.inner.items))
    {
      cache.inner.Cleanup();
    }

    /** The memory monitor's eviction, between any two requests. */
    method Cleanup()
      requires Wf(cache.inner.Contents())
      modifies cache.inner
      ensures Wf(cache.inner.Contents())
      ensures (Sys(), Model.Silent) == Model.Step(old(Sys()), Model.Cleanup)
    {
      ghost var before := Sys();
      ghost var items := cache.inner.items;
      EvictItems();
      assert RowsOf(items) == before.cache;
      RowsOfEvicted(items);
      Model.CleanupDone(before);
    }
  }
}
