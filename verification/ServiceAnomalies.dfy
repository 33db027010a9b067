/**
 What overlapping writers of one id can do: serve a deleted task with no request
 in flight, and move a task out of a terminal status.
 */
module ServiceAnomalies {
  import opened Prelude
  import opened Domain
  import opened Repository
  import opened ServiceInterleaving
  import Model = ServiceModel

  lemma Extend(states: seq<State>, acts: seq<Act>, a: Act) returns (states': seq<State>, acts': seq<Act>)
    requires Trace(states, acts) && Next(states[|acts|], a).Some?
    ensures Trace(states', acts') && |acts'| == |acts| + 1 && states' == states + [Next(states[|acts|], a).value]
  {
    states', acts' := states + [Next(states[|acts|], a).value], acts + [a];
    forall i | 0 <= i < |acts'| ensures Next(states'[i], acts'[i]) == Some(states'[i + 1]) {
      if i < |acts| { assert Next(states[i], acts[i]) == Some(states[i + 1]); }
    }
  }

  const NO_CHANGE: Model.Params := Model.Params(None, None, None)

  function Starting(row: Row): (s: State) {
    State(Table(map[1 := row], 2), map[], map[1 := {row}], map[])
  }

  /** Client 0's update has reached the table but not yet the cache. */
  lemma UpdateHalfway(row: Row) returns (states: seq<State>, acts: seq<Act>)
    requires row.id == 1
    ensures Trace(states, acts) && states[0] == Starting(row) && Initial(states[0])
    ensures var s := states[|acts|];
            var new_ := row.(updatedAt := Some(5));
            s.table == Table(map[1 := new_], 2) && s.cache == map[] && s.clients == map[0 := CacheProbe(new_)]
  {
    var new_ := row.(updatedAt := Some(5));
    states, acts := [Starting(row)], [];
    states, acts := Extend(states, acts, Call(0, UpdateLoad(1, NO_CHANGE)));
    states, acts := Extend(states, acts, Go(0, 0, 5, Healthy));
    assert states[|acts|].clients == map[0 := UpdateWrite(row, new_)];
    states, acts := Extend(states, acts, Go(0, 0, 0, Healthy));
  }

  /** Client 1 deletes the task meanwhile. */
  lemma DeletedMeanwhile(row: Row) returns (states: seq<State>, acts: seq<Act>)
    requires row.id == 1
    ensures Trace(states, acts) && Initial(states[0])
    ensures var s := states[|acts|];
            && s.table == Table(map[], 2) && s.cache == map[]
            && s.clients == map[0 := CacheProbe(row.(updatedAt := Some(5))), 1 := Idle]
  {
    var new_ := row.(updatedAt := Some(5));
    states, acts := UpdateHalfway(row);
    states, acts := Extend(states, acts, Call(1, DeleteRow(1)));
    states, acts := Extend(states, acts, Go(1, 0, 0, Healthy));
    assert states[|acts|].clients == map[0 := CacheProbe(new_), 1 := Evicting(1)];
    states, acts := Extend(states, acts, Go(1, 0, 0, Healthy));
  }

  /** Then client 0's store brings the task back: no writer is in flight, and Get serves a ghost. */
  lemma DeletedTaskIsServed(row: Row) returns (states: seq<State>, acts: seq<Act>)
    requires row.id == 1
    ensures Trace(states, acts) && Initial(states[0])
    ensures var s := states[|acts|];
            && 1 !in s.table.rows && 1 in s.cache
            && s.clients == map[0 := Idle, 1 := Idle, 2 := Served(1, Ok(row.(updatedAt := Some(5))))]
  {
    states, acts := DeletedMeanwhile(row);
    states, acts := Extend(states, acts, Go(0, 0, 0, Healthy));
    assert states[|acts|].clients == map[0 := Idle, 1 := Idle];
    states, acts := Extend(states, acts, Call(2, GetCache(1)));
    states, acts := Extend(states, acts, Go(2, 0, 0, Healthy));
  }

  function SetStatus(status: Status): (p: Model.Params) {
    Model.Params(None, None, Some(status))
  }

  lemma BothCalled(row: Row) returns (states: seq<State>, acts: seq<Act>)
    ensures Trace(states, acts) && states[0] == Starting(row)
    ensures states[|acts|] == Starting(row).(clients := map[0 := UpdateLoad(1, SetStatus(COMPLETE)),
                                                            1 := UpdateLoad(1, SetStatus(CANCEL))])
  {
    states, acts := [Starting(row)], [];
    states, acts := Extend(states, acts, Call(0, UpdateLoad(1, SetStatus(COMPLETE))));
    states, acts := Extend(states, acts, Call(1, UpdateLoad(1, SetStatus(CANCEL))));
  }

  /** Two updates load the same IN_PROCESS row. */
  lemma BothLoaded(row: Row) returns (states: seq<State>, acts: seq<Act>)
    requires row.id == 1 && row.status == IN_PROCESS
    ensures Trace(states, acts) && states[0] == Starting(row) && Initial(states[0])
    ensures var s := states[|acts|];
            && s.table == Table(map[1 := row], 2) && s.cache == map[]
            && s.clients == map[0 := UpdateWrite(row, row.(status := COMPLETE, updatedAt := Some(5))),
                                1 := UpdateWrite(row, row.(status := CANCEL, updatedAt := Some(6)))]
  {
    states, acts := BothCalled(row);
    states, acts := Extend(states, acts, Go(0, 0, 5, Healthy));
    states, acts := Extend(states, acts, Go(1, 0, 6, Healthy));
  }

  /** The second write cancels a completed task. */
  lemma CompletedTaskIsCancelled(row: Row) returns (states: seq<State>, acts: seq<Act>)
    requires row.id == 1 && row.status == IN_PROCESS
    ensures Trace(states, acts) && Initial(states[0]) && |acts| > 0
    ensures var t, t' := states[|acts| - 1].table, states[|acts|].table;
            && 1 in t.rows && t.rows[1].status == COMPLETE
            && 1 in t'.rows && t'.rows[1].status == CANCEL
            && !CanTransitionTo(COMPLETE, CANCEL)
  {
    states, acts := BothLoaded(row);
    states, acts := Extend(states, acts, Go(0, 0, 0, Healthy));
    states, acts := Extend(states, acts, Go(1, 0, 0, Healthy));
  }
}
