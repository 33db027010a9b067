/** The task entity and its status lifecycle (internal/domain/task.go). */
module Domain {
  import opened Prelude

  /** Statuses are free text in the table; five of them are known. */
  type Status = string

  const NEW: Status := "NEW"
  const IN_PROCESS: Status := "IN_PROCESS"
  const PAUSE: Status := "PAUSE"
  const COMPLETE: Status := "COMPLETE"
  const CANCEL: Status := "CANCEL"

  predicate IsValid(s: Status) {
    s in {NEW, IN_PROCESS, PAUSE, COMPLETE, CANCEL}
  }

  predicate CanTransitionTo(s: Status, next: Status) {
    if !IsValid(next) then false
    else if s == next then true
    else if next == CANCEL || next == PAUSE then s != COMPLETE && s != CANCEL
    else if next == IN_PROCESS then s == NEW || s == PAUSE
    else if next == COMPLETE then s == IN_PROCESS
    else false
  }

  /** The documented statuses and lifecycle, move by move. */
  const KNOWN: set<Status> := {"NEW", "IN_PROCESS", "PAUSE", "COMPLETE", "CANCEL"}
  const MOVES: set<(Status, Status)> := {
    ("NEW", "IN_PROCESS"), ("IN_PROCESS", "COMPLETE"), ("PAUSE", "IN_PROCESS"),
    ("NEW", "PAUSE"), ("IN_PROCESS", "PAUSE"), ("NEW", "CANCEL"), ("IN_PROCESS", "CANCEL"), ("PAUSE", "CANCEL")
  }

  lemma StatusesDiffer()
    ensures "NEW"[0] == 'N' && "IN_PROCESS"[0] == 'I' && "PAUSE"[0] == 'P'
    ensures "COMPLETE"[0] == "CANCEL"[0] == 'C' && "COMPLETE"[1] == 'O' && "CANCEL"[1] == 'A'
  {
  }

  /** A status is valid iff it is known, iff a task may keep it. */
  lemma ValidIffKnown(s: Status)
    ensures IsValid(s) <==> s in KNOWN
    ensures IsValid(s) <==> CanTransitionTo(s, s)
  {
  }

  /** From a known status the code allows exactly the documented moves and staying put. */
  lemma TransitionsAreDocumented(s: Status, next: Status)
    requires s in KNOWN
    ensures CanTransitionTo(s, next) <==> s == next || (s, next) in MOVES
  {
    StatusesDiffer();
  }

  /** Text that is no known status can only be paused or cancelled. */
  lemma UnknownStatusMoves(s: Status, next: Status)
    requires s !in KNOWN
    ensures CanTransitionTo(s, next) <==> next == "PAUSE" || next == "CANCEL"
  {
    StatusesDiffer();
  }

  datatype Error = NotFound | UnknownStatus | InvalidTransition | DbError

  /** The value of a task: a table row, or what a Task object holds. */
  datatype Row = Row(id: Key, name: string, body: string, status: Status, createdAt: Time, updatedAt: Option<Time>)

  const TASK_BYTES: nat := 88
  const TIME_BYTES: nat := 24

  function Size(r: Row): (n: nat)
    ensures n > 0
  {
    TASK_BYTES + |r.name| + |r.body| + |r.status| + if r.updatedAt.Some? then TIME_BYTES else 0
  }

  /** What counts towards a task's size: every character once, and the update time if there is one. */
  lemma SizeAdds(r: Row, more: string, t: Time)
    ensures Size(r.(name := r.name + more)) == Size(r) + |more|
    ensures Size(r.(body := r.body + more)) == Size(r) + |more|
    ensures Size(r.(status := r.status + more)) == Size(r) + |more|
    ensures r.updatedAt.None? ==> Size(r.(updatedAt := Some(t))) == Size(r) + 24
    ensures r.name == "" && r.body == "" && r.status == "" && r.updatedAt.None? ==> Size(r) == 88
  {
  }

  /** A task on the heap; pointers to it are shared between callers and the cache. */
  class Task {
    var id: Key
    var name: string
    var body: string
    var status: Status
    var createdAt: Time
    var updatedAt: Option<Time>

    ghost function Value(): (r: Row)
      reads this
    {
      Row(id, name, body, status, createdAt, updatedAt)
    }

    /** A task handed to the service for the first time. */
    constructor New(name: string, body: string, now: Time)
      ensures Value() == Row(0, name, body, NEW, now, None)
    {
      id, status, updatedAt := 0, NEW, None;
      this.name, this.body, createdAt := name, body, now;
    }

    /** A task scanned from a table row. */
    constructor FromRow(r: Row)
      ensures Value() == r
    {
      id, name, body, status := r.id, r.name, r.body, r.status;
      createdAt, updatedAt := r.createdAt, r.updatedAt;
    }
  }
}
