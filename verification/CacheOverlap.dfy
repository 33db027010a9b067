/**
 Overlapping stores and the smallest-key index (pkg/cache/cache.go:56-66). Any number of
 stores have inserted their keys and are somewhere between counting them and their last
 look at the index. The module says exactly when every order of their remaining steps
 ends with the right index.
 */
module CacheOverlap {
  import opened Prelude
  import opened KeyOrder
  import opened CacheInterleaving

  predicate Storing<V>(pc: Pc<V>) {
    pc.StoreCount? || pc.StoreReadFirst? || pc.StoreFirst?
  }

  /** Left alone from here, this store writes its key to the index. */
  predicate Armed<V>(pc: Pc<V>, len: int, first: Key) {
    match pc
    case StoreCount(key) => len == 0 || key < first
    case StoreReadFirst(key, newLen) => newLen == 1 || key < first
    case StoreFirst(key, newLen, seen) => newLen == 1 || key < seen
    case _ => false
  }

  ghost function Stores<V>(s: State<V>): (ts: set<Tid>) {
    set t | t in s.threads && Storing(s.threads[t])
  }

  /** The stored keys are there, and the counter has not been overtaken. */
  ghost predicate Orderly<V>(s: State<V>) {
    s.items.Keys != {} && s.len >= 0 && forall t :: t in Stores(s) ==> s.threads[t].key in s.items
  }

  /** One remaining step of a store. */
  function Went<V>(s: State<V>, t: Tid): (s': State<V>)
    requires t in s.threads && Storing(s.threads[t])
    ensures Next(s, t, Go) == Some(s')
    ensures s'.items == s.items && OnlyMoves(s, t, s')
  {
    StoreStep(s, t, s.threads[t]).value
  }

  function StoreExec<V>(s: State<V>, ts: seq<Tid>): (r: Option<State<V>>)
    decreases |ts|
  {
    if ts == [] then Some(s)
    else if ts[0] in s.threads && Storing(s.threads[ts[0]]) then StoreExec(Went(s, ts[0]), ts[1..])
    else None
  }

  /** Every order in which the stores can finish leaves the index on the least key. */
  ghost predicate SettlesRight<V>(s: State<V>) {
    forall ts :: StoreExec(s, ts).Some? && Stores(StoreExec(s, ts).value) == {} ==>
      IsMin(s.items.Keys, StoreExec(s, ts).value.firstKey)
  }

  /** Only the store of the least key will write, and it will if it must. */
  ghost predicate OnlyLeastArmed<V>(s: State<V>, m: Key) {
    && (forall t :: t in Stores(s) && Armed(s.threads[t], s.len, s.firstKey) ==> s.threads[t].key == m)
    && (s.firstKey == m || exists t :: t in Stores(s) && Armed(s.threads[t], s.len, s.firstKey))
  }

  // ---------------------------------------------------------------- sufficient

  lemma WentStores<V>(s: State<V>, t: Tid)
    requires Orderly(s) && t in Stores(s)
    ensures Orderly(Went(s, t))
    ensures Stores(Went(s, t)) == if s.threads[t].StoreFirst? then Stores(s) - {t} else Stores(s)
  {
  }

  /** Nobody but the least key's store is armed by a step, and what was armed is armed still or has written. */
  lemma WentKeepsArmed<V>(s: State<V>, t: Tid, m: Key)
    requires Orderly(s) && t in Stores(s) && IsMin(s.items.Keys, m) && OnlyLeastArmed(s, m)
    ensures OnlyLeastArmed(Went(s, t), m)
  {
    var s' := Went(s, t);
    WentStores(s, t);
    forall u | u in Stores(s') && Armed(s'.threads[u], s'.len, s'.firstKey) ensures s'.threads[u].key == m {
      assert u in Stores(s);
      if u != t { assert s'.threads[u] == s.threads[u]; }
    }
    if s'.firstKey != m {
      assert s.firstKey != m;
      var u :| u in Stores(s) && Armed(s.threads[u], s.len, s.firstKey);
      WitnessStays(s, t, u);
    }
  }

  lemma WitnessStays<V>(s: State<V>, t: Tid, u: Tid)
    requires t in Stores(s) && u in Stores(s) && Armed(s.threads[u], s.len, s.firstKey)
    requires Went(s, t).firstKey == s.firstKey || !Armed(s.threads[t], s.len, s.firstKey)
    requires s.threads[t].StoreFirst? ==> !Armed(s.threads[t], s.len, s.firstKey)
    ensures exists v :: v in Stores(Went(s, t)) && Armed(Went(s, t).threads[v], Went(s, t).len, Went(s, t).firstKey)
  {
    var s' := Went(s, t);
    if Armed(s.threads[t], s.len, s.firstKey) {
      assert t in Stores(s') && Armed(s'.threads[t], s'.len, s'.firstKey);
    } else {
      assert u != t && s'.threads[u] == s.threads[u];
      assert u in Stores(s') && Armed(s'.threads[u], s'.len, s'.firstKey);
    }
  }

  lemma {:induction false} ArmedSettles<V>(s: State<V>, ts: seq<Tid>, m: Key)
    requires Orderly(s) && IsMin(s.items.Keys, m) && OnlyLeastArmed(s, m) && StoreExec(s, ts).Some?
    ensures Orderly(StoreExec(s, ts).value) && OnlyLeastArmed(StoreExec(s, ts).value, m)
    decreases |ts|
  {
    if ts != [] {
      assert ts[0] in Stores(s);
      WentStores(s, ts[0]);
      WentKeepsArmed(s, ts[0], m);
      ArmedSettles(Went(s, ts[0]), ts[1..], m);
    }
  }

  // ---------------------------------------------------------------- necessary

  function Left<V>(pc: Pc<V>): (n: nat) {
    if pc.StoreCount? then 3 else if pc.StoreReadFirst? then 2 else if pc.StoreFirst? then 1 else 0
  }

  lemma {:induction false} ExecAppend<V>(s: State<V>, ts: seq<Tid>, us: seq<Tid>)
    requires StoreExec(s, ts).Some?
    ensures StoreExec(s, ts + us) == StoreExec(StoreExec(s, ts).value, us)
    decreases |ts|
  {
    if ts == [] {
      assert ts + us == us;
    } else {
      assert (ts + us)[1..] == ts[1..] + us;
      ExecAppend(Went(s, ts[0]), ts[1..], us);
    }
  }

  /** One store runs to its last step, or to its end. */
  lemma {:induction false} RunTo<V>(s: State<V>, t: Tid, left: nat) returns (ts: seq<Tid>)
    requires Orderly(s) && t in Stores(s) && left <= 1
    ensures StoreExec(s, ts).Some?
    ensures var s' := StoreExec(s, ts).value;
            && Orderly(s') && OnlyMoves(s, t, s') && s'.items == s.items && Left(s'.threads[t]) == left
            && (left == 1 ==> s'.firstKey == s.firstKey && s'.threads[t].key == s.threads[t].key
                              && (Armed(s'.threads[t], s'.len, s'.firstKey) <==> Armed(s.threads[t], s.len, s.firstKey)))
            && (!Armed(s.threads[t], s.len, s.firstKey) ==> s'.firstKey == s.firstKey)
            && s.len <= s'.len
    decreases Left(s.threads[t])
  {
    if Left(s.threads[t]) == left {
      ts := [];
    } else {
      var s1 := Went(s, t);
      WentStores(s, t);
      if s.threads[t].StoreFirst? {
        ts := [t];
        assert [t][1..] == [];
      } else {
        var rest := RunTo(s1, t, left);
        ts := [t] + rest;
        assert ts[1..] == rest;
      }
    }
  }

  ghost predicate AllDisarmed<V>(s: State<V>, ts: set<Tid>) {
    forall t :: t in ts && t in s.threads ==> !Armed(s.threads[t], s.len, s.firstKey)
  }

  /** The kept stores have not moved; all others have finished, and the index stays if none of them was armed. */
  ghost predicate OthersDone<V>(s: State<V>, kept: set<Tid>, s': State<V>) {
    && Orderly(s') && s'.items == s.items && Stores(s') == Stores(s) * kept
    && (forall t :: t in kept && t in s.threads ==> t in s'.threads && s'.threads[t] == s.threads[t])
    && (AllDisarmed(s, Stores(s) - kept) ==> s'.firstKey == s.firstKey)
  }

  lemma {:induction false} FinishOthers<V>(s: State<V>, kept: set<Tid>) returns (ts: seq<Tid>)
    requires Orderly(s)
    ensures StoreExec(s, ts).Some? && OthersDone(s, kept, StoreExec(s, ts).value)
    decreases |Stores(s) - kept|
  {
    if Stores(s) - kept == {} {
      ts := [];
      assert Stores(s) == Stores(s) * kept;
    } else {
      var t :| t in Stores(s) - kept;
      var us := RunTo(s, t, 0);
      var s1 := StoreExec(s, us).value;
      OneDone(s, t, s1, kept);
      var vs := FinishOthers(s1, kept);
      ExecAppend(s, us, vs);
      ts := us + vs;
      DoneThen(s, t, s1, kept, StoreExec(s1, vs).value);
    }
  }

  lemma OneDone<V>(s: State<V>, t: Tid, s1: State<V>, kept: set<Tid>)
    requires t in Stores(s) && t !in kept && OnlyMoves(s, t, s1) && Left(s1.threads[t]) == 0
    ensures Stores(s1) == Stores(s) - {t}
    ensures Stores(s1) - kept == Stores(s) - kept - {t} && |Stores(s1) - kept| < |Stores(s) - kept|
  {
    assert Stores(s1) == Stores(s) - {t};
    assert Stores(s1) - kept == Stores(s) - kept - {t};
  }

  lemma DoneThen<V>(s: State<V>, t: Tid, s1: State<V>, kept: set<Tid>, s': State<V>)
    requires t in Stores(s) && t !in kept && OnlyMoves(s, t, s1) && Stores(s1) == Stores(s) - {t}
    requires 0 <= s.len <= s1.len && s1.items == s.items
    requires !Armed(s.threads[t], s.len, s.firstKey) ==> s1.firstKey == s.firstKey
    requires OthersDone(s1, kept, s')
    ensures OthersDone(s, kept, s')
  {
    assert Stores(s1) * kept == Stores(s) * kept;
    forall u | u in kept && u in s.threads ensures u in s'.threads && s'.threads[u] == s.threads[u] {
      assert s1.threads[u] == s.threads[u];
    }
    if AllDisarmed(s, Stores(s) - kept) {
      forall u | u in Stores(s1) - kept && u in s1.threads ensures !Armed(s1.threads[u], s1.len, s1.firstKey) {
        assert u in Stores(s) - kept && s1.threads[u] == s.threads[u];
      }
    }
  }

  /** An armed store of another key can be the last to write. */
  lemma WrongWriterLast<V>(s: State<V>, t: Tid) returns (ts: seq<Tid>)
    requires Orderly(s) && t in Stores(s) && Armed(s.threads[t], s.len, s.firstKey)
    ensures StoreExec(s, ts).Some? && Stores(StoreExec(s, ts).value) == {}
    ensures StoreExec(s, ts).value.firstKey == s.threads[t].key
  {
    var us := RunTo(s, t, 1);
    var s1 := StoreExec(s, us).value;
    var vs := FinishOthers(s1, {t});
    var s2 := StoreExec(s1, vs).value;
    assert t in Stores(s1) && s2.threads[t] == s1.threads[t];
    WentStores(s2, t);
    assert [t][1..] == [];
    assert StoreExec(s2, [t]) == Some(Went(s2, t));
    ExecAppend(s1, vs, [t]);
    ExecAppend(s, us, vs + [t]);
    ts := us + (vs + [t]);
  }

  /** Any number of overlapping stores settle right, in whatever order, iff only the least key's store is armed. */
  lemma SettlesRightIff<V>(s: State<V>)
    requires Orderly(s)
    ensures SettlesRight(s) <==> OnlyLeastArmed(s, Min(s.items.Keys))
  {
    var m := Min(s.items.Keys);
    if OnlyLeastArmed(s, m) {
      forall ts | StoreExec(s, ts).Some? && Stores(StoreExec(s, ts).value) == {}
        ensures IsMin(s.items.Keys, StoreExec(s, ts).value.firstKey)
      {
        ArmedSettles(s, ts, m);
      }
    } else if t :| t in Stores(s) && Armed(s.threads[t], s.len, s.firstKey) && s.threads[t].key != m {
      var ts := WrongWriterLast(s, t);
      assert !IsMin(s.items.Keys, StoreExec(s, ts).value.firstKey);
    } else {
      var ts := FinishOthers(s, {});
      assert StoreExec(s, ts).value.firstKey == s.firstKey;
      assert !IsMin(s.items.Keys, StoreExec(s, ts).value.firstKey);
    }
  }

  // ---------------------------------------------------------------- in terms of the keys

  /** The keys the stores in flight have inserted. */
  ghost function Inserted<V>(s: State<V>): (ks: set<Key>) {
    set t | t in Stores(s) :: s.threads[t].key
  }

  /** Stores of distinct new keys, none counted yet, into a cache whose counter and index were right. */
  ghost predicate JustInserted<V>(s: State<V>, rest: set<Key>) {
    && rest == s.items.Keys - Inserted(s) && s.len == |rest| && (rest != {} ==> IsMin(rest, s.firstKey))
    && (forall t :: t in Stores(s) ==> s.threads[t].StoreCount? && s.threads[t].key in s.items)
    && (forall t, u :: t in Stores(s) && u in Stores(s) && t != u ==> s.threads[t].key != s.threads[u].key)
  }

  /** No two of them meet in an empty cache, and at most one lies below the index. */
  ghost predicate AtMostOneLowers<V>(s: State<V>, rest: set<Key>) {
    forall t, u :: t in Stores(s) && u in Stores(s) && t != u ==>
      rest != {} && (s.firstKey < s.threads[t].key || s.firstKey < s.threads[u].key)
  }

  lemma NotTheIndex<V>(s: State<V>, rest: set<Key>, t: Tid)
    requires JustInserted(s, rest) && t in Stores(s) && rest != {}
    ensures s.threads[t].key != s.firstKey
  {
    assert s.threads[t].key in Inserted(s);
  }

  lemma LowererIsLeast<V>(s: State<V>, rest: set<Key>, t: Tid, m: Key)
    requires JustInserted(s, rest) && AtMostOneLowers(s, rest) && IsMin(s.items.Keys, m)
    requires t in Stores(s) && Armed(s.threads[t], s.len, s.firstKey)
    ensures s.threads[t].key == m
  {
    assert m in rest || m in Inserted(s);
    if u :| u in Stores(s) && s.threads[u].key == m && u != t { assert false; }
  }

  lemma SomeoneIsRight<V>(s: State<V>, rest: set<Key>, m: Key)
    requires JustInserted(s, rest) && IsMin(s.items.Keys, m)
    ensures s.firstKey == m || exists t :: t in Stores(s) && Armed(s.threads[t], s.len, s.firstKey)
  {
    if m in Inserted(s) {
      var t :| t in Stores(s) && s.threads[t].key == m;
      if rest != {} {
        NotTheIndex(s, rest, t);
        assert s.firstKey in s.items.Keys;
      }
      assert Armed(s.threads[t], s.len, s.firstKey);
    } else {
      assert m in rest;
    }
  }

  /** Stores that overlap from their insertion on settle right in every order iff at most one of them lowers the index. */
  lemma OverlapIff<V>(s: State<V>, rest: set<Key>)
    requires JustInserted(s, rest) && s.items.Keys != {}
    ensures SettlesRight(s) <==> AtMostOneLowers(s, rest)
  {
    var m := Min(s.items.Keys);
    assert Orderly(s);
    SettlesRightIff(s);
    if AtMostOneLowers(s, rest) {
      forall t | t in Stores(s) && Armed(s.threads[t], s.len, s.firstKey) ensures s.threads[t].key == m {
        LowererIsLeast(s, rest, t, m);
      }
      SomeoneIsRight(s, rest, m);
    } else {
      var t, u :| t in Stores(s) && u in Stores(s) && t != u
        && !(rest != {} && (s.firstKey < s.threads[t].key || s.firstKey < s.threads[u].key));
      if rest != {} {
        NotTheIndex(s, rest, t);
        NotTheIndex(s, rest, u);
      }
      assert Armed(s.threads[t], s.len, s.firstKey) && Armed(s.threads[u], s.len, s.firstKey);
    }
  }
}
