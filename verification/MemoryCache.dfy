/**
 The in-memory cache (pkg/cache/cache.go), one call at a time: a key/value map
 next to a length counter and a smallest-key index. `Cache` is the object the
 source mutates; `Step` is what each call does to its fields, from any state;
 `Wf` is the representation invariant, and the lemmas below show what runs keep.
 */
module MemoryCache {
  import opened Prelude
  import opened KeyOrder

  datatype State<V> = State(items: map<Key, V>, len: int, firstKey: Key)

  datatype Call<V> =
    | StoreCall(key: Key, value: V)
    | DeleteCall(key: Key)
    | CleanupCall

  /** The counter is the entry count and the index is the least key. */
  ghost predicate Wf<V>(c: State<V>) {
    c.len == |c.items| && (c.items != map[] ==> IsMin(c.items.Keys, c.firstKey))
  }

  function Stored<V>(c: State<V>, key: Key, value: V): (r: State<V>) {
    if key in c.items then c.(items := c.items[key := value])
    else State(c.items[key := value], c.len + 1,
               if c.len + 1 == 1 || key < c.firstKey then key else c.firstKey)
  }

  /** One visit order of `Range`: every key exactly once. */
  ghost predicate Enumerates(order: seq<Key>, keys: set<Key>) {
    Elements(order) == keys && |order| == |keys|
  }

  /** Delete's search for the new smallest key, with 0 standing for "nothing seen yet". */
  function Scan(order: seq<Key>): (next: Key) {
    if order == [] then 0 else
      var next := Scan(order[..|order| - 1]);
      var cur := order[|order| - 1];
      if next == 0 || cur < next then cur else next
  }

  function Deleted<V>(c: State<V>, key: Key, order: seq<Key>): (r: State<V>) {
    if key !in c.items then c
    else State(c.items - {key}, c.len - 1, if key == c.firstKey then Scan(order) else c.firstKey)
  }

  /** Go's integer division truncates toward zero. */
  function TruncDiv5(n: int): (q: int)
    ensures 0 <= n ==> 5 * q <= n < 5 * q + 5
    ensures n <= 0 ==> 5 * q - 5 < n <= 5 * q
  {
    if n >= 0 then n / 5 else -((-n) / 5)
  }

  function EvictCount(len: int, entries: nat): (r: nat)
    ensures r <= entries
  {
    var toRemove := TruncDiv5(len);
    if toRemove <= 0 then 0 else if toRemove > entries then entries else toRemove
  }

  /** Cleanup keeps the largest keys, all but a fifth of what the counter says. */
  ghost function Cleaned<V>(c: State<V>): (r: State<V>) {
    var gone := EvictCount(c.len, |c.items|);
    assert |c.items.Keys| == |c.items|;
    if gone == 0 then c else
      var kept := Restrict(c.items, Largest(c.items.Keys, |c.items| - gone));
      State(kept, c.len - gone, if kept.Keys == {} then 0 else Min(kept.Keys))
  }

  ghost predicate Step<V>(c: State<V>, call: Call<V>, c': State<V>) {
    match call
    case StoreCall(key, value) => c' == Stored(c, key, value)
    case DeleteCall(key) =>
      exists order :: Enumerates(order, c.items.Keys - {key}) && c' == Deleted(c, key, order)
    case CleanupCall => c' == Cleaned(c)
  }

  // ---------------------------------------------------------------- the sentinel scan

  lemma {:induction false} ScanWithoutZero(order: seq<Key>)
    requires 0 !in order
    ensures order == [] ==> Scan(order) == 0
    ensures order != [] ==> IsMin(Elements(order), Scan(order))
  {
    if order != [] {
      var init := order[..|order| - 1];
      ScanWithoutZero(init);
      assert order == init + [order[|order| - 1]];
      assert forall k :: k in Elements(order) <==> k in Elements(init) || k == order[|order| - 1];
    }
  }

  /** With 0 among the keys the sentinel forgets it, unless 0 happens to be visited last. */
  lemma {:induction false} ScanIsMinIff(order: seq<Key>)
    requires order != [] && |Elements(order)| == |order|
    ensures IsMin(Elements(order), Scan(order)) <==> 0 !in order || order[|order| - 1] == 0
  {
    if 0 !in order {
      ScanWithoutZero(order);
    } else {
      assert 0 in Elements(order);
      ScanZeroOnlyLast(order);
    }
  }

  lemma {:induction false} ScanZeroOnlyLast(order: seq<Key>)
    requires order != [] && |Elements(order)| == |order| && 0 in order
    ensures Scan(order) == 0 <==> order[|order| - 1] == 0
  {
    var init, last := order[..|order| - 1], order[|order| - 1];
    assert order == init + [last];
    assert Elements(order) == Elements(init) + {last};
    ElementsAtMost(init);
    assert last !in Elements(init) && |Elements(init)| == |init|;
    if last == 0 {
      assert 0 !in init;
      ScanWithoutZero(init);
      if init != [] { assert Scan(init) in Elements(init); }
    } else if init != [] {
      assert 0 in init;
      ScanZeroOnlyLast(init);
    }
  }

  lemma {:induction false} ElementsAtMost(ks: seq<Key>)
    ensures |Elements(ks)| <= |ks|
  {
    if ks != [] {
      ElementsAtMost(ks[1..]);
      assert Elements(ks) == {ks[0]} + Elements(ks[1..]);
    }
  }

  // ---------------------------------------------------------------- the representation invariant

  lemma CleanedKeys<V>(c: State<V>)
    requires Wf(c)
    ensures |c.items.Keys| == |c.items|
    ensures Cleaned(c).items == Restrict(c.items, Largest(c.items.Keys, |c.items| - |c.items| / 5))
    ensures |Cleaned(c).items| == |c.items| - |c.items| / 5
  {
    var n := |c.items|;
    var gone := EvictCount(c.len, n);
    assert gone == n / 5;
    assert |c.items.Keys| == n;
    var keep := Largest(c.items.Keys, n - gone);
    assert Restrict(c.items, keep).Keys == keep;
    if gone == 0 {
      LargestAll(c.items.Keys);
      assert Restrict(c.items, keep) == c.items;
    }
  }

  lemma StoreKeepsWf<V>(c: State<V>, key: Key, value: V)
    requires Wf(c)
    ensures Wf(Stored(c, key, value)) && Stored(c, key, value).items == c.items[key := value]
  {
    var c' := Stored(c, key, value);
    assert c'.items.Keys == c.items.Keys + {key};
    assert |c'.items.Keys| == |c.items.Keys| + if key in c.items then 0 else 1;
  }

  lemma CleanupKeepsWf<V>(c: State<V>)
    requires Wf(c)
    ensures Wf(Cleaned(c))
  {
    CleanedKeys(c);
  }

  /** Every call keeps the invariant; Delete's sentinel is sound even when key 0 was stored. */
  lemma StepKeepsWf<V>(c: State<V>, call: Call<V>, c': State<V>)
    requires Wf(c) && Step(c, call, c')
    ensures Wf(c')
    ensures call.StoreCall? ==> c'.items == c.items[call.key := call.value]
    ensures call.DeleteCall? ==> c'.items == c.items - {call.key}
    ensures |c.items.Keys| == |c.items|
    ensures call.CleanupCall? ==> c'.items == Restrict(c.items, Largest(c.items.Keys, |c.items| - |c.items| / 5))
  {
    match call
    case StoreCall(key, value) =>
      StoreKeepsWf(c, key, value);
    case DeleteCall(key) =>
      DeleteKeepsWf(c, key, c');
    case CleanupCall =>
      CleanedKeys(c);
      CleanupKeepsWf(c);
  }

  lemma DeleteKeepsWf<V>(c: State<V>, key: Key, c': State<V>)
    requires Wf(c) && Step(c, DeleteCall(key), c')
    ensures Wf(c') && c'.items == c.items - {key}
  {
    var order :| Enumerates(order, c.items.Keys - {key}) && c' == Deleted(c, key, order);
    if key !in c.items {
      assert c.items - {key} == c.items;
    } else {
      assert c'.items.Keys == c.items.Keys - {key};
      if key == c.firstKey {
        // every other key lies above the smallest one, so none of them is 0
        assert forall k :: k in order ==> k in Elements(order);
        assert 0 !in order;
        ScanWithoutZero(order);
      }
    }
  }

  ghost predicate Run<V>(states: seq<State<V>>, calls: seq<Call<V>>) {
    |states| == |calls| + 1 && forall i :: 0 <= i < |calls| ==> Step(states[i], calls[i], states[i + 1])
  }

  const EMPTY_FIRST_KEY: Key := 1

  /** Whole runs from a new or pre-filled cache: counter and index are right in every state. */
  lemma {:induction false} RunKeepsWf<V>(states: seq<State<V>>, calls: seq<Call<V>>, i: nat)
    requires Run(states, calls) && Wf(states[0]) && i < |states|
    ensures Wf(states[i])
  {
    if i > 0 {
      RunKeepsWf(states, calls, i - 1);
      StepKeepsWf(states[i - 1], calls[i - 1], states[i]);
    }
  }

  // ---------------------------------------------------------------- repeated eviction

  function Pow(b: nat, e: nat): (r: nat) {
    if e == 0 then 1 else b * Pow(b, e - 1)
  }

  ghost function CleanedTimes<V>(c: State<V>, k: nat): (r: State<V>) {
    if k == 0 then c else Cleaned(CleanedTimes(c, k - 1))
  }

  /** `kept` holds the largest keys of `items`, with their values. */
  ghost predicate HoldsLargest<V>(items: map<Key, V>, kept: map<Key, V>) {
    |kept| <= |items.Keys| && kept == Restrict(items, Largest(items.Keys, |kept|))
  }

  lemma LargestOfAll<V>(items: map<Key, V>)
    ensures HoldsLargest(items, items)
  {
    assert |items.Keys| == |items|;
    LargestAll(items.Keys);
    assert Restrict(items, items.Keys) == items;
  }

  lemma RestrictTwice<V>(m: map<Key, V>, a: set<Key>, b: set<Key>)
    requires b <= a
    ensures Restrict(Restrict(m, a), b) == Restrict(m, b)
  {
  }

  lemma LargestAgain<V>(items: map<Key, V>, kept: map<Key, V>, m: nat)
    requires HoldsLargest(items, kept) && m <= |kept|
    ensures |kept.Keys| == |kept| && HoldsLargest(items, Restrict(kept, Largest(kept.Keys, m)))
    ensures |Restrict(kept, Largest(kept.Keys, m))| == m
  {
    var keys, n := items.Keys, |kept|;
    assert |kept.Keys| == |kept|;
    assert kept.Keys == Largest(keys, n);
    LargestOfLargest(keys, n, m);
    RestrictTwice(items, Largest(keys, n), Largest(keys, m));
    var again := Restrict(kept, Largest(kept.Keys, m));
    assert again.Keys == Largest(keys, m) && |again.Keys| == |again|;
  }

  lemma CleanedAgain<V>(items: map<Key, V>, d: State<V>, e: State<V>)
    requires Wf(d) && HoldsLargest(items, d.items) && e == Cleaned(d)
    ensures HoldsLargest(items, e.items)
  {
    CleanedKeys(d);
    LargestAgain(items, d.items, |d.items| - |d.items| / 5);
  }

  lemma {:induction false} SurvivorsHoldLargest<V>(c: State<V>, k: nat)
    requires Wf(c)
    ensures Wf(CleanedTimes(c, k)) && HoldsLargest(c.items, CleanedTimes(c, k).items)
  {
    if k == 0 {
      LargestOfAll(c.items);
    } else {
      SurvivorsHoldLargest(c, k - 1);
      CleanupKeepsWf(CleanedTimes(c, k - 1));
      CleanedAgain(c.items, CleanedTimes(c, k - 1), CleanedTimes(c, k));
    }
  }

  /** After `k` cleanups the survivors are the largest original keys, with their values. */
  lemma SurvivorsAreLargest<V>(c: State<V>, k: nat)
    requires Wf(c)
    ensures Wf(CleanedTimes(c, k)) && |CleanedTimes(c, k).items| <= |c.items| == |c.items.Keys|
    ensures CleanedTimes(c, k).items == Restrict(c.items, Largest(c.items.Keys, |CleanedTimes(c, k).items|))
  {
    SurvivorsHoldLargest(c, k);
  }

  lemma ScaledStep(p5: nat, p4: nat, n: int, n0: int)
    requires n >= 4 && p5 * (n - 4) <= p4 * (n0 - 4)
    ensures (5 * p5) * ((n - n / 5) - 4) <= (4 * p4) * (n0 - 4)
  {
    var m := n - n / 5;
    assert 5 * (m - 4) <= 4 * (n - 4);
    assert p5 * (5 * (m - 4)) <= p5 * (4 * (n - 4));
    assert (5 * p5) * (m - 4) == p5 * (5 * (m - 4));
    assert p5 * (4 * (n - 4)) == 4 * (p5 * (n - 4));
    assert (4 * p4) * (n0 - 4) == 4 * (p4 * (n0 - 4));
  }

  /** `n` entries are left of `n0` after `k` cleanups: never under 4, a geometric bound, and 4 in the end. */
  ghost predicate Decayed(n0: int, k: nat, n: int) {
    && n >= 4
    && Pow(5, k) * (n - 4) <= Pow(4, k) * (n0 - 4)
    && (n == 4 || n + k <= n0)
  }

  function Left(n0: nat, k: nat): (n: int)
  {
    if k == 0 then n0 else Left(n0, k - 1) - Left(n0, k - 1) / 5
  }

  lemma CleanedWf<V>(d: State<V>)
    requires Wf(d)
    ensures Wf(Cleaned(d)) && |Cleaned(d).items| == |d.items| - |d.items| / 5
  {
    CleanupKeepsWf(d);
    CleanedKeys(d);
  }

  lemma {:induction false} LeftDecays(n0: nat, k: nat)
    requires n0 >= 4
    ensures Decayed(n0, k, Left(n0, k))
  {
    if k > 0 {
      LeftDecays(n0, k - 1);
      DecayStep(n0, k - 1, Left(n0, k - 1));
    }
  }

  lemma {:induction false} CleanedSize<V>(c: State<V>, k: nat)
    requires Wf(c)
    ensures Wf(CleanedTimes(c, k)) && |CleanedTimes(c, k).items| == Left(|c.items|, k)
  {
    if k > 0 {
      CleanedSize(c, k - 1);
      var d := CleanedTimes(c, k - 1);
      CleanedWf(d);
      assert Left(|c.items|, k) == |d.items| - |d.items| / 5;
    }
  }

  lemma DecayStep(n0: int, k: nat, n: int)
    requires Decayed(n0, k, n)
    ensures Decayed(n0, k + 1, n - n / 5)
  {
    ScaledStep(Pow(5, k), Pow(4, k), n, n0);
  }

  lemma EvictionBound<V>(c: State<V>, k: nat)
    requires Wf(c) && |c.items| >= 4
    ensures Decayed(|c.items|, k, |CleanedTimes(c, k).items|)
    ensures k >= |c.items| - 4 ==> |CleanedTimes(c, k).items| == 4
  {
    CleanedSize(c, k);
    LeftDecays(|c.items|, k);
  }

  // ---------------------------------------------------------------- sorting

  function InsertSorted(k: Key, ks: seq<Key>): (r: seq<Key>) {
    if ks == [] || k <= ks[0] then [k] + ks else [ks[0]] + InsertSorted(k, ks[1..])
  }

  function Sort(ks: seq<Key>): (r: seq<Key>) {
    if ks == [] then [] else InsertSorted(ks[0], Sort(ks[1..]))
  }

  lemma {:induction false} InsertAscending(k: Key, ks: seq<Key>)
    requires Ascending(ks) && k !in ks
    ensures Ascending(InsertSorted(k, ks)) && Elements(InsertSorted(k, ks)) == Elements(ks) + {k}
    ensures |InsertSorted(k, ks)| == |ks| + 1
  {
    if ks == [] || k <= ks[0] {
      assert Elements([k] + ks) == Elements(ks) + {k};
    } else {
      var rest := InsertSorted(k, ks[1..]);
      InsertAscending(k, ks[1..]);
      assert ks == [ks[0]] + ks[1..];
      assert Elements(ks) == {ks[0]} + Elements(ks[1..]);
      assert Elements([ks[0]] + rest) == {ks[0]} + Elements(rest);
      forall i | 0 <= i < |rest| ensures ks[0] < rest[i] {
        assert rest[i] in Elements(rest);
      }
    }
  }

  /** Sorting distinct keys yields the ascending enumeration of the same keys. */
  lemma {:induction false} SortAscending(ks: seq<Key>)
    requires |Elements(ks)| == |ks|
    ensures Ascending(Sort(ks)) && Elements(Sort(ks)) == Elements(ks) && |Sort(ks)| == |ks|
  {
    if ks != [] {
      assert Elements(ks) == {ks[0]} + Elements(ks[1..]);
      ElementsAtMost(ks[1..]);
      SortAscending(ks[1..]);
      assert ks[0] !in Elements(Sort(ks[1..]));
      InsertAscending(ks[0], Sort(ks[1..]));
    }
  }

  // ---------------------------------------------------------------- the object

  ghost predicate IsListing<V>(items: map<Key, V>, order: seq<Key>, values: seq<V>) {
    && Enumerates(order, items.Keys)
    && |values| == |order|
    && forall i :: 0 <= i < |order| ==> order[i] in items && values[i] == items[order[i]]
  }

  lemma AppendKey(order: seq<Key>, k: Key)
    requires |Elements(order)| == |order| && k !in Elements(order)
    ensures Elements(order + [k]) == Elements(order) + {k}
    ensures |Elements(order + [k])| == |order| + 1
  {
    assert Elements(order + [k]) == Elements(order) + {k};
  }

  /** A Range in progress: `rest` is still to be visited, `order` has been. */
  ghost predicate Visited(keys: set<Key>, rest: set<Key>, order: seq<Key>) {
    && rest <= keys && Elements(order) == keys - rest
    && |order| == |keys| - |rest| && |Elements(order)| == |order|
  }

  lemma VisitOne(keys: set<Key>, rest: set<Key>, order: seq<Key>, k: Key)
    requires Visited(keys, rest, order) && k in rest
    ensures Visited(keys, rest - {k}, order + [k]) && |rest - {k}| < |rest|
  {
    AppendKey(order, k);
  }

  lemma ScanAppend(order: seq<Key>, k: Key)
    ensures Scan(order + [k]) == if Scan(order) == 0 || k < Scan(order) then k else Scan(order)
  {
    assert (order + [k])[..|order|] == order;
  }

  /** `kept` is what is left once the first `n` of the sorted `keys` are gone. */
  ghost predicate Beyond<V>(items: map<Key, V>, keys: seq<Key>, n: nat, kept: map<Key, V>)
    requires n <= |keys|
  {
    && kept.Keys <= items.Keys && |kept.Keys| == |items.Keys| - n
    && (forall k :: k in kept ==> kept[k] == items[k])
    && (forall k :: k in items ==> (k in kept <==> n == 0 || keys[n - 1] < k))
  }

  lemma BeyondNext<V>(items: map<Key, V>, keys: seq<Key>, n: nat, kept: map<Key, V>)
    requires Ascending(keys) && Elements(keys) == items.Keys && n < |keys| && Beyond(items, keys, n, kept)
    ensures IsMin(kept.Keys, keys[n])
    ensures Beyond(items, keys, n + 1, kept - {keys[n]})
  {
    assert keys[n] in Elements(keys);
    forall k | k in kept ensures keys[n] <= k {
      assert k in Elements(keys);
      var j :| 0 <= j < |keys| && keys[j] == k;
    }
    assert (kept - {keys[n]}).Keys == kept.Keys - {keys[n]};
  }

  lemma BeyondIsLargest<V>(items: map<Key, V>, keys: seq<Key>, n: nat, kept: map<Key, V>)
    requires n <= |keys| == |items.Keys| && Beyond(items, keys, n, kept)
    ensures |items.Keys| == |items|
    ensures kept == Restrict(items, Largest(items.Keys, |items| - n))
  {
    LargestUnique(kept.Keys, items.Keys, |items.Keys| - n);
  }

  class Cache<V> {
    var items: map<Key, V>
    var len: int
    var firstKey: Key
    const cleanupStartMB: Key

    ghost function Contents(): (c: State<V>)
      reads this
    {
      State(items, len, firstKey)
    }

    constructor (cleanupStartMB: Key)
      ensures Contents() == State(map[], 0, EMPTY_FIRST_KEY) && Wf(Contents())
      ensures this.cleanupStartMB == cleanupStartMB
    {
      items, len, firstKey := map[], 0, EMPTY_FIRST_KEY;
      this.cleanupStartMB := cleanupStartMB;
    }

    method Store(key: Key, value: V)
      modifies this
      ensures Step(old(Contents()), StoreCall(key, value), Contents())
      ensures old(Wf(Contents())) ==> Wf(Contents())
      ensures items == old(items)[key := value]
    {
      ghost var before := Contents();
      if key !in items {
        items := items[key := value];
        len := len + 1;
        var first := firstKey;
        if len == 1 || key < first {
          firstKey := key;
        }
      } else {
        items := items[key := value];
      }
      if Wf(before) { StepKeepsWf(before, StoreCall(key, value), Contents()); }
    }

    method Delete(key: Key)
      modifies this
      ensures Step(old(Contents()), DeleteCall(key), Contents())
      ensures old(Wf(Contents())) ==> Wf(Contents())
      ensures items == old(items) - {key}
      ensures key !in old(items) ==> Contents() == old(Contents())
    {
      ghost var before := Contents();
      if key !in items {
        ghost var order := SortedKeys(items.Keys - {key});
        assert Contents() == Deleted(before, key, order);
        return;
      }
      items := items - {key};
      assert items.Keys == before.items.Keys - {key};
      len := len - 1;
      ghost var order: seq<Key> := SortedKeys(items.Keys);
      if key == firstKey {
        var next, visited := ScanKeys();
        firstKey := next;
        order := visited;
      }
      assert Contents() == Deleted(before, key, order);
      if Wf(before) { StepKeepsWf(before, DeleteCall(key), Contents()); }
    }

    /** The scan itself: whatever the visit order, the result is that order's `Scan`. */
    method ScanKeys() returns (next: Key, ghost order: seq<Key>)
      ensures Enumerates(order, items.Keys) && next == Scan(order)
    {
      next, order := 0, [];
      var rest := items.Keys;
      while rest != {}
        invariant Visited(items.Keys, rest, order) && next == Scan(order)
        decreases |rest|
      {
        var cur :| cur in rest;
        VisitOne(items.Keys, rest, order, cur);
        ScanAppend(order, cur);
        rest := rest - {cur};
        order := order + [cur];
        if next == 0 || cur < next {
          next := cur;
        }
      }
    }

    method Get(key: Key) returns (r: Option<V>)
      ensures r == if key in items then Some(items[key]) else None
    {
      if key !in items {
        return None;
      }
      return Some(items[key]);
    }

    method CollectValues() returns (values: seq<V>, ghost order: seq<Key>)
      ensures IsListing(items, order, values)
    {
      values, order := [], [];
      var rest := items.Keys;
      while rest != {}
        invariant Visited(items.Keys, rest, order) && |values| == |order|
        invariant forall i :: 0 <= i < |order| ==> order[i] in items && values[i] == items[order[i]]
        decreases |rest|
      {
        var k :| k in rest;
        VisitOne(items.Keys, rest, order, k);
        rest := rest - {k};
        order := order + [k];
        values := values + [items[k]];
      }
    }

    /** Every entry once, in some order, with the smallest key. None: the allocation panics. */
    method List() returns (r: Option<(seq<V>, Key)>)
      ensures r.None? <==> len < 0
      ensures r.Some? ==> r.value.1 == firstKey && exists order :: IsListing(items, order, r.value.0)
    {
      if len < 0 {
        return None;
      }
      var values, order := CollectValues();
      return Some((values, firstKey));
    }

    method SetFirstKey(key: Key)
      modifies this`firstKey
      ensures firstKey == key
    {
      firstKey := key;
    }

    method Cleanup()
      modifies this
      ensures Step(old(Contents()), CleanupCall, Contents())
      ensures old(Wf(Contents())) ==> Wf(Contents())
      ensures |old(items).Keys| == |old(items)|
      ensures old(Wf(Contents())) ==>
                items == Restrict(old(items), Largest(old(items).Keys, |old(items)| - |old(items)| / 5))
    {
      ghost var before := Contents();
      CleanupBody();
      if Wf(before) { StepKeepsWf(before, CleanupCall, Contents()); }
    }

    method CleanupBody()
      modifies this
      ensures Contents() == Cleaned(old(Contents()))
    {
      ghost var before := Contents();
      var toRemove := TruncDiv5(len);
      if toRemove <= 0 {
        return;
      }
      var keys := CollectKeys();
      if |keys| == 0 {
        return;
      }
      SortAscending(keys);
      keys := Sort(keys);
      if toRemove > |keys| {
        toRemove := |keys|;
      }
      RemoveFirst(keys, toRemove);
      BeyondIsLargest(before.items, keys, toRemove, items);
      if toRemove < |keys| {
        BeyondNext(before.items, keys, toRemove, items);
        firstKey := keys[toRemove];
        MinUnique(items.Keys, firstKey);
      } else {
        firstKey := 0;
      }
    }

    method CollectKeys() returns (keys: seq<Key>)
      ensures Enumerates(keys, items.Keys) && |Elements(keys)| == |keys|
    {
      keys := [];
      var rest := items.Keys;
      while rest != {}
        invariant Visited(items.Keys, rest, keys)
        decreases |rest|
      {
        var k :| k in rest;
        VisitOne(items.Keys, rest, keys, k);
        rest := rest - {k};
        keys := keys + [k];
      }
    }

    method RemoveFirst(keys: seq<Key>, n: nat)
      requires Ascending(keys) && Elements(keys) == items.Keys && n <= |keys|
      modifies this`items, this`len
      ensures Beyond(old(items), keys, n, items) && len == old(len) - n
    {
      for i := 0 to n
        invariant Beyond(old(items), keys, i, items) && len == old(len) - i
      {
        BeyondNext(old(items), keys, i, items);
        items := items - {keys[i]};
        len := len - 1;
      }
    }
  }
}
