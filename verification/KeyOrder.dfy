/**
 Order facts about finite key sets: least key, the `n` largest keys, and the
 ascending enumeration. Eviction, the smallest-key index and the repository's
 ORDER BY are all specified with these.
 */
module KeyOrder {
  import opened Prelude

  ghost predicate IsMin(s: set<Key>, k: Key) {
    k in s && forall j :: j in s ==> k <= j
  }

  ghost predicate UpwardClosed(t: set<Key>, s: set<Key>) {
    t <= s && forall j, k :: k in t && j in s && k < j ==> j in t
  }

  lemma MinExists(s: set<Key>) returns (k: Key)
    requires s != {}
    ensures IsMin(s, k)
  {
    var x :| x in s;
    k := x;
    var rest := s - {x};
    if rest != {} {
      var m := MinExists(rest);
      if m < x { k := m; }
    }
    assert s == rest + {x};
  }

  lemma HasMin(s: set<Key>)
    requires s != {}
    ensures exists k :: IsMin(s, k)
  {
    var _ := MinExists(s);
  }

  ghost function Min(s: set<Key>): (k: Key)
    requires s != {}
    ensures IsMin(s, k)
  {
    HasMin(s);
    var k :| IsMin(s, k);
    k
  }

  lemma MinUnique(s: set<Key>, k: Key)
    requires IsMin(s, k)
    ensures Min(s) == k
  {
  }

  ghost predicate Ascending(ks: seq<Key>) {
    forall i, j :: 0 <= i < j < |ks| ==> ks[i] < ks[j]
  }

  function Elements(ks: seq<Key>): (s: set<Key>) {
    set k | k in ks
  }

  lemma {:induction false} DistinctSize(ks: seq<Key>)
    requires forall i, j :: 0 <= i < j < |ks| ==> ks[i] != ks[j]
    ensures |Elements(ks)| == |ks|
  {
    if ks != [] {
      DistinctSize(ks[1..]);
      assert Elements(ks) == {ks[0]} + Elements(ks[1..]);
    }
  }

  lemma Prepend(s: set<Key>, m: Key, rest: seq<Key>)
    requires IsMin(s, m) && Ascending(rest) && Elements(rest) == s - {m} && |rest| == |s - {m}|
    ensures Ascending([m] + rest) && Elements([m] + rest) == s && |[m] + rest| == |s|
  {
    var ks := [m] + rest;
    forall i | 0 <= i < |rest| ensures m < rest[i] {
      assert rest[i] in Elements(rest);
    }
    forall k | k in s ensures k in Elements(ks) {
      if k != m { assert k in Elements(rest); }
    }
    forall k | k in Elements(ks) ensures k in s {
      if k != m { assert k in Elements(rest); }
    }
  }

  lemma HasAscending(s: set<Key>)
    ensures exists ks :: Ascending(ks) && Elements(ks) == s && |ks| == |s|
  {
    if s == {} {
      var none: seq<Key> := [];
      assert Ascending(none) && Elements(none) == s && |none| == |s|;
    } else {
      var m := Min(s);
      HasAscending(s - {m});
      var rest :| Ascending(rest) && Elements(rest) == s - {m} && |rest| == |s - {m}|;
      Prepend(s, m, rest);
    }
  }

  /** The ascending enumeration of `s`. */
  ghost function SortedKeys(s: set<Key>): (ks: seq<Key>)
    ensures Ascending(ks) && Elements(ks) == s && |ks| == |s|
  {
    HasAscending(s);
    var ks :| Ascending(ks) && Elements(ks) == s && |ks| == |s|;
    ks
  }

  /** The ascending enumeration of a set is unique. */
  lemma {:induction false} AscendingUnique(a: seq<Key>, b: seq<Key>)
    requires Ascending(a) && Ascending(b) && Elements(a) == Elements(b)
    ensures a == b
  {
    DistinctSize(a);
    DistinctSize(b);
    if a != [] {
      assert a[0] in Elements(a) && b[0] in Elements(b);
      assert a[0] in Elements(b) && b[0] in Elements(a);
      assert a[0] == b[0];
      assert Elements(a[1..]) == Elements(a) - {a[0]};
      assert Elements(b[1..]) == Elements(b) - {b[0]};
      AscendingUnique(a[1..], b[1..]);
      assert a == [a[0]] + a[1..] && b == [b[0]] + b[1..];
    }
  }

  // ---------------------------------------------------------------- the n largest keys

  lemma AscendingTail(ks: seq<Key>, i: nat)
    requires Ascending(ks) && i <= |ks|
    ensures Elements(ks[i..]) == Elements(ks) - Elements(ks[..i])
    ensures UpwardClosed(Elements(ks[i..]), Elements(ks)) && |Elements(ks[i..])| == |ks| - i
    ensures i < |ks| ==> IsMin(Elements(ks[i..]), ks[i])
  {
    DistinctSize(ks[i..]);
    forall k | k in Elements(ks) ensures k in Elements(ks[..i]) || k in Elements(ks[i..]) {
      var j :| 0 <= j < |ks| && ks[j] == k;
      if j < i { assert ks[..i][j] == k; } else { assert ks[i..][j - i] == k; }
    }
    if i < |ks| { assert ks[i..][0] == ks[i]; }
  }

  lemma HasLargest(s: set<Key>, n: nat)
    requires n <= |s|
    ensures exists r :: UpwardClosed(r, s) && |r| == n
  {
    AscendingTail(SortedKeys(s), |s| - n);
  }

  /** The `n` largest keys of `s`. By `LargestUnique` the two postconditions say it all. */
  ghost function Largest(s: set<Key>, n: nat): (r: set<Key>)
    requires n <= |s|
    ensures UpwardClosed(r, s) && |r| == n
  {
    HasLargest(s, n);
    var r :| UpwardClosed(r, s) && |r| == n;
    r
  }

  /** Upward closure and size determine the set. */
  lemma LargestUnique(t: set<Key>, s: set<Key>, n: nat)
    requires n <= |s| && UpwardClosed(t, s) && |t| == n
    ensures t == Largest(s, n)
  {
    var u := Largest(s, n);
    if x :| x in t && x !in u {
      assert u <= t;
      SubsetSize(u, t);
    } else {
      SubsetSize(t, u);
    }
  }

  lemma LargestOfLargest(s: set<Key>, n: nat, m: nat)
    requires m <= n <= |s|
    ensures Largest(Largest(s, n), m) == Largest(s, m)
  {
    LargestUnique(Largest(Largest(s, n), m), s, m);
  }

  lemma LargestAll(s: set<Key>)
    ensures Largest(s, |s|) == s
  {
    LargestUnique(s, s, |s|);
  }
}
