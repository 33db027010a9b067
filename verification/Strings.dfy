/** The string functions the router calls: Trim, Split on '/', and their inverse. */
module Strings {

  function TrimLeft(s: string, cut: set<char>): (r: string) {
    if s != [] && s[0] in cut then TrimLeft(s[1..], cut) else s
  }

  function TrimRight(s: string, cut: set<char>): (r: string) {
    if s != [] && s[|s| - 1] in cut then TrimRight(s[..|s| - 1], cut) else s
  }

  function Trim(s: string, cut: set<char>): (r: string) {
    TrimRight(TrimLeft(s, cut), cut)
  }

  /** Splitting keeps empty pieces and always yields at least one. */
  function Split(s: string): (parts: seq<string>)
    ensures |parts| >= 1
  {
    if s == [] then [[]] else
      var parts := Split(s[..|s| - 1]);
      var c := s[|s| - 1];
      if c == '/' then parts + [[]] else parts[..|parts| - 1] + [parts[|parts| - 1] + [c]]
  }

  function Join(parts: seq<string>): (s: string)
    requires |parts| >= 1
  {
    if |parts| == 1 then parts[0] else Join(parts[..|parts| - 1]) + ['/'] + parts[|parts| - 1]
  }

  predicate SlashFree(parts: seq<string>) {
    forall i :: 0 <= i < |parts| ==> '/' !in parts[i]
  }

  lemma JoinSnoc(parts: seq<string>, last: string)
    requires |parts| >= 1
    ensures Join(parts + [last]) == Join(parts) + ['/'] + last
  {
    assert (parts + [last])[..|parts|] == parts;
  }

  lemma JoinExtend(parts: seq<string>, c: char)
    requires |parts| >= 1
    ensures Join(parts[..|parts| - 1] + [parts[|parts| - 1] + [c]]) == Join(parts) + [c]
  {
    var init := parts[..|parts| - 1];
    if |parts| > 1 { JoinSnoc(init, parts[|parts| - 1] + [c]); }
  }

  lemma {:induction false} JoinSplit(s: string)
    ensures Join(Split(s)) == s && SlashFree(Split(s))
  {
    if s != [] {
      var init, c := s[..|s| - 1], s[|s| - 1];
      JoinSplit(init);
      var parts := Split(init);
      if c == '/' { JoinSnoc(parts, []); } else { JoinExtend(parts, c); }
      assert s == init + [c];
    }
  }

  lemma {:induction false} SplitSuffix(s: string, last: string)
    requires '/' !in last
    ensures Split(s + ['/'] + last) == Split(s) + [last]
  {
    var all := s + ['/'] + last;
    if last == [] {
      assert all[..|all| - 1] == s;
    } else {
      var init := last[..|last| - 1];
      assert all[..|all| - 1] == s + ['/'] + init;
      SplitSuffix(s, init);
      assert (Split(s) + [init])[..|Split(s)|] == Split(s);
      assert last == init + [last[|last| - 1]];
    }
  }

  lemma {:induction false} SplitWord(s: string)
    requires '/' !in s
    ensures Split(s) == [s]
  {
    if s != [] {
      SplitWord(s[..|s| - 1]);
      assert s == s[..|s| - 1] + [s[|s| - 1]];
    }
  }

  lemma {:induction false} SplitJoin(parts: seq<string>)
    requires |parts| >= 1 && SlashFree(parts)
    ensures Split(Join(parts)) == parts
  {
    if |parts| == 1 {
      SplitWord(parts[0]);
    } else {
      var init := parts[..|parts| - 1];
      SplitJoin(init);
      SplitSuffix(Join(init), parts[|parts| - 1]);
      assert parts == init + [parts[|parts| - 1]];
    }
  }

  predicate Trimmed(s: string) {
    s == [] || (s[0] != '/' && s[|s| - 1] != '/')
  }

  function Slashes(n: nat): (s: string)
    ensures |s| == n && forall i :: 0 <= i < n ==> s[i] == '/'
  {
    seq(n, i => '/')
  }

  lemma {:induction false} TrimLeftSlashes(n: nat, s: string)
    requires s == [] || s[0] != '/'
    ensures TrimLeft(Slashes(n) + s, {'/'}) == s
  {
    var t := Slashes(n) + s;
    if n == 0 {
      assert t == s;
    } else {
      assert t[1..] == Slashes(n - 1) + s;
      TrimLeftSlashes(n - 1, s);
    }
  }

  lemma {:induction false} TrimRightSlashes(s: string, n: nat)
    requires s == [] || s[|s| - 1] != '/'
    ensures TrimRight(s + Slashes(n), {'/'}) == s
  {
    var t := s + Slashes(n);
    if n == 0 {
      assert t == s;
    } else {
      assert t[..|t| - 1] == s + Slashes(n - 1);
      TrimRightSlashes(s, n - 1);
    }
  }

  /** Slashes around a trimmed string are exactly what Trim removes. */
  lemma TrimAround(a: nat, s: string, b: nat)
    requires Trimmed(s) && s != []
    ensures Trim(Slashes(a) + s + Slashes(b), {'/'}) == s
  {
    var t := s + Slashes(b);
    assert Slashes(a) + s + Slashes(b) == Slashes(a) + t;
    TrimLeftSlashes(a, t);
    TrimRightSlashes(s, b);
  }

  lemma {:induction false} TrimLeftResult(s: string, cut: set<char>)
    ensures TrimLeft(s, cut) == [] || TrimLeft(s, cut)[0] !in cut
    ensures forall c :: c in s && c !in cut ==> c in TrimLeft(s, cut)
  {
    if s != [] && s[0] in cut {
      TrimLeftResult(s[1..], cut);
      assert s == [s[0]] + s[1..];
    }
  }

  lemma {:induction false} TrimRightResult(s: string, cut: set<char>)
    ensures TrimRight(s, cut) == [] || TrimRight(s, cut)[|TrimRight(s, cut)| - 1] !in cut
    ensures TrimRight(s, cut) <= s
    ensures forall c :: c in s && c !in cut ==> c in TrimRight(s, cut)
  {
    if s != [] && s[|s| - 1] in cut {
      TrimRightResult(s[..|s| - 1], cut);
      assert s == s[..|s| - 1] + [s[|s| - 1]];
    }
  }

  /** Trim leaves a trimmed string and never drops a character that is not cut. */
  lemma TrimResult(s: string)
    ensures Trimmed(Trim(s, {'/'}))
    ensures forall c :: c in s && c != '/' ==> c in Trim(s, {'/'})
  {
    TrimLeftResult(s, {'/'});
    TrimRightResult(TrimLeft(s, {'/'}), {'/'});
  }

  lemma {:induction false} JoinEnds(parts: seq<string>)
    requires |parts| >= 1 && parts[0] != [] && parts[|parts| - 1] != []
    ensures Join(parts) != [] && Join(parts)[0] == parts[0][0]
    ensures Join(parts)[|Join(parts)| - 1] == parts[|parts| - 1][|parts[|parts| - 1]| - 1]
  {
    if |parts| > 1 { JoinStart(parts[..|parts| - 1]); }
  }

  lemma {:induction false} JoinStart(parts: seq<string>)
    requires |parts| >= 1 && parts[0] != []
    ensures Join(parts) != [] && Join(parts)[0] == parts[0][0]
  {
    if |parts| > 1 { JoinStart(parts[..|parts| - 1]); }
  }

  /** The outer pieces of a trimmed, non-empty string are not empty. */
  lemma SplitEnds(s: string)
    requires Trimmed(s) && s != []
    ensures Split(s)[0] != [] && Split(s)[|Split(s)| - 1] != []
  {
    JoinSplit(s);
    var parts := Split(s);
    if parts[0] == [] && |parts| > 1 { EmptyStart(parts); }
  }

  lemma {:induction false} EmptyStart(parts: seq<string>)
    requires |parts| > 1 && parts[0] == []
    ensures Join(parts) != [] && Join(parts)[0] == '/'
  {
    if |parts| > 2 { EmptyStart(parts[..|parts| - 1]); }
  }

  lemma {:induction false} TrimLeftDecomposes(s: string, cut: set<char>) returns (a: string)
    ensures s == a + TrimLeft(s, cut) && forall c :: c in a ==> c in cut
  {
    a := [];
    if s != [] && s[0] in cut {
      var rest := TrimLeftDecomposes(s[1..], cut);
      a := [s[0]] + rest;
      assert s == [s[0]] + s[1..];
    }
  }

  lemma {:induction false} TrimRightDecomposes(s: string, cut: set<char>) returns (b: string)
    ensures s == TrimRight(s, cut) + b && forall c :: c in b ==> c in cut
  {
    b := [];
    if s != [] && s[|s| - 1] in cut {
      var rest := TrimRightDecomposes(s[..|s| - 1], cut);
      b := rest + [s[|s| - 1]];
      assert s == s[..|s| - 1] + [s[|s| - 1]];
    }
  }

  /** What Trim takes off is a prefix and a suffix of cut characters, and nothing more could go. */
  lemma TrimDecomposes(s: string, cut: set<char>) returns (a: string, b: string)
    ensures s == a + Trim(s, cut) + b
    ensures (forall c :: c in a ==> c in cut) && (forall c :: c in b ==> c in cut)
    ensures var t := Trim(s, cut); t == [] || (t[0] !in cut && t[|t| - 1] !in cut)
  {
    var l := TrimLeft(s, cut);
    a := TrimLeftDecomposes(s, cut);
    b := TrimRightDecomposes(l, cut);
    TrimLeftResult(s, cut);
    TrimRightResult(l, cut);
  }

  lemma {:induction false} JoinContains(parts: seq<string>, i: nat, c: char)
    requires i < |parts| && c in parts[i]
    ensures c in Join(parts)
  {
    if |parts| > 1 && i < |parts| - 1 { JoinContains(parts[..|parts| - 1], i, c); }
  }
}
