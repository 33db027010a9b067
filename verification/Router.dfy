/**
 The HTTP router (pkg/http/server/router.go): pattern matching as parsing, and
 dispatch over a map of routes in any iteration order.
 */
module Router {
  import opened Prelude
  import opened Strings

  type Params = map<string, string>

  predicate HasBrace(pattern: string) {
    '{' in pattern || '}' in pattern
  }

  function Parts(s: string): (parts: seq<string>)
    ensures |parts| >= 1
  {
    Split(Trim(s, {'/'}))
  }

  predicate IsParam(p: string) {
    p != [] && p[0] == '{' && p[|p| - 1] == '}'
  }

  function Name(p: string): (name: string) {
    Trim(p, {'{', '}'})
  }

  /** A pattern segment: fixed text, or a named parameter. */
  datatype Segment = Lit(text: string) | Param(name: string)

  function SegmentOf(p: string): (seg: Segment) {
    if IsParam(p) then Param(Name(p)) else Lit(p)
  }

  function Template(pattern: string): (tpl: seq<Segment>)
    ensures |tpl| == |Parts(pattern)| >= 1
    ensures forall i :: 0 <= i < |tpl| ==> tpl[i] == SegmentOf(Parts(pattern)[i])
  {
    var parts := Parts(pattern);
    seq(|parts|, i requires 0 <= i < |parts| => SegmentOf(parts[i]))
  }

  // ---------------------------------------------------------------- what matching means

  predicate SegmentsMatch(tpl: seq<Segment>, segs: seq<string>) {
    |tpl| == |segs| && forall i :: 0 <= i < |tpl| ==> tpl[i].Param? || tpl[i].text == segs[i]
  }

  /** The parameters of the first `n` segments; a repeated name keeps its last value. */
  function Bindings(tpl: seq<Segment>, segs: seq<string>, n: nat): (b: Params)
    requires n <= |tpl| == |segs|
  {
    if n == 0 then map[]
    else if tpl[n - 1].Param? then Bindings(tpl, segs, n - 1)[tpl[n - 1].name := segs[n - 1]]
    else Bindings(tpl, segs, n - 1)
  }

  predicate Matches(pattern: string, path: string) {
    if HasBrace(pattern) then SegmentsMatch(Template(pattern), Parts(path)) else pattern == path
  }

  function ParamsOf(pattern: string, path: string): (b: Params)
    requires Matches(pattern, path)
  {
    if HasBrace(pattern) then Bindings(Template(pattern), Parts(path), |Template(pattern)|) else map[]
  }

  method MatchPattern(pattern: string, path: string) returns (matched: bool, params: Params)
    ensures matched <==> Matches(pattern, path)
    ensures params == if matched then ParamsOf(pattern, path) else map[]
  {
    if !HasBrace(pattern) {
      return pattern == path, map[];
    }
    ghost var tpl := Template(pattern);
    var patternParts, pathParts := Parts(pattern), Parts(path);
    if |patternParts| != |pathParts| {
      return false, map[];
    }
    params := map[];
    for i := 0 to |patternParts|
      invariant params == Bindings(tpl, pathParts, i)
      invariant forall j :: 0 <= j < i ==> tpl[j].Param? || tpl[j].text == pathParts[j]
    {
      var p := patternParts[i];
      assert tpl[i] == SegmentOf(p);
      if IsParam(p) {
        params := params[Name(p) := pathParts[i]];
      } else if p != pathParts[i] {
        return false, map[];
      }
    }
    return true, params;
  }

  // ---------------------------------------------------------------- printing, the inverse

  ghost predicate Names(tpl: seq<Segment>, n: nat, name: string)
    requires n <= |tpl|
  {
    exists i :: 0 <= i < n && tpl[i] == Param(name)
  }

  ghost predicate Covers(tpl: seq<Segment>, values: Params) {
    forall i :: 0 <= i < |tpl| && tpl[i].Param? ==> tpl[i].name in values
  }

  function RenderParts(tpl: seq<Segment>, values: Params): (segs: seq<string>)
    requires Covers(tpl, values)
    ensures |segs| == |tpl|
    ensures forall i :: 0 <= i < |tpl| ==> segs[i] == if tpl[i].Param? then values[tpl[i].name] else tpl[i].text
  {
    seq(|tpl|, i requires 0 <= i < |tpl| => if tpl[i].Param? then values[tpl[i].name] else tpl[i].text)
  }

  /** The pattern with its parameters replaced, without outer slashes. */
  function Render(pattern: string, values: Params): (s: string)
    requires Covers(Template(pattern), values)
  {
    Join(RenderParts(Template(pattern), values))
  }

  /** No name is used twice. */
  ghost predicate DistinctNames(tpl: seq<Segment>) {
    forall i, j :: 0 <= i < j < |tpl| && tpl[i].Param? && tpl[j].Param? ==> tpl[i].name != tpl[j].name
  }

  /** Segments under one name are equal. */
  ghost predicate Consistent(tpl: seq<Segment>, segs: seq<string>) {
    |tpl| == |segs| &&
    forall i, j :: 0 <= i < j < |tpl| && tpl[i].Param? && tpl[i] == tpl[j] ==> segs[i] == segs[j]
  }

  lemma {:induction false} BindingsKeys(tpl: seq<Segment>, segs: seq<string>, n: nat)
    requires n <= |tpl| == |segs|
    ensures forall name :: name in Bindings(tpl, segs, n) <==> Names(tpl, n, name)
  {
    if n > 0 {
      BindingsKeys(tpl, segs, n - 1);
      forall name | Names(tpl, n, name) ensures name in Bindings(tpl, segs, n) {
        var i :| 0 <= i < n && tpl[i] == Param(name);
        if i < n - 1 { assert Names(tpl, n - 1, name); }
      }
    }
  }

  lemma {:induction false} BindingsValues(tpl: seq<Segment>, segs: seq<string>, n: nat, i: nat)
    requires n <= |tpl| == |segs| && Consistent(tpl, segs) && i < n && tpl[i].Param?
    ensures tpl[i].name in Bindings(tpl, segs, n) && Bindings(tpl, segs, n)[tpl[i].name] == segs[i]
  {
    if i < n - 1 { BindingsValues(tpl, segs, n - 1, i); }
  }

  /** Slash-free segments with non-empty ends are recovered from their joined text, whatever slashes surround it. */
  lemma PartsOfJoin(segs: seq<string>, before: nat, after: nat)
    requires |segs| >= 1 && SlashFree(segs) && segs[0] != [] && segs[|segs| - 1] != []
    ensures Parts(Slashes(before) + Join(segs) + Slashes(after)) == segs
  {
    JoinEnds(segs);
    var last := segs[|segs| - 1];
    assert segs[0][0] in segs[0] && last[|last| - 1] in last;
    TrimAround(before, Join(segs), after);
    SplitJoin(segs);
  }

  /** A braced pattern has non-empty outer segments and no slash inside any. */
  lemma BracedParts(pattern: string)
    requires HasBrace(pattern)
    ensures SlashFree(Parts(pattern))
    ensures Parts(pattern)[0] != [] && Parts(pattern)[|Parts(pattern)| - 1] != []
  {
    TrimResult(pattern);
    assert Trim(pattern, {'/'}) != [];
    SplitEnds(Trim(pattern, {'/'}));
    JoinSplit(Trim(pattern, {'/'}));
  }

  /** Reading a rendered segment list gives back the values it was made from, name by name. */
  lemma BindingsRecoverName(tpl: seq<Segment>, values: Params, segs: seq<string>, name: string)
    requires Covers(tpl, values) && segs == RenderParts(tpl, values) && Consistent(tpl, segs)
    ensures name in Bindings(tpl, segs, |tpl|) <==> Names(tpl, |tpl|, name)
    ensures Names(tpl, |tpl|, name) ==> name in values && Bindings(tpl, segs, |tpl|)[name] == values[name]
  {
    BindingsKeys(tpl, segs, |tpl|);
    if Names(tpl, |tpl|, name) {
      var i :| 0 <= i < |tpl| && tpl[i] == Param(name);
      BindingsValues(tpl, segs, |tpl|, i);
    }
  }

  lemma RenderedConsistent(tpl: seq<Segment>, values: Params)
    requires Covers(tpl, values)
    ensures Consistent(tpl, RenderParts(tpl, values))
  {
  }

  lemma BindingsRecover(tpl: seq<Segment>, values: Params)
    requires Covers(tpl, values)
    requires forall name :: name in values ==> Names(tpl, |tpl|, name)
    ensures Bindings(tpl, RenderParts(tpl, values), |tpl|) == values
  {
    var segs := RenderParts(tpl, values);
    var b := Bindings(tpl, segs, |tpl|);
    RenderedConsistent(tpl, values);
    forall name ensures name in b <==> name in values { BindingsRecoverName(tpl, values, segs, name); }
    forall name | name in values ensures b[name] == values[name] { BindingsRecoverName(tpl, values, segs, name); }
  }

  /** No value holds a slash, and a parameter at either end is not empty. */
  ghost predicate PathValues(tpl: seq<Segment>, values: Params)
    requires Covers(tpl, values) && tpl != []
  {
    && (forall name :: name in values ==> '/' !in values[name])
    && (tpl[0].Param? ==> values[tpl[0].name] != [])
    && (tpl[|tpl| - 1].Param? ==> values[tpl[|tpl| - 1].name] != [])
  }

  /** Print, then parse: the printed path matches under any outer slashes and gives the values back. */
  lemma RenderMatches(pattern: string, values: Params, before: nat, after: nat)
    requires HasBrace(pattern) && Covers(Template(pattern), values) && PathValues(Template(pattern), values)
    requires forall name :: name in values ==> Names(Template(pattern), |Template(pattern)|, name)
    ensures var path := Slashes(before) + Render(pattern, values) + Slashes(after);
            Matches(pattern, path) && ParamsOf(pattern, path) == values
  {
    var tpl := Template(pattern);
    var segs := RenderParts(tpl, values);
    BracedParts(pattern);
    PartsOfJoin(segs, before, after);
    BindingsRecover(tpl, values);
  }

  lemma BindingsCover(tpl: seq<Segment>, segs: seq<string>)
    requires |tpl| == |segs|
    ensures Covers(tpl, Bindings(tpl, segs, |tpl|))
  {
    BindingsKeys(tpl, segs, |tpl|);
    forall i | 0 <= i < |tpl| && tpl[i].Param? ensures tpl[i].name in Bindings(tpl, segs, |tpl|) {
      assert Names(tpl, |tpl|, tpl[i].name);
    }
  }

  lemma RenderedIffConsistent(tpl: seq<Segment>, segs: seq<string>)
    requires SegmentsMatch(tpl, segs) && Covers(tpl, Bindings(tpl, segs, |tpl|))
    ensures RenderParts(tpl, Bindings(tpl, segs, |tpl|)) == segs <==> Consistent(tpl, segs)
  {
    var b := Bindings(tpl, segs, |tpl|);
    if Consistent(tpl, segs) {
      forall i | 0 <= i < |tpl| ensures RenderParts(tpl, b)[i] == segs[i] {
        if tpl[i].Param? { BindingsValues(tpl, segs, |tpl|, i); }
      }
    }
  }

  lemma {:induction false} BindingsFromSegments(tpl: seq<Segment>, segs: seq<string>, n: nat, name: string)
    requires n <= |tpl| == |segs| && name in Bindings(tpl, segs, n) && SlashFree(segs)
    ensures '/' !in Bindings(tpl, segs, n)[name]
  {
    if n > 0 && tpl[n - 1] != Param(name) { BindingsFromSegments(tpl, segs, n - 1, name); }
  }

  /**
   Parse, then print: the parameters of a match, put back into the pattern, give the
   slash-trimmed path exactly when same-named parameters took equal segments. Distinct
   names are enough; a pattern without braces is its own only match.
   */
  lemma MatchRenders(pattern: string, path: string)
    requires Matches(pattern, path)
    ensures !HasBrace(pattern) ==> path == pattern
    ensures HasBrace(pattern) ==>
              && Covers(Template(pattern), ParamsOf(pattern, path))
              && (Render(pattern, ParamsOf(pattern, path)) == Trim(path, {'/'}) <==>
                  Consistent(Template(pattern), Parts(path)))
              && (DistinctNames(Template(pattern)) ==> Consistent(Template(pattern), Parts(path)))
  {
    if HasBrace(pattern) {
      var tpl, segs := Template(pattern), Parts(path);
      var b := ParamsOf(pattern, path);
      BindingsCover(tpl, segs);
      RenderedIffConsistent(tpl, segs);
      JoinSplit(Trim(path, {'/'}));
      BracedParts(pattern);
      var rendered := RenderParts(tpl, b);
      forall i | 0 <= i < |rendered| ensures '/' !in rendered[i] {
        if tpl[i].Param? { BindingsFromSegments(tpl, segs, |tpl|, tpl[i].name); }
      }
      SplitJoin(rendered);
    }
  }

  lemma JoinPair(a: string, b: string)
    requires a != [] && b != [] && '/' !in a && '/' !in b
    ensures Parts(a + ['/'] + b) == [a, b]
  {
    var segs := [a, b];
    assert segs[..1] == [a];
    assert Join(segs) == a + ['/'] + b;
    assert Slashes(0) + Join(segs) + Slashes(0) == Join(segs);
    PartsOfJoin(segs, 0, 0);
  }

  lemma PairTemplate(p: string)
    requires IsParam(p) && '/' !in p
    ensures var pattern := p + ['/'] + p;
            HasBrace(pattern) && Template(pattern) == [SegmentOf(p), SegmentOf(p)]
  {
    var pattern := p + ['/'] + p;
    JoinPair(p, p);
    assert pattern[0] == '{';
    assert Template(pattern)[0] == SegmentOf(p) && Template(pattern)[1] == SegmentOf(p);
  }

  /** With any parameter `p` repeated, different segments `a` and `b` still match, and the path is not recovered. */
  lemma RepeatedNameForgets(p: string, a: string, b: string)
    requires IsParam(p) && '/' !in p
    requires a != [] && b != [] && '/' !in a && '/' !in b && a != b
    ensures var pattern, path := p + ['/'] + p, a + ['/'] + b;
            && Matches(pattern, path) && Covers(Template(pattern), ParamsOf(pattern, path))
            && Render(pattern, ParamsOf(pattern, path)) != Trim(path, {'/'})
  {
    var pattern, path := p + ['/'] + p, a + ['/'] + b;
    PairTemplate(p);
    JoinPair(a, b);
    var tpl := Template(pattern);
    assert tpl[0] == tpl[1] && tpl[0].Param? && Parts(path)[0] != Parts(path)[1];
    MatchRenders(pattern, path);
  }

  // ---------------------------------------------------------------- patterns as written

  /** How a segment is written in a pattern. */
  function Written(seg: Segment): (p: string) {
    match seg
    case Lit(text) => text
    case Param(name) => ['{'] + name + ['}']
  }

  /** Fixed text not enclosed in braces, or a name without braces; no slash in either. */
  predicate Writable(seg: Segment) {
    match seg
    case Lit(text) => '/' !in text && !(text != [] && text[0] == '{' && text[|text| - 1] == '}')
    case Param(name) => '/' !in name && '{' !in name && '}' !in name
  }

  lemma BracesTrimmed(name: string)
    requires '{' !in name && '}' !in name
    ensures Trim(['{'] + name + ['}'], {'{', '}'}) == name
  {
    var cut := {'{', '}'};
    var p, r := ['{'] + name + ['}'], name + ['}'];
    assert p[1..] == r;
    assert TrimLeft(p, cut) == TrimLeft(r, cut);
    if name == [] {
      assert r[1..] == [];
    } else {
      assert r[0] == name[0] && name[0] in name;
      assert TrimLeft(r, cut) == r;
      assert r[..|r| - 1] == name && name[|name| - 1] in name;
      assert TrimRight(r, cut) == TrimRight(name, cut) == name;
    }
  }

  /** Reading a written segment gives it back: `{name}` is the parameter, other text is literal. */
  lemma SegmentReadBack(seg: Segment)
    requires Writable(seg)
    ensures SegmentOf(Written(seg)) == seg
  {
    if seg.Param? { BracesTrimmed(seg.name); }
  }

  function WrittenParts(tpl: seq<Segment>): (parts: seq<string>)
    ensures |parts| == |tpl| && forall i :: 0 <= i < |tpl| ==> parts[i] == Written(tpl[i])
  {
    seq(|tpl|, i requires 0 <= i < |tpl| => Written(tpl[i]))
  }

  /** A pattern can be written for these segments: outer slashes do not matter. */
  ghost predicate WritableAll(tpl: seq<Segment>) {
    && tpl != [] && (forall i :: 0 <= i < |tpl| ==> Writable(tpl[i]))
    && Written(tpl[0]) != [] && Written(tpl[|tpl| - 1]) != []
  }

  function Pattern(tpl: seq<Segment>, before: nat, after: nat): (pattern: string)
    requires tpl != []
  {
    Slashes(before) + Join(WrittenParts(tpl)) + Slashes(after)
  }

  lemma WrittenNoSlash(seg: Segment)
    requires Writable(seg)
    ensures '/' !in Written(seg)
  {
  }

  lemma WrittenSlashFree(tpl: seq<Segment>, parts: seq<string>)
    requires WritableAll(tpl) && parts == WrittenParts(tpl)
    ensures SlashFree(parts)
  {
    forall i | 0 <= i < |parts| ensures '/' !in parts[i] {
      WrittenNoSlash(tpl[i]);
      assert parts[i] == Written(tpl[i]);
    }
  }

  lemma SegmentsReadBack(tpl: seq<Segment>, parts: seq<string>)
    requires WritableAll(tpl) && parts == WrittenParts(tpl)
    ensures forall i :: 0 <= i < |tpl| ==> SegmentOf(parts[i]) == tpl[i]
  {
    forall i | 0 <= i < |tpl| ensures SegmentOf(parts[i]) == tpl[i] {
      SegmentReadBack(tpl[i]);
      assert parts[i] == Written(tpl[i]);
    }
  }

  lemma TemplateOfJoin(tpl: seq<Segment>, parts: seq<string>, before: nat, after: nat)
    requires |parts| == |tpl| >= 1 && SlashFree(parts) && parts[0] != [] && parts[|parts| - 1] != []
    requires forall i :: 0 <= i < |tpl| ==> SegmentOf(parts[i]) == tpl[i]
    ensures Template(Slashes(before) + Join(parts) + Slashes(after)) == tpl
  {
    PartsOfJoin(parts, before, after);
  }

  lemma TemplateReadBack(tpl: seq<Segment>, before: nat, after: nat)
    requires WritableAll(tpl)
    ensures Template(Pattern(tpl, before, after)) == tpl
  {
    WrittenSlashFree(tpl, WrittenParts(tpl));
    SegmentsReadBack(tpl, WrittenParts(tpl));
    TemplateOfJoin(tpl, WrittenParts(tpl), before, after);
  }

  lemma PatternHasBrace(tpl: seq<Segment>, before: nat, after: nat, i: nat)
    requires i < |tpl| && ('{' in Written(tpl[i]) || '}' in Written(tpl[i]))
    ensures HasBrace(Pattern(tpl, before, after))
  {
    var parts := WrittenParts(tpl);
    if '{' in Written(tpl[i]) { JoinContains(parts, i, '{'); } else { JoinContains(parts, i, '}'); }
  }

  /** The last place of a parameter decides its value. */
  lemma {:induction false} BindingsLast(tpl: seq<Segment>, segs: seq<string>, n: nat, i: nat)
    requires i < n <= |tpl| == |segs| && tpl[i].Param? && forall j :: i < j < n ==> tpl[j] != tpl[i]
    ensures tpl[i].name in Bindings(tpl, segs, n) && Bindings(tpl, segs, n)[tpl[i].name] == segs[i]
  {
    if i < n - 1 { BindingsLast(tpl, segs, n - 1, i); }
  }

  /**
   A written pattern matches exactly the paths with as many segments and equal literals;
   it binds exactly its names, each to the segment at its (last) place.
   */
  lemma WrittenPatternMatches(tpl: seq<Segment>, before: nat, after: nat, path: string, brace: nat)
    requires WritableAll(tpl) && brace < |tpl| && ('{' in Written(tpl[brace]) || '}' in Written(tpl[brace]))
    ensures var pattern, segs := Pattern(tpl, before, after), Split(Trim(path, {'/'}));
            && (Matches(pattern, path) <==> |tpl| == |segs| && forall i :: 0 <= i < |tpl| && tpl[i].Lit? ==> tpl[i].text == segs[i])
            && (Matches(pattern, path) ==>
                  && (forall name :: name in ParamsOf(pattern, path) <==> Param(name) in tpl)
                  && (forall i :: 0 <= i < |tpl| && tpl[i].Param? && (forall j :: i < j < |tpl| ==> tpl[j] != tpl[i]) ==>
                        tpl[i].name in ParamsOf(pattern, path) && ParamsOf(pattern, path)[tpl[i].name] == segs[i]))
  {
    var pattern, segs := Pattern(tpl, before, after), Parts(path);
    PatternHasBrace(tpl, before, after, brace);
    TemplateReadBack(tpl, before, after);
    if Matches(pattern, path) { WrittenBindings(tpl, segs); }
  }

  lemma WrittenBindings(tpl: seq<Segment>, segs: seq<string>)
    requires |tpl| == |segs|
    ensures forall name :: name in Bindings(tpl, segs, |tpl|) <==> Param(name) in tpl
    ensures forall i :: 0 <= i < |tpl| && tpl[i].Param? && (forall j :: i < j < |tpl| ==> tpl[j] != tpl[i]) ==>
              tpl[i].name in Bindings(tpl, segs, |tpl|) && Bindings(tpl, segs, |tpl|)[tpl[i].name] == segs[i]
  {
    BindingsKeys(tpl, segs, |tpl|);
    forall name ensures Names(tpl, |tpl|, name) <==> Param(name) in tpl { }
    forall i | 0 <= i < |tpl| && tpl[i].Param? && (forall j :: i < j < |tpl| ==> tpl[j] != tpl[i])
      ensures tpl[i].name in Bindings(tpl, segs, |tpl|) && Bindings(tpl, segs, |tpl|)[tpl[i].name] == segs[i]
    {
      BindingsLast(tpl, segs, |tpl|, i);
    }
  }

  /** Without a brace anywhere a pattern matches itself only, outer slashes included, and binds nothing. */
  lemma PlainPatternMatches(pattern: string, path: string)
    requires '{' !in pattern && '}' !in pattern
    ensures Matches(pattern, path) <==> pattern == path
    ensures Matches(pattern, path) ==> ParamsOf(pattern, path) == map[]
  {
  }

  // ---------------------------------------------------------------- dispatch

  datatype Route = Route(pattern: string, handler: nat)

  datatype Outcome = Ran(handler: nat, params: Params) | MethodNotAllowed | NotFound

  function Upper(c: char): (u: char) {
    if 'a' <= c <= 'z' then c - 32 as char else c
  }

  function ToUpper(s: string): (u: string)
    ensures |u| == |s|
  {
    seq(|s|, i requires 0 <= i < |s| => Upper(s[i]))
  }

  const LOWER: string := "abcdefghijklmnopqrstuvwxyz"
  const UPPER: string := "ABCDEFGHIJKLMNOPQRSTUVWXYZ"

  /** Letter by letter: lower-case letters become their capitals, everything else stays. */
  lemma UpperLetters(s: string, i: nat)
    requires i < |s|
    ensures s[i] !in LOWER ==> ToUpper(s)[i] == s[i]
    ensures forall k :: 0 <= k < 26 && s[i] == LOWER[k] ==> ToUpper(s)[i] == UPPER[k]
  {
    LetterCase();
    if 'a' <= s[i] <= 'z' { assert LOWER[s[i] as int - 'a' as int] == s[i]; }
  }

  lemma LetterCase()
    ensures |LOWER| == |UPPER| == 26
    ensures forall k :: 0 <= k < 26 ==> LOWER[k] as int == 97 + k && UPPER[k] as int == 65 + k
  {
  }

  /** The registrations of one method, oldest first. */
  function Registered(log: seq<(string, Route)>, method_: string): (rs: seq<Route>) {
    if log == [] then [] else
      var last := log[|log| - 1];
      Registered(log[..|log| - 1], method_) + if last.0 == method_ then [last.1] else []
  }

  lemma RegisteredSnoc(log: seq<(string, Route)>, m: string, r: Route, method_: string)
    ensures Registered(log + [(m, r)], method_) == Registered(log, method_) + if m == method_ then [r] else []
  {
    var longer := log + [(m, r)];
    assert longer[..|longer| - 1] == log;
  }

  lemma {:induction false} RegisteredIn(log: seq<(string, Route)>, method_: string, r: Route)
    ensures r in Registered(log, method_) <==> (method_, r) in log
  {
    if log != [] {
      RegisteredIn(log[..|log| - 1], method_, r);
      assert log == log[..|log| - 1] + [log[|log| - 1]];
    }
  }

  ghost predicate NoMatch(rs: seq<Route>, path: string) {
    forall i :: 0 <= i < |rs| ==> !Matches(rs[i].pattern, path)
  }

  /** Route `i` is the first of its method to match. */
  ghost predicate FirstMatch(rs: seq<Route>, path: string, i: nat) {
    i < |rs| && Matches(rs[i].pattern, path) && NoMatch(rs[..i], path)
  }

  /** Exactly the first matching route ran, with that match's parameters. */
  ghost predicate RanAt(rs: seq<Route>, path: string, out: Outcome, i: nat) {
    && out.Ran? && FirstMatch(rs, path, i)
    && out.handler == rs[i].handler && out.params == ParamsOf(rs[i].pattern, path)
  }

  /** The answer a request must get, in terms of the registrations alone. */
  ghost predicate Dispatched(log: seq<(string, Route)>, method_: string, path: string, out: Outcome) {
    var rs := Registered(log, method_);
    match out
    case Ran(handler, params) =>
      exists i: nat :: RanAt(rs, path, out, i)
    case MethodNotAllowed =>
      NoMatch(rs, path) && exists r :: r in log && r.0 != method_ && Matches(r.1.pattern, path)
    case NotFound => forall r :: r in log ==> !Matches(r.1.pattern, path)
  }

  lemma RanInLog(log: seq<(string, Route)>, method_: string, path: string, out: Outcome, i: nat)
    requires RanAt(Registered(log, method_), path, out, i)
    ensures exists r :: r in log && Matches(r.1.pattern, path)
    ensures !NoMatch(Registered(log, method_), path)
  {
    var r := Registered(log, method_)[i];
    RegisteredIn(log, method_, r);
    assert (method_, r) in log;
  }

  lemma FirstMatchUnique(rs: seq<Route>, path: string, i: nat, j: nat)
    requires FirstMatch(rs, path, i) && FirstMatch(rs, path, j)
    ensures i == j
  {
  }

  /** The answer is determined: no iteration order can change it. */
  lemma DispatchUnique(log: seq<(string, Route)>, method_: string, path: string, a: Outcome, b: Outcome)
    requires Dispatched(log, method_, path, a) && Dispatched(log, method_, path, b)
    ensures a == b
  {
    var rs := Registered(log, method_);
    if a.Ran? {
      var i: nat :| RanAt(rs, path, a, i);
      RanInLog(log, method_, path, a, i);
      if b.Ran? {
        var j: nat :| RanAt(rs, path, b, j);
        FirstMatchUnique(rs, path, i, j);
      }
    } else if b.Ran? {
      var j: nat :| RanAt(rs, path, b, j);
      RanInLog(log, method_, path, b, j);
    }
  }

  /** In terms of the registrations one by one: the first of the method to match is the one that runs. */
  ghost predicate FirstRegistered(log: seq<(string, Route)>, method_: string, path: string, k: nat) {
    && k < |log| && log[k].0 == method_ && Matches(log[k].1.pattern, path)
    && forall j :: 0 <= j < k && log[j].0 == method_ ==> !Matches(log[j].1.pattern, path)
  }

  lemma {:induction false} FirstInOrder(log: seq<(string, Route)>, method_: string, path: string, k: nat, n: nat) returns (i: nat)
    requires FirstRegistered(log, method_, path, k) && k < n <= |log|
    ensures i < |Registered(log[..n], method_)| && Registered(log[..n], method_)[i] == log[k].1
    ensures NoMatch(Registered(log[..n], method_)[..i], path)
  {
    var before := log[..n - 1];
    assert log[..n][..n - 1] == before && log[..n][n - 1] == log[n - 1];
    if k < n - 1 {
      i := FirstInOrder(log, method_, path, k, n - 1);
      var rs, all := Registered(before, method_), Registered(log[..n], method_);
      assert all[..i] == rs[..i];
    } else {
      i := |Registered(before, method_)|;
      var rs := Registered(before, method_);
      assert Registered(log[..n], method_)[..i] == rs;
      forall j | 0 <= j < |rs| ensures !Matches(rs[j].pattern, path) {
        RegisteredIn(before, method_, rs[j]);
      }
    }
  }

  lemma FirstRegisteredRuns(log: seq<(string, Route)>, method_: string, path: string, k: nat, out: Outcome)
    requires FirstRegistered(log, method_, path, k) && Dispatched(log, method_, path, out)
    ensures out == Ran(log[k].1.handler, ParamsOf(log[k].1.pattern, path))
  {
    var i := FirstInOrder(log, method_, path, k, |log|);
    assert log[..|log|] == log;
    var want := Ran(log[k].1.handler, ParamsOf(log[k].1.pattern, path));
    assert RanAt(Registered(log, method_), path, want, i);
    DispatchUnique(log, method_, path, out, want);
  }

  class Router {
    var routes: map<string, seq<Route>>
    /** Handler runs, in order. */
    var calls: seq<(nat, Params)>
    ghost var log: seq<(string, Route)>

    ghost predicate Valid()
      reads this
    {
      forall m :: Registered(log, m) == if m in routes then routes[m] else []
    }

    constructor ()
      ensures Valid() && log == [] && calls == []
    {
      routes, calls, log := map[], [], [];
    }

    method Register(method_: string, pattern: string, handler: nat)
      requires Valid()
      modifies this
      ensures Valid() && calls == old(calls)
      ensures log == old(log) + [(ToUpper(method_), Route(pattern, handler))]
    {
      var m := ToUpper(method_);
      var r := Route(pattern, handler);
      var known := if m in routes then routes[m] else [];
      routes := routes[m := known + [r]];
      log := log + [(m, r)];
      forall n ensures Registered(log, n) == if n in routes then routes[n] else [] {
        RegisteredSnoc(old(log), m, r, n);
      }
    }

    method FindRoute(rs: seq<Route>, path: string) returns (i: nat, params: Params)
      ensures i <= |rs| && NoMatch(rs[..i], path)
      ensures i < |rs| ==> Matches(rs[i].pattern, path) && params == ParamsOf(rs[i].pattern, path)
    {
      i, params := 0, map[];
      while i < |rs|
        invariant i <= |rs| && NoMatch(rs[..i], path)
      {
        var matched, ps := MatchPattern(rs[i].pattern, path);
        if matched {
          return i, ps;
        }
        assert rs[..i + 1] == rs[..i] + [rs[i]];
        i := i + 1;
      }
    }

    /** One handler run at most, and the one answer the registrations call for. */
    method ServeHTTP(method_: string, path: string) returns (out: Outcome)
      requires Valid()
      modifies this`calls
      ensures Dispatched(log, method_, path, out)
      ensures calls == if out.Ran? then old(calls) + [(out.handler, out.params)] else old(calls)
    {
      ghost var mine := Registered(log, method_);
      if method_ in routes {
        var i, params := FindRoute(routes[method_], path);
        if i < |routes[method_]| {
          out := Ran(routes[method_][i].handler, params);
          assert RanAt(mine, path, out, i);
          calls := calls + [(routes[method_][i].handler, params)];
          return;
        }
        assert routes[method_][..i] == routes[method_];
      }
      assert NoMatch(mine, path);
      var elsewhere := MatchesElsewhere(method_, path);
      if elsewhere {
        return MethodNotAllowed;
      }
      forall r | r in log ensures !Matches(r.1.pattern, path) {
        RegisteredIn(log, r.0, r.1);
      }
      return NotFound;
    }

    /** The second pass, over the other methods in any order. */
    method MatchesElsewhere(method_: string, path: string) returns (found: bool)
      requires Valid()
      ensures found ==> exists r :: r in log && r.0 != method_ && Matches(r.1.pattern, path)
      ensures !found ==> forall m :: m != method_ ==> NoMatch(Registered(log, m), path)
    {
      var rest := routes.Keys;
      while rest != {}
        invariant rest <= routes.Keys
        invariant forall m :: m in routes && m !in rest && m != method_ ==> NoMatch(routes[m], path)
        decreases |rest|
      {
        var m :| m in rest;
        rest := rest - {m};
        if m != method_ {
          var i, _ := FindRoute(routes[m], path);
          if i < |routes[m]| {
            RegisteredIn(log, m, routes[m][i]);
            assert (m, routes[m][i]) in log;
            return true;
          }
          assert routes[m][..i] == routes[m];
        }
      }
      return false;
    }
  }
}
