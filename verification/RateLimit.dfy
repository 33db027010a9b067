/**
 The per-client rate limiter with its idle-state collector
 (pkg/http/middleware/ratelimit.go). The limiter is the standard token bucket:
 it starts full, refills at `rate` up to `burst`, and refuses without spending.
 Looking a bucket up and asking it happen at one instant.
 */
module RateLimit {
  import opened Prelude

  datatype Config = Config(rate: real, burst: int, ttl: real)

  datatype Limits = Limits(rate: real, burst: nat, ttl: real)

  const DEFAULT_TTL: real := 600.0

  predicate Sound(l: Limits) {
    l.rate > 0.0 && l.burst >= 1 && l.ttl > 0.0
  }

  /** None: the middleware is switched off and every request passes. */
  function Normalise(c: Config): (l: Option<Limits>)
    ensures l.Some? <==> c.rate > 0.0
    ensures l.Some? ==> Sound(l.value) && l.value.rate == c.rate
    ensures l.Some? && c.burst >= 1 ==> l.value.burst == c.burst
    ensures l.Some? && c.burst < 1 ==> l.value.burst == 1
    ensures l.Some? && c.ttl > 0.0 ==> l.value.ttl == c.ttl
    ensures l.Some? && c.ttl <= 0.0 ==> l.value.ttl == 600.0
  {
    if c.rate <= 0.0 then None
    else Some(Limits(c.rate, if c.burst <= 0 then 1 else c.burst, if c.ttl <= 0.0 then DEFAULT_TTL else c.ttl))
  }

  datatype Limiter = Limiter(tokens: real, last: real)
  datatype Bucket = Bucket(limiter: Limiter, lastSeen: real)
  type Buckets = map<string, Bucket>

  datatype Event = Request(ip: string, t: real) | Gc(t: real)

  /** Refill over a time span. */
  function Gain(l: Limits, d: real): (n: real) {
    l.rate * d
  }

  /** Tokens available at time `t`. */
  function Tokens(l: Limits, b: Limiter, t: real): (n: real) {
    var n := b.tokens + Gain(l, t - b.last);
    if n > l.burst as real then l.burst as real else n
  }

  function Allow(l: Limits, b: Limiter, t: real): (r: (bool, Limiter)) {
    var n := Tokens(l, b, t);
    if n >= 1.0 then (true, Limiter(n - 1.0, t)) else (false, b)
  }

  function Lookup(l: Limits, m: Buckets, ip: string, t: real): (b: Limiter) {
    if ip in m then m[ip].limiter else Limiter(l.burst as real, t)
  }

  function Serve(l: Limits, m: Buckets, ip: string, t: real): (r: (bool, Buckets)) {
    var (ok, b) := Allow(l, Lookup(l, m, ip, t), t);
    (ok, m[ip := Bucket(b, t)])
  }

  /** The entries that have been seen since `t - ttl`. */
  function Collect(l: Limits, m: Buckets, t: real): (r: Buckets) {
    map ip | ip in m && m[ip].lastSeen >= t - l.ttl :: m[ip]
  }

  function Step(l: Limits, m: Buckets, e: Event, collecting: bool): (r: (bool, Buckets)) {
    match e
    case Request(ip, t) => Serve(l, m, ip, t)
    case Gc(t) => (true, if collecting then Collect(l, m, t) else m)
  }

  /** The admit/reject decisions of a trace, in order. */
  function Decisions(l: Limits, m: Buckets, es: seq<Event>, collecting: bool): (ds: seq<bool>)
    ensures |ds| == |es|
    decreases |es|
  {
    if es == [] then [] else
      var (ok, m') := Step(l, m, es[0], collecting);
      [ok] + Decisions(l, m', es[1..], collecting)
  }

  /** Times never run backwards. */
  predicate Timed(es: seq<Event>, from_: real)
    decreases |es|
  {
    es == [] || (from_ <= es[0].t && Timed(es[1..], es[0].t))
  }

  // ---------------------------------------------------------------- what a store is worth

  function Avail(l: Limits, m: Buckets, ip: string, t: real): (n: real) {
    if ip in m then Tokens(l, m[ip].limiter, t) else l.burst as real
  }

  ghost predicate StoreOk(l: Limits, m: Buckets, now: real) {
    forall ip :: ip in m ==>
      0.0 <= m[ip].limiter.tokens && m[ip].limiter.last <= m[ip].lastSeen <= now
  }

  lemma GainGrows(l: Limits, x: real, y: real)
    requires Sound(l) && x <= y
    ensures Gain(l, x) <= Gain(l, y) && Gain(l, 0.0) == 0.0
  {
  }

  lemma GainAdds(l: Limits, x: real, y: real, z: real)
    requires x + y == z
    ensures Gain(l, x) + Gain(l, y) == Gain(l, z)
  {
    assert l.rate * (x + y) == l.rate * x + l.rate * y;
  }

  /** Refill is monotone and at most `rate` per unit of time. */
  lemma Refill(l: Limits, b: Limiter, s: real, t: real)
    requires Sound(l) && s <= t
    ensures Tokens(l, b, s) <= Tokens(l, b, t) <= Tokens(l, b, s) + Gain(l, t - s)
  {
    GainAdds(l, s - b.last, t - s, t - b.last);
    GainGrows(l, 0.0, t - s);
  }

  lemma AvailRefill(l: Limits, m: Buckets, ip: string, s: real, t: real)
    requires Sound(l) && s <= t
    ensures Avail(l, m, ip, s) <= Avail(l, m, ip, t) <= Avail(l, m, ip, s) + Gain(l, t - s)
  {
    GainGrows(l, 0.0, t - s);
    if ip in m { Refill(l, m[ip].limiter, s, t); }
  }

  lemma TokensNow(l: Limits, b: Limiter, t: real)
    requires Sound(l) && b.last == t && b.tokens <= l.burst as real
    ensures Tokens(l, b, t) == b.tokens
  {
    assert t - b.last == 0.0;
    GainGrows(l, 0.0, 0.0);
  }

  lemma LookupAvail(l: Limits, m: Buckets, ip: string, t: real)
    requires Sound(l)
    ensures Tokens(l, Lookup(l, m, ip, t), t) == Avail(l, m, ip, t)
  {
    if ip !in m { TokensNow(l, Lookup(l, m, ip, t), t); }
  }

  /** A request is admitted iff a token is there, spends it if so, and touches nobody else. */
  lemma ServeEffect(l: Limits, m: Buckets, ip: string, t: real)
    requires Sound(l) && StoreOk(l, m, t)
    ensures var (ok, m') := Serve(l, m, ip, t);
            && StoreOk(l, m', t)
            && (ok <==> Avail(l, m, ip, t) >= 1.0)
            && (ok ==> Avail(l, m', ip, t) == Avail(l, m, ip, t) - 1.0)
            && ip in m' && m'[ip].lastSeen == t
            && (forall other, u :: other != ip ==> Avail(l, m', other, u) == Avail(l, m, other, u))
  {
    LookupAvail(l, m, ip, t);
    var b := Serve(l, m, ip, t).1[ip].limiter;
    if Serve(l, m, ip, t).0 { TokensNow(l, b, t); } else { assert ip in m; }
  }

  /** After a request, its client's future is the present balance plus refill. */
  lemma ServeFuture(l: Limits, m: Buckets, ip: string, t: real, u: real)
    requires Sound(l) && t <= u
    ensures var (ok, m') := Serve(l, m, ip, t);
            Avail(l, m', ip, u) == if ok then Tokens(l, Limiter(Avail(l, m, ip, t) - 1.0, t), u) else Avail(l, m, ip, u)
  {
    LookupAvail(l, m, ip, t);
  }

  // ---------------------------------------------------------------- collecting is unobservable

  /** Long enough to refill from empty: the condition on the configuration. */
  predicate IdleRefills(l: Limits) {
    Gain(l, l.ttl) >= l.burst as real
  }

  /** A bucket idle for longer than ttl is full again. */
  lemma IdleIsFull(l: Limits, b: Bucket, t: real, u: real)
    requires Sound(l) && IdleRefills(l) && t <= u
    requires 0.0 <= b.limiter.tokens && b.limiter.last <= b.lastSeen < t - l.ttl
    ensures Tokens(l, b.limiter, u) == l.burst as real
  {
    GainGrows(l, l.ttl, u - b.limiter.last);
  }

  lemma CollectKeepsAvail(l: Limits, m: Buckets, t: real, ip: string, u: real)
    requires Sound(l) && IdleRefills(l) && StoreOk(l, m, t) && t <= u
    ensures Avail(l, Collect(l, m, t), ip, u) == Avail(l, m, ip, u)
  {
    if ip in m && ip !in Collect(l, m, t) { IdleIsFull(l, m[ip], t, u); }
  }

  /** From `now` on the two stores are worth the same to every client. */
  ghost predicate SameWorth(l: Limits, m: Buckets, n: Buckets, now: real) {
    forall ip, u :: now <= u ==> Avail(l, m, ip, u) == Avail(l, n, ip, u)
  }

  lemma ServeSameWorth(l: Limits, m: Buckets, n: Buckets, ip: string, t: real)
    requires Sound(l) && StoreOk(l, m, t) && StoreOk(l, n, t) && SameWorth(l, m, n, t)
    ensures Serve(l, m, ip, t).0 == Serve(l, n, ip, t).0
    ensures SameWorth(l, Serve(l, m, ip, t).1, Serve(l, n, ip, t).1, t)
  {
    var m', n' := Serve(l, m, ip, t).1, Serve(l, n, ip, t).1;
    ServeEffect(l, m, ip, t);
    ServeEffect(l, n, ip, t);
    assert Avail(l, m, ip, t) == Avail(l, n, ip, t);
    forall other, u | t <= u ensures Avail(l, m', other, u) == Avail(l, n', other, u) {
      assert Avail(l, m, other, u) == Avail(l, n, other, u);
      if other == ip {
        ServeFuture(l, m, ip, t, u);
        ServeFuture(l, n, ip, t, u);
      }
    }
  }

  lemma CollectSameWorth(l: Limits, m: Buckets, n: Buckets, t: real)
    requires Sound(l) && IdleRefills(l) && StoreOk(l, m, t) && SameWorth(l, m, n, t)
    ensures SameWorth(l, Collect(l, m, t), n, t) && StoreOk(l, Collect(l, m, t), t)
  {
    forall ip, u | t <= u ensures Avail(l, Collect(l, m, t), ip, u) == Avail(l, n, ip, u) {
      CollectKeepsAvail(l, m, t, ip, u);
    }
  }

  /** A store that collects and one that never does decide alike on every timed trace. */
  lemma {:induction false} GcUnobservable(l: Limits, m: Buckets, n: Buckets, es: seq<Event>, now: real)
    requires Sound(l) && IdleRefills(l) && Timed(es, now)
    requires StoreOk(l, m, now) && StoreOk(l, n, now) && SameWorth(l, m, n, now)
    ensures Decisions(l, m, es, true) == Decisions(l, n, es, false)
    decreases |es|
  {
    if es != [] {
      var t := es[0].t;
      assert SameWorth(l, m, n, t);
      match es[0] {
        case Request(ip, _) =>
          ServeSameWorth(l, m, n, ip, t);
          ServeEffect(l, m, ip, t);
          ServeEffect(l, n, ip, t);
        case Gc(_) =>
          CollectSameWorth(l, m, n, t);
      }
      GcUnobservable(l, Step(l, m, es[0], true).1, Step(l, n, es[0], false).1, es[1..], t);
    }
  }

  // ---------------------------------------------------------------- the admission bound

  /** Requests of `ip` admitted at times within [lo, hi]. */
  function Admitted(l: Limits, m: Buckets, es: seq<Event>, collecting: bool, ip: string, lo: real, hi: real): (n: nat)
    decreases |es|
  {
    if es == [] then 0 else
      var (ok, m') := Step(l, m, es[0], collecting);
      (if es[0].Request? && es[0].ip == ip && lo <= es[0].t <= hi && ok then 1 else 0)
      + Admitted(l, m', es[1..], collecting, ip, lo, hi)
  }

  function Later(a: real, b: real): (c: real) {
    if a >= b then a else b
  }

  lemma StepOk(l: Limits, m: Buckets, e: Event)
    requires Sound(l) && StoreOk(l, m, e.t)
    ensures StoreOk(l, Step(l, m, e, true).1, e.t)
  {
    if e.Request? { ServeEffect(l, m, e.ip, e.t); }
  }

  lemma {:induction false} NothingAfter(l: Limits, m: Buckets, es: seq<Event>, now: real, ip: string, lo: real, hi: real)
    requires Timed(es, now) && hi < now
    ensures Admitted(l, m, es, true, ip, lo, hi) == 0
    decreases |es|
  {
    if es != [] { NothingAfter(l, Step(l, m, es[0], true).1, es[1..], es[0].t, ip, lo, hi); }
  }

  /** One event never makes a client's balance grow, and an admission lowers it by one. */
  lemma StepSpends(l: Limits, m: Buckets, e: Event, ip: string, u: real)
    requires Sound(l) && IdleRefills(l) && StoreOk(l, m, e.t) && e.t <= u
    ensures var (ok, m') := Step(l, m, e, true);
            && Avail(l, m', ip, u) <= Avail(l, m, ip, u)
            && (e.Request? && e.ip == ip && ok ==> Avail(l, m', ip, e.t) + 1.0 <= Avail(l, m, ip, e.t))
  {
    match e {
      case Gc(t) => CollectKeepsAvail(l, m, t, ip, u);
      case Request(client, t) =>
        ServeEffect(l, m, client, t);
        if client == ip {
          ServeFuture(l, m, ip, t, u);
          SpentIsLess(l, m, ip, t, u);
        }
    }
  }

  lemma SpentIsLess(l: Limits, m: Buckets, ip: string, t: real, u: real)
    requires Sound(l) && t <= u
    ensures Tokens(l, Limiter(Avail(l, m, ip, t) - 1.0, t), u) <= Avail(l, m, ip, u)
  {
    if ip in m {
      var b := m[ip].limiter;
      GainAdds(l, t - b.last, u - t, u - b.last);
    }
  }

  /** The balance at the window's start plus its refill pays for every admission in the window. */
  lemma {:induction false} PaidFor(
    l: Limits, m: Buckets, es: seq<Event>, now: real, ip: string, lo: real, hi: real)
    requires Sound(l) && IdleRefills(l) && Timed(es, now) && StoreOk(l, m, now) && Later(now, lo) <= hi
    ensures Admitted(l, m, es, true, ip, lo, hi) as real
            <= Avail(l, m, ip, Later(now, lo)) + Gain(l, hi - Later(now, lo))
    decreases |es|
  {
    var s := Later(now, lo);
    AvailPositive(l, m, ip, now, s);
    GainGrows(l, 0.0, hi - s);
    if es != [] {
      var e := es[0];
      var (ok, m') := Step(l, m, e, true);
      StepOk(l, m, e);
      if hi < e.t {
        NothingAfter(l, m', es[1..], e.t, ip, lo, hi);
      } else {
        var s' := Later(e.t, lo);
        PaidFor(l, m', es[1..], e.t, ip, lo, hi);
        StepSpends(l, m, e, ip, s');
        AvailRefill(l, m, ip, s, s');
        GainAdds(l, hi - s', s' - s, hi - s);
      }
    }
  }

  lemma AvailPositive(l: Limits, m: Buckets, ip: string, now: real, s: real)
    requires Sound(l) && StoreOk(l, m, now) && now <= s
    ensures Avail(l, m, ip, s) >= 0.0
  {
    if ip in m { GainGrows(l, 0.0, s - m[ip].limiter.last); }
  }

  lemma BoundByGain(l: Limits, es: seq<Event>, now: real, ip: string, lo: real, hi: real)
    requires Sound(l) && IdleRefills(l) && Timed(es, now) && lo <= hi
    ensures Admitted(l, map[], es, true, ip, lo, hi) as real <= l.burst as real + Gain(l, hi - lo)
  {
    var s := Later(now, lo);
    if s <= hi {
      PaidFor(l, map[], es, now, ip, lo, hi);
      GainGrows(l, hi - s, hi - lo);
    } else {
      NothingAfter(l, map[], es, now, ip, lo, hi);
      GainGrows(l, 0.0, hi - lo);
    }
  }

  /** Any number below what the bucket and the refill give. */
  predicate Affordable(l: Limits, n: nat, d: real) {
    n as real <= l.burst as real + l.rate * d
  }

  lemma GainIsAffordable(l: Limits, n: nat, d: real)
    requires n as real <= l.burst as real + Gain(l, d)
    ensures Affordable(l, n, d)
  {
  }

  /** No client gets more than burst + rate * d requests through in any window of length d. */
  lemma AdmissionBound(l: Limits, es: seq<Event>, now: real, ip: string, lo: real, hi: real)
    requires Sound(l) && IdleRefills(l) && Timed(es, now) && lo <= hi
    ensures Affordable(l, Admitted(l, map[], es, true, ip, lo, hi), hi - lo)
  {
    BoundByGain(l, es, now, ip, lo, hi);
    GainIsAffordable(l, Admitted(l, map[], es, true, ip, lo, hi), hi - lo);
  }

  // ---------------------------------------------------------------- the condition is exact

  /** `n` requests of one client at one instant. */
  function Ask(ip: string, t: real, n: nat): (es: seq<Event>) {
    if n == 0 then [] else [Request(ip, t)] + Ask(ip, t, n - 1)
  }

  function After(l: Limits, m: Buckets, es: seq<Event>, collecting: bool): (r: Buckets)
    decreases |es|
  {
    if es == [] then m else After(l, Step(l, m, es[0], collecting).1, es[1..], collecting)
  }

  predicate AllAdmitted(ds: seq<bool>) {
    forall i :: 0 <= i < |ds| ==> ds[i]
  }

  lemma {:induction false} DecisionsAppend(l: Limits, m: Buckets, es: seq<Event>, fs: seq<Event>, collecting: bool)
    ensures Decisions(l, m, es + fs, collecting)
            == Decisions(l, m, es, collecting) + Decisions(l, After(l, m, es, collecting), fs, collecting)
    decreases |es|
  {
    if es == [] {
      assert es + fs == fs;
    } else {
      assert (es + fs)[1..] == es[1..] + fs;
      DecisionsAppend(l, Step(l, m, es[0], collecting).1, es[1..], fs, collecting);
    }
  }

  /** A burst of `n` passes as a whole iff `n` tokens are there, and then spends exactly `n`. */
  lemma {:induction false} AskOutcome(l: Limits, m: Buckets, ip: string, t: real, n: nat, collecting: bool)
    requires Sound(l) && StoreOk(l, m, t) && Avail(l, m, ip, t) >= 0.0
    ensures AllAdmitted(Decisions(l, m, Ask(ip, t, n), collecting)) <==> n as real <= Avail(l, m, ip, t)
    ensures n as real <= Avail(l, m, ip, t) ==>
              Avail(l, After(l, m, Ask(ip, t, n), collecting), ip, t) == Avail(l, m, ip, t) - n as real
    ensures StoreOk(l, After(l, m, Ask(ip, t, n), collecting), t)
    decreases n
  {
    if n > 0 {
      var es := Ask(ip, t, n);
      assert es[0] == Request(ip, t) && es[1..] == Ask(ip, t, n - 1);
      ServeEffect(l, m, ip, t);
      var (ok, m') := Serve(l, m, ip, t);
      var ds := Decisions(l, m', es[1..], collecting);
      assert Decisions(l, m, es, collecting) == [ok] + ds;
      assert ([ok] + ds)[0] == ok && ([ok] + ds)[1..] == ds;
      AvailPositive(l, m', ip, t, t);
      AskOutcome(l, m', ip, t, n - 1, collecting);
      AllAdmittedTail(ok, ds);
    }
  }

  lemma AllAdmittedTail(ok: bool, ds: seq<bool>)
    ensures AllAdmitted([ok] + ds) <==> ok && AllAdmitted(ds)
  {
    var all := [ok] + ds;
    assert all[0] == ok;
    assert forall i :: 0 <= i < |ds| ==> all[i + 1] == ds[i];
  }

  lemma {:induction false} AskSeen(l: Limits, m: Buckets, ip: string, t: real, n: nat, collecting: bool)
    requires n > 0
    ensures var m' := After(l, m, Ask(ip, t, n), collecting);
            && ip in m' && m'[ip].lastSeen == t
            && (forall other :: other in m' ==> other == ip || (other in m && m'[other] == m[other]))
    decreases n
  {
    var es := Ask(ip, t, n);
    assert es[0] == Request(ip, t) && es[1..] == Ask(ip, t, n - 1);
    var m' := Serve(l, m, ip, t).1;
    if n > 1 { AskSeen(l, m', ip, t, n - 1, collecting); }
  }

  /**
   The refill rate from outside: after a first burst at `t` that empties the bucket, `k`
   requests at `u` all pass iff `k` fit the bucket and `rate * (u - t)` tokens have come back.
   */
  lemma RefillExact(l: Limits, ip: string, t: real, u: real, k: nat, collecting: bool)
    requires Sound(l) && t <= u
    ensures AllAdmitted(Decisions(l, map[], Ask(ip, t, l.burst) + Ask(ip, u, k), collecting))
            <==> k <= l.burst && k as real <= l.rate * (u - t)
  {
    var m := After(l, map[], Ask(ip, t, l.burst), collecting);
    EmptyAfterBurst(l, ip, t, collecting);
    EmptyRefills(l, m, ip, t, u);
    DecisionsAppend(l, map[], Ask(ip, t, l.burst), Ask(ip, u, k), collecting);
    AskOutcome(l, m, ip, u, k, collecting);
    AllAdmittedAppend(Decisions(l, map[], Ask(ip, t, l.burst), collecting), Decisions(l, m, Ask(ip, u, k), collecting));
  }

  /** An empty bucket holds what its rate has earned since, up to burst. */
  lemma EmptyRefills(l: Limits, m: Buckets, ip: string, t: real, u: real)
    requires Sound(l) && t <= u && StoreOk(l, m, t) && ip in m && Avail(l, m, ip, t) == 0.0
    ensures StoreOk(l, m, u)
    ensures Avail(l, m, ip, u) == if l.rate * (u - t) > l.burst as real then l.burst as real else l.rate * (u - t)
    ensures Avail(l, m, ip, u) >= 0.0
  {
    var b := m[ip].limiter;
    GainAdds(l, t - b.last, u - t, u - b.last);
    GainGrows(l, 0.0, u - t);
  }

  /** So a lone next request passes iff one token has come back. */
  lemma NextAdmittedIff(l: Limits, ip: string, t: real, u: real, collecting: bool)
    requires Sound(l) && t <= u
    ensures var ds := Decisions(l, map[], Ask(ip, t, l.burst) + [Request(ip, u)], collecting);
            ds[|ds| - 1] <==> l.rate * (u - t) >= 1.0
  {
    var first := Decisions(l, map[], Ask(ip, t, l.burst), collecting);
    var m := After(l, map[], Ask(ip, t, l.burst), collecting);
    AskLength(ip, t, l.burst);
    EmptyAfterBurst(l, ip, t, collecting);
    EmptyRefills(l, m, ip, t, u);
    DecisionsAppend(l, map[], Ask(ip, t, l.burst), [Request(ip, u)], collecting);
    ServeEffect(l, m, ip, u);
  }

  lemma {:induction false} AskLength(ip: string, t: real, n: nat)
    ensures |Ask(ip, t, n)| == n
  {
    if n > 0 { AskLength(ip, t, n - 1); }
  }

  /** The trace is the ticker's own: the collector runs at every multiple of ttl, and only then. */
  predicate Ticked(l: Limits, es: seq<Event>, next: real)
    decreases |es|
  {
    es == [] || (if es[0].Gc? then es[0].t == next && Ticked(l, es[1..], next + l.ttl)
                 else es[0].t <= next && Ticked(l, es[1..], next))
  }

  /** Two ticks of the collector, and a burst right after the second. */
  function TicksAndBurst(l: Limits, ip: string): (es: seq<Event>) {
    [Gc(l.ttl)] + ([Gc(2.0 * l.ttl)] + Ask(ip, 2.0 * l.ttl, l.burst))
  }

  /** Two full bursts of one client around the collector's second tick. */
  function TwoBursts(l: Limits, ip: string, s: real): (es: seq<Event>) {
    Ask(ip, s, l.burst) + TicksAndBurst(l, ip)
  }

  /** Late enough for the second tick to forget it before it has refilled. */
  ghost predicate IsFirstBurst(l: Limits, s: real) {
    0.0 <= s < l.ttl && Gain(l, 2.0 * l.ttl - s) < l.burst as real
  }

  lemma HasFirstBurst(l: Limits)
    requires Sound(l) && !IdleRefills(l)
    ensures exists s :: IsFirstBurst(l, s)
  {
    var missing := (l.burst as real - Gain(l, l.ttl)) / (2.0 * l.rate);
    HalfTheGap(l, missing);
    if missing <= l.ttl {
      assert IsFirstBurst(l, l.ttl - missing);
    } else {
      GainGrows(l, 2.0 * l.ttl, l.ttl + missing);
      assert IsFirstBurst(l, 0.0);
    }
  }

  ghost function FirstBurst(l: Limits): (s: real)
    requires Sound(l) && !IdleRefills(l)
    ensures 0.0 <= s < l.ttl
    ensures Gain(l, 2.0 * l.ttl - s) < l.burst as real
  {
    HasFirstBurst(l);
    var s :| IsFirstBurst(l, s);
    s
  }

  lemma HalfTheGap(l: Limits, missing: real)
    requires Sound(l) && !IdleRefills(l)
    requires missing == (l.burst as real - Gain(l, l.ttl)) / (2.0 * l.rate)
    ensures missing > 0.0 && Gain(l, l.ttl + missing) < l.burst as real
  {
    var gap := l.burst as real - Gain(l, l.ttl);
    assert missing * (2.0 * l.rate) == gap;
    assert Gain(l, missing) == gap / 2.0;
    if missing <= 0.0 { GainGrows(l, missing, 0.0); }
    GainAdds(l, l.ttl, missing, l.ttl + missing);
  }

  /** The first burst passes whole and leaves one empty bucket behind. */
  lemma EmptyAfterBurst(l: Limits, ip: string, s: real, collecting: bool)
    requires Sound(l)
    ensures var m := After(l, map[], Ask(ip, s, l.burst), collecting);
            && AllAdmitted(Decisions(l, map[], Ask(ip, s, l.burst), collecting))
            && m.Keys == {ip} && m[ip].lastSeen == s && StoreOk(l, m, s) && Avail(l, m, ip, s) == 0.0
  {
    AskOutcome(l, map[], ip, s, l.burst, collecting);
    AskSeen(l, map[], ip, s, l.burst, collecting);
  }

  lemma DecisionsFirst(l: Limits, m: Buckets, e: Event, es: seq<Event>, collecting: bool)
    ensures Decisions(l, m, [e] + es, collecting)
            == [Step(l, m, e, collecting).0] + Decisions(l, Step(l, m, e, collecting).1, es, collecting)
  {
    assert ([e] + es)[0] == e && ([e] + es)[1..] == es;
  }

  /** What is left of a store after the first two ticks. */
  function Ticks(l: Limits, m: Buckets, collecting: bool): (r: Buckets) {
    if collecting then Collect(l, Collect(l, m, l.ttl), 2.0 * l.ttl) else m
  }

  lemma TicksSplit(l: Limits, m: Buckets, ip: string, collecting: bool)
    ensures Decisions(l, m, TicksAndBurst(l, ip), collecting)
            == [true] + ([true] + Decisions(l, Ticks(l, m, collecting), Ask(ip, 2.0 * l.ttl, l.burst), collecting))
  {
    var t := 2.0 * l.ttl;
    DecisionsFirst(l, m, Gc(l.ttl), [Gc(t)] + Ask(ip, t, l.burst), collecting);
    DecisionsFirst(l, Step(l, m, Gc(l.ttl), collecting).1, Gc(t), Ask(ip, t, l.burst), collecting);
  }

  lemma TwoBurstsSplit(l: Limits, ip: string, s: real, collecting: bool)
    ensures var m := After(l, map[], Ask(ip, s, l.burst), collecting);
            Decisions(l, map[], TwoBursts(l, ip, s), collecting)
            == Decisions(l, map[], Ask(ip, s, l.burst), collecting)
             + ([true] + ([true] + Decisions(l, Ticks(l, m, collecting), Ask(ip, 2.0 * l.ttl, l.burst), collecting)))
  {
    DecisionsAppend(l, map[], Ask(ip, s, l.burst), TicksAndBurst(l, ip), collecting);
    TicksSplit(l, After(l, map[], Ask(ip, s, l.burst), collecting), ip, collecting);
  }

  lemma AllAdmittedAppend(a: seq<bool>, b: seq<bool>)
    ensures AllAdmitted(a + b) <==> AllAdmitted(a) && AllAdmitted(b)
  {
    var all := a + b;
    assert forall i :: 0 <= i < |a| ==> all[i] == a[i];
    assert forall i :: 0 <= i < |b| ==> all[i + |a|] == b[i];
  }

  /** The second burst after the ticks: whole if the bucket was forgotten, not whole if it was kept. */
  lemma SecondBurst(l: Limits, ip: string, m: Buckets, s: real, collecting: bool)
    requires Sound(l) && 0.0 <= s < l.ttl && Gain(l, 2.0 * l.ttl - s) < l.burst as real
    requires m.Keys == {ip} && m[ip].lastSeen == s && StoreOk(l, m, s) && Avail(l, m, ip, s) == 0.0
    ensures AllAdmitted(Decisions(l, Ticks(l, m, collecting), Ask(ip, 2.0 * l.ttl, l.burst), collecting)) <==> collecting
  {
    var t := 2.0 * l.ttl;
    var m' := Ticks(l, m, collecting);
    assert collecting ==> m' == map[];
    AvailRefill(l, m, ip, s, t);
    AvailPositive(l, m', ip, t, t);
    AskOutcome(l, m', ip, t, l.burst, collecting);
  }

  /** With the collector both bursts pass whole; without it the second does not. */
  lemma CollectorShows(l: Limits, ip: string, collecting: bool)
    requires Sound(l) && !IdleRefills(l)
    ensures AllAdmitted(Decisions(l, map[], TwoBursts(l, ip, FirstBurst(l)), collecting)) <==> collecting
  {
    var s := FirstBurst(l);
    var first := Decisions(l, map[], Ask(ip, s, l.burst), collecting);
    var m := After(l, map[], Ask(ip, s, l.burst), collecting);
    var second := Decisions(l, Ticks(l, m, collecting), Ask(ip, 2.0 * l.ttl, l.burst), collecting);
    TwoBurstsSplit(l, ip, s, collecting);
    EmptyAfterBurst(l, ip, s, collecting);
    SecondBurst(l, ip, m, s, collecting);
    AllAdmittedTail(true, second);
    AllAdmittedTail(true, [true] + second);
    AllAdmittedAppend(first, [true] + ([true] + second));
  }

  lemma TimedFirst(e: Event, es: seq<Event>, from_: real)
    requires from_ <= e.t && Timed(es, e.t)
    ensures Timed([e] + es, from_)
  {
    assert ([e] + es)[0] == e && ([e] + es)[1..] == es;
  }

  lemma {:induction false} AskTimed(ip: string, t: real, n: nat, rest: seq<Event>, from_: real)
    requires from_ <= t && Timed(rest, t)
    ensures Timed(Ask(ip, t, n) + rest, from_)
    decreases n
  {
    if n == 0 {
      assert Ask(ip, t, n) + rest == rest;
    } else {
      AskTimed(ip, t, n - 1, rest, t);
      TimedFirst(Request(ip, t), Ask(ip, t, n - 1) + rest, from_);
      assert Ask(ip, t, n) + rest == [Request(ip, t)] + (Ask(ip, t, n - 1) + rest);
    }
  }

  lemma TickedFirst(l: Limits, e: Event, es: seq<Event>, next: real)
    requires if e.Gc? then e.t == next && Ticked(l, es, next + l.ttl) else e.t <= next && Ticked(l, es, next)
    ensures Ticked(l, [e] + es, next)
  {
    assert ([e] + es)[0] == e && ([e] + es)[1..] == es;
  }

  lemma {:induction false} AskTicked(l: Limits, ip: string, t: real, n: nat, rest: seq<Event>, next: real)
    requires t <= next && Ticked(l, rest, next)
    ensures Ticked(l, Ask(ip, t, n) + rest, next)
    decreases n
  {
    if n == 0 {
      assert Ask(ip, t, n) + rest == rest;
    } else {
      AskTicked(l, ip, t, n - 1, rest, next);
      TickedFirst(l, Request(ip, t), Ask(ip, t, n - 1) + rest, next);
      assert Ask(ip, t, n) + rest == [Request(ip, t)] + (Ask(ip, t, n - 1) + rest);
    }
  }

  lemma TwoBurstsTimed(l: Limits, ip: string, s: real)
    requires Sound(l) && 0.0 <= s < l.ttl
    ensures Timed(TwoBursts(l, ip, s), 0.0)
  {
    var t := 2.0 * l.ttl;
    var second := Ask(ip, t, l.burst);
    AskTimed(ip, t, l.burst, [], t);
    assert second + [] == second;
    TimedFirst(Gc(t), second, l.ttl);
    TimedFirst(Gc(l.ttl), [Gc(t)] + second, s);
    AskTimed(ip, s, l.burst, TicksAndBurst(l, ip), 0.0);
  }

  lemma TwoBurstsTicked(l: Limits, ip: string, s: real)
    requires Sound(l) && 0.0 <= s < l.ttl
    ensures Ticked(l, TwoBursts(l, ip, s), l.ttl)
  {
    var t := 2.0 * l.ttl;
    var second := Ask(ip, t, l.burst);
    AskTicked(l, ip, t, l.burst, [], t + l.ttl);
    assert second + [] == second;
    TickedFirst(l, Gc(t), second, t);
    assert l.ttl + l.ttl == t;
    TickedFirst(l, Gc(l.ttl), [Gc(t)] + second, l.ttl);
    AskTicked(l, ip, s, l.burst, TicksAndBurst(l, ip), l.ttl);
  }

  /** The number of a client's requests in a trace. */
  function Requests(es: seq<Event>, ip: string): (n: nat)
    decreases |es|
  {
    if es == [] then 0 else (if es[0].Request? && es[0].ip == ip then 1 else 0) + Requests(es[1..], ip)
  }

  lemma {:induction false} AdmittedAll(
    l: Limits, m: Buckets, es: seq<Event>, collecting: bool, ip: string, lo: real, hi: real)
    requires AllAdmitted(Decisions(l, m, es, collecting))
    requires forall i :: 0 <= i < |es| ==> lo <= es[i].t <= hi
    ensures Admitted(l, m, es, collecting, ip, lo, hi) == Requests(es, ip)
    decreases |es|
  {
    if es != [] {
      var (ok, m') := Step(l, m, es[0], collecting);
      AllAdmittedTail(ok, Decisions(l, m', es[1..], collecting));
      AdmittedAll(l, m', es[1..], collecting, ip, lo, hi);
    }
  }

  lemma {:induction false} AskRequests(ip: string, t: real, n: nat, rest: seq<Event>)
    ensures Requests(Ask(ip, t, n) + rest, ip) == n + Requests(rest, ip)
    decreases n
  {
    if n == 0 {
      assert Ask(ip, t, n) + rest == rest;
    } else {
      AskRequests(ip, t, n - 1, rest);
      RequestsFirst(Request(ip, t), Ask(ip, t, n - 1) + rest, ip);
      assert Ask(ip, t, n) + rest == [Request(ip, t)] + (Ask(ip, t, n - 1) + rest);
    }
  }

  lemma RequestsFirst(e: Event, es: seq<Event>, ip: string)
    ensures Requests([e] + es, ip) == (if e.Request? && e.ip == ip then 1 else 0) + Requests(es, ip)
  {
    assert ([e] + es)[0] == e && ([e] + es)[1..] == es;
  }

  lemma {:induction false} AskEvents(ip: string, t: real, n: nat)
    ensures forall e :: e in Ask(ip, t, n) ==> e == Request(ip, t)
    decreases n
  {
    if n > 0 { AskEvents(ip, t, n - 1); }
  }

  /** All events lie between the two bursts, which are all of the client's requests. */
  lemma TwoBurstsWindow(l: Limits, ip: string, s: real)
    requires Sound(l) && 0.0 <= s < l.ttl
    ensures Requests(TwoBursts(l, ip, s), ip) == 2 * l.burst
    ensures forall e :: e in TwoBursts(l, ip, s) ==> s <= e.t <= 2.0 * l.ttl
  {
    var t := 2.0 * l.ttl;
    var second := Ask(ip, t, l.burst);
    AskRequests(ip, s, l.burst, TicksAndBurst(l, ip));
    AskRequests(ip, t, l.burst, []);
    AskEvents(ip, s, l.burst);
    AskEvents(ip, t, l.burst);
    assert second + [] == second;
    RequestsFirst(Gc(t), second, ip);
    RequestsFirst(Gc(l.ttl), [Gc(t)] + second, ip);
  }

  /** Both bursts together, in a window too short to have earned the second. */
  lemma TwoBurstsAdmitted(l: Limits, ip: string)
    requires Sound(l) && !IdleRefills(l)
    ensures Admitted(l, map[], TwoBursts(l, ip, FirstBurst(l)), true, ip, FirstBurst(l), 2.0 * l.ttl) == 2 * l.burst
  {
    var s, t := FirstBurst(l), 2.0 * l.ttl;
    var es := TwoBursts(l, ip, s);
    CollectorShows(l, ip, true);
    TwoBurstsWindow(l, ip, s);
    forall i | 0 <= i < |es| ensures s <= es[i].t <= t { assert es[i] in es; }
    AdmittedAll(l, map[], es, true, ip, s, t);
  }

  /** Traces with the collector running at any times, or just when its ticker fires. */
  predicate Admissible(l: Limits, es: seq<Event>, now: real, ticker: bool) {
    Timed(es, now) && (ticker ==> now == 0.0 && Ticked(l, es, l.ttl))
  }

  /** No such trace can tell a collecting store from one that never forgets. */
  ghost predicate CollectorHidden(l: Limits, ticker: bool) {
    forall es, now :: Admissible(l, es, now, ticker) ==> Decisions(l, map[], es, true) == Decisions(l, map[], es, false)
  }

  /** For every client, in every window of every such trace, the admissions are affordable. */
  ghost predicate AdmissionsBounded(l: Limits, ticker: bool) {
    forall es, now, ip, lo, hi :: Admissible(l, es, now, ticker) && lo <= hi ==>
      Affordable(l, Admitted(l, map[], es, true, ip, lo, hi), hi - lo)
  }

  lemma CollectorHiddenIff(l: Limits, ticker: bool)
    requires Sound(l)
    ensures CollectorHidden(l, ticker) <==> IdleRefills(l)
  {
    if IdleRefills(l) {
      forall es, now | Admissible(l, es, now, ticker)
        ensures Decisions(l, map[], es, true) == Decisions(l, map[], es, false)
      {
        GcUnobservable(l, map[], map[], es, now);
      }
    } else {
      var s := FirstBurst(l);
      var es := TwoBursts(l, "", s);
      TwoBurstsTimed(l, "", s);
      TwoBurstsTicked(l, "", s);
      CollectorShows(l, "", true);
      CollectorShows(l, "", false);
      assert Admissible(l, es, 0.0, ticker) && Decisions(l, map[], es, true) != Decisions(l, map[], es, false);
    }
  }

  lemma BoundedIfRefilled(l: Limits, ticker: bool)
    requires Sound(l) && IdleRefills(l)
    ensures AdmissionsBounded(l, ticker)
  {
    forall es, now, ip, lo, hi | Admissible(l, es, now, ticker) && lo <= hi
      ensures Affordable(l, Admitted(l, map[], es, true, ip, lo, hi), hi - lo)
    {
      AdmissionBound(l, es, now, ip, lo, hi);
    }
  }

  lemma DoubleIsTooMuch(l: Limits, d: real)
    requires Gain(l, d) < l.burst as real
    ensures !Affordable(l, 2 * l.burst, d)
  {
  }

  /** The two bursts are more than the bucket and the refill of their window. */
  lemma ExceededOtherwise(l: Limits, es: seq<Event>, s: real, ip: string)
    requires Sound(l) && !IdleRefills(l) && s == FirstBurst(l) && es == TwoBursts(l, ip, s)
    ensures s <= 2.0 * l.ttl && !Affordable(l, Admitted(l, map[], es, true, ip, s, 2.0 * l.ttl), 2.0 * l.ttl - s)
  {
    TwoBurstsAdmitted(l, ip);
    DoubleIsTooMuch(l, 2.0 * l.ttl - s);
  }

  lemma AdmissionsBoundedIff(l: Limits, ticker: bool)
    requires Sound(l)
    ensures AdmissionsBounded(l, ticker) <==> IdleRefills(l)
  {
    if IdleRefills(l) {
      BoundedIfRefilled(l, ticker);
    } else {
      var s := FirstBurst(l);
      var es := TwoBursts(l, "", s);
      TwoBurstsTimed(l, "", s);
      TwoBurstsTicked(l, "", s);
      ExceededOtherwise(l, es, s, "");
      assert Admissible(l, es, 0.0, ticker);
    }
  }

  /** Both results for a configuration as given: defaults apply, and a non-positive rate limits nothing. */
  lemma Configured(c: Config, ticker: bool)
    requires c.rate > 0.0
    ensures var l := Normalise(c).value;
            var refills := c.rate * (if c.ttl > 0.0 then c.ttl else DEFAULT_TTL) >= (if c.burst > 0 then c.burst else 1) as real;
            (CollectorHidden(l, ticker) <==> refills) && (AdmissionsBounded(l, ticker) <==> refills)
  {
    CollectorHiddenIff(Normalise(c).value, ticker);
    AdmissionsBoundedIff(Normalise(c).value, ticker);
  }

  // ---------------------------------------------------------------- the store as an object

  /** What the bucket kept, and the refill at the configured rate since, amount to a token. */
  predicate HasToken(l: Limits, b: Limiter, t: real) {
    l.burst >= 1 && b.tokens + l.rate * (t - b.last) >= 1.0
  }

  lemma HasTokenIff(l: Limits, b: Limiter, t: real)
    ensures Tokens(l, b, t) >= 1.0 <==> HasToken(l, b, t)
  {
  }

  lemma FreshTokens(l: Limits, t: real)
    ensures Tokens(l, Limiter(l.burst as real, t), t) == l.burst as real
  {
    assert Gain(l, t - t) == 0.0;
  }

  class IpLimiterStore {
    const limits: Limits
    var buckets: Buckets

    constructor (limits: Limits)
      ensures this.limits == limits && buckets == map[]
    {
      this.limits := limits;
      buckets := map[];
    }

    /** Finds or makes the client's bucket and marks it as seen. */
    method Get(ip: string, now: real) returns (b: Limiter)
      modifies this
      ensures b == Lookup(limits, old(buckets), ip, now)
      ensures buckets == old(buckets)[ip := Bucket(b, now)]
    {
      if ip !in buckets {
        buckets := buckets[ip := Bucket(Limiter(limits.burst as real, now), now)];
      }
      b := buckets[ip].limiter;
      buckets := buckets[ip := Bucket(b, now)];
    }

    /** The middleware's step: true passes the request on, false answers 429. */
    method Admit(ip: string, now: real) returns (ok: bool)
      modifies this
      ensures (ok, buckets) == Serve(limits, old(buckets), ip, now)
      ensures ip !in old(buckets) ==> (ok <==> limits.burst >= 1)
      ensures ip in old(buckets) ==> (ok <==> HasToken(limits, old(buckets)[ip].limiter, now))
    {
      var b := Get(ip, now);
      var n := Tokens(limits, b, now);
      HasTokenIff(limits, b, now);
      if ip !in old(buckets) { FreshTokens(limits, now); }
      ok := n >= 1.0;
      if ok {
        buckets := buckets[ip := buckets[ip].(limiter := Limiter(n - 1.0, now))];
        assert buckets == old(buckets)[ip := Bucket(Limiter(n - 1.0, now), now)];
      }
    }

    /** One tick of the collector; entries are visited in any order. */
    method Gc(now: real)
      modifies this
      ensures buckets == Collect(limits, old(buckets), now)
      ensures forall ip :: ip in buckets <==> ip in old(buckets) && now - old(buckets)[ip].lastSeen <= limits.ttl
      ensures forall ip :: ip in buckets ==> buckets[ip] == old(buckets)[ip]
    {
      var cutoff := now - limits.ttl;
      var todo := buckets.Keys;
      while todo != {}
        invariant todo <= buckets.Keys <= old(buckets).Keys
        invariant forall ip :: ip in buckets ==> buckets[ip] == old(buckets)[ip]
        invariant forall ip :: ip in old(buckets) && ip !in todo ==>
                    (ip in buckets <==> old(buckets)[ip].lastSeen >= cutoff)
        decreases |todo|
      {
        var ip :| ip in todo;
        todo := todo - {ip};
        if buckets[ip].lastSeen < cutoff {
          buckets := buckets - {ip};
        }
      }
    }
  }
}
