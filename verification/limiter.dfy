/** internal/delivery: the per-address token bucket with idle eviction, over real numbers. */
module Limiter {
  import opened Attenuation

  const TEN_MINUTES: Duration := 600 * SECOND
  const MAX_VISITORS := 10000
  const SWEEP_EVERY := 1024
  const COUNTER_MODULUS := 0x1_0000_0000_0000_0000

  datatype Visitor = Visitor(tokens: real, updated: Time, lastSeen: Time)

  type Visitors = map<string, Visitor>

  datatype Limits = Limits(rate: real, burst: real)

  /** What NewHandler accepts: a positive rate and a whole positive burst. */
  predicate LimitsOk(limits: Limits) {
    limits.rate > 0.0 && limits.burst >= 1.0
  }

  function Refill(limits: Limits, elapsed: Duration): real {
    (elapsed as real / SECOND as real) * limits.rate
  }

  function Min(a: real, b: real): real {
    if a < b then a else b
  }

  function Swept(visitors: Visitors, now: Time): Visitors {
    map a | a in visitors && now - visitors[a].lastSeen <= TEN_MINUTES :: visitors[a]
  }

  function Kept(visitors: Visitors, requests: nat, now: Time): Visitors {
    if requests % SWEEP_EVERY == 0 then Swept(visitors, now) else visitors
  }

  /** One visitor charged for a request. */
  function Charged(limits: Limits, v: Visitor, now: Time): (Visitor, bool) {
    var tokens := Min(limits.burst, v.tokens + Refill(limits, now - v.updated));
    (Visitor(if tokens >= 1.0 then tokens - 1.0 else tokens, now, now), tokens >= 1.0)
  }

  datatype State = State(visitors: Visitors, requests: nat)

  predicate Full(s: State, address: string, now: Time) {
    var kept := Kept(s.visitors, (s.requests + 1) % COUNTER_MODULUS, now);
    address !in kept && |kept| >= MAX_VISITORS
  }

  function Allow(limits: Limits, s: State, address: string, now: Time): (State, bool) {
    var requests := (s.requests + 1) % COUNTER_MODULUS;
    var kept := Kept(s.visitors, requests, now);
    if address !in kept && |kept| >= MAX_VISITORS then (State(kept, requests), false)
    else
      var (v, allowed) := Charged(limits, if address in kept then kept[address] else Visitor(limits.burst, now, now), now);
      (State(kept[address := v], requests), allowed)
  }

  /** The same request to a limiter that never evicts and has no cap. */
  function IdealAllow(limits: Limits, visitors: Visitors, address: string, now: Time): (Visitors, bool) {
    var (v, allowed) := Charged(limits, if address in visitors then visitors[address] else Visitor(limits.burst, now, now), now);
    (visitors[address := v], allowed)
  }

  class IpLimiter {
    const limits: Limits
    var visitors: Visitors
    var requests: nat

    constructor (limits: Limits)
      requires LimitsOk(limits)
      ensures this.limits == limits && visitors == map[] && requests == 0
    {
      this.limits := limits;
      visitors, requests := map[], 0;
    }

    /** The loop visits the visitors in any order. */
    method Sweep(now: Time)
      modifies this`visitors
      ensures visitors == Swept(old(visitors), now)
    {
      var before := visitors;
      var remaining := before.Keys;
      while remaining != {}
        invariant remaining <= before.Keys
        invariant visitors == map a | a in before && (a in remaining || now - before[a].lastSeen <= TEN_MINUTES) :: before[a]
        decreases remaining
      {
        var key :| key in remaining;
        if now - visitors[key].lastSeen > TEN_MINUTES {
          visitors := visitors - {key};
        }
        remaining := remaining - {key};
      }
    }

    method AllowRequest(address: string, now: Time) returns (allowed: bool)
      modifies this
      ensures (State(visitors, requests), allowed) == Allow(limits, old(State(visitors, requests)), address, now)
    {
      requests := (requests + 1) % COUNTER_MODULUS;
      if requests % SWEEP_EVERY == 0 {
        Sweep(now);
      }
      var visitor := Visitor(limits.burst, now, now);
      if address in visitors {
        visitor := visitors[address];
      } else if |visitors| >= MAX_VISITORS {
        return false;
      }
      var tokens := Min(limits.burst, visitor.tokens + Refill(limits, now - visitor.updated));
      allowed := tokens >= 1.0;
      if allowed {
        tokens := tokens - 1.0;
      }
      visitors := visitors[address := Visitor(tokens, now, now)];
    }
  }

  // ---- Levels ----

  /** The tokens an address would find at a moment; an absent address finds a full bucket. */
  function Level(limits: Limits, visitors: Visitors, address: string, now: Time): real {
    if address in visitors then Min(limits.burst, visitors[address].tokens + Refill(limits, now - visitors[address].updated))
    else limits.burst
  }

  ghost predicate Bounded(limits: Limits, visitors: Visitors, now: Time) {
    forall a | a in visitors ::
      && 0.0 <= visitors[a].tokens <= limits.burst
      && visitors[a].updated == visitors[a].lastSeen <= now
  }

  lemma RefillAdds(limits: Limits, d: Duration, e: Duration)
    ensures Refill(limits, d + e) == Refill(limits, d) + Refill(limits, e)
  {
    var x, y := d as real / SECOND as real, e as real / SECOND as real;
    assert (d + e) as real / SECOND as real == x + y;
    assert (x + y) * limits.rate == x * limits.rate + y * limits.rate;
  }

  lemma RefillGrows(limits: Limits, d: Duration, e: Duration)
    requires LimitsOk(limits) && d <= e
    ensures Refill(limits, d) <= Refill(limits, e)
    ensures 0 <= d ==> 0.0 <= Refill(limits, d)
  {
    var x, y := d as real / SECOND as real, e as real / SECOND as real;
    assert x <= y;
    assert (y - x) * limits.rate >= 0.0;
    assert y * limits.rate == x * limits.rate + (y - x) * limits.rate;
    if 0 <= d {
      assert x >= 0.0;
    }
  }

  /** An evicted bucket would have refilled completely. */
  predicate RefillsWhenIdle(limits: Limits) {
    Refill(limits, TEN_MINUTES + 1) >= limits.burst
  }

  lemma SweepKeepsLevels(limits: Limits, visitors: Visitors, address: string, now: Time)
    requires LimitsOk(limits) && RefillsWhenIdle(limits) && Bounded(limits, visitors, now)
    ensures Level(limits, Swept(visitors, now), address, now) == Level(limits, visitors, address, now)
  {
    if address in visitors && now - visitors[address].lastSeen > TEN_MINUTES {
      RefillGrows(limits, TEN_MINUTES + 1, now - visitors[address].updated);
    }
  }

  /** The arithmetic of the bucket in plain numbers: rate tokens a second, and ten minutes for the idle rule. */
  lemma RefillExactly(limits: Limits, d: Duration)
    ensures Refill(limits, d) == (d as real / 1_000_000_000.0) * limits.rate
    ensures RefillsWhenIdle(limits) <==> 600.000000001 * limits.rate >= limits.burst
  {
    assert (TEN_MINUTES + 1) as real / 1_000_000_000.0 == 600.000000001;
  }

  /** The idle rule is harmless exactly under that condition: otherwise an empty bucket just past the idle limit
      is handed back full too early. */
  lemma EvictionHarmlessExactly(limits: Limits)
    requires LimitsOk(limits)
    ensures 600.000000001 * limits.rate >= limits.burst
            <==> forall visitors: Visitors, address: string, now: Time :: Bounded(limits, visitors, now) ==>
                   Level(limits, Swept(visitors, now), address, now) == Level(limits, visitors, address, now)
  {
    RefillExactly(limits, 0);
    if RefillsWhenIdle(limits) {
      forall visitors: Visitors, address: string, now: Time | Bounded(limits, visitors, now)
        ensures Level(limits, Swept(visitors, now), address, now) == Level(limits, visitors, address, now)
      {
        SweepKeepsLevels(limits, visitors, address, now);
      }
    } else {
      var empty := map["a" := Visitor(0.0, 0, 0)];
      assert Bounded(limits, empty, TEN_MINUTES + 1);
      assert "a" !in Swept(empty, TEN_MINUTES + 1);
      assert Level(limits, Swept(empty, TEN_MINUTES + 1), "a", TEN_MINUTES + 1) != Level(limits, empty, "a", TEN_MINUTES + 1);
    }
  }

  lemma IdealMovesLevels(limits: Limits, visitors: Visitors, address: string, now: Time)
    requires LimitsOk(limits) && Bounded(limits, visitors, now)
    ensures var (t, allowed) := IdealAllow(limits, visitors, address, now);
            && Bounded(limits, t, now) && (allowed <==> Level(limits, visitors, address, now) >= 1.0)
            && forall a :: Level(limits, t, a, now) == Level(limits, visitors, a, now) - (if a == address && allowed then 1.0 else 0.0)
  {
    assert Refill(limits, 0) == 0.0;
    if address in visitors {
      RefillGrows(limits, 0, now - visitors[address].updated);
    }
  }

  /** What one request does to the levels: it takes a token from its own address exactly when it is allowed. */
  lemma AllowMovesLevels(limits: Limits, s: State, address: string, now: Time)
    requires LimitsOk(limits) && RefillsWhenIdle(limits) && Bounded(limits, s.visitors, now)
    ensures var (t, allowed) := Allow(limits, s, address, now);
            && Bounded(limits, t.visitors, now)
            && (allowed <==> !Full(s, address, now) && Level(limits, s.visitors, address, now) >= 1.0)
            && forall a :: Level(limits, t.visitors, a, now)
                           == Level(limits, s.visitors, a, now) - (if a == address && allowed then 1.0 else 0.0)
  {
    var (t, allowed) := Allow(limits, s, address, now);
    var kept := Kept(s.visitors, (s.requests + 1) % COUNTER_MODULUS, now);
    forall a ensures Level(limits, kept, a, now) == Level(limits, s.visitors, a, now) {
      SweepKeepsLevels(limits, s.visitors, a, now);
    }
    IdealMovesLevels(limits, kept, address, now);
  }

  lemma FewerKeysFewer(a: Visitors, b: Visitors)
    requires a.Keys <= b.Keys
    ensures |a| <= |b|
  {
    assert b.Keys == a.Keys + (b.Keys - a.Keys) && |a| == |a.Keys| && |b| == |b.Keys|;
  }

  /** One request keeps the cap. */
  lemma SizeStaysCapped(limits: Limits, s: State, address: string, now: Time)
    requires |s.visitors| <= MAX_VISITORS
    ensures |Allow(limits, s, address, now).0.visitors| <= MAX_VISITORS
  {
    var kept := Kept(s.visitors, (s.requests + 1) % COUNTER_MODULUS, now);
    FewerKeysFewer(kept, s.visitors);
    var v := if address in kept then kept[address] else Visitor(limits.burst, now, now);
    OneMoreVisitor(kept, address, Charged(limits, v, now).0);
  }

  lemma OneMoreVisitor(visitors: Visitors, address: string, v: Visitor)
    ensures |visitors[address := v]| <= |visitors| + (if address in visitors then 0 else 1)
  {
    var more := visitors[address := v];
    assert more.Keys == visitors.Keys + {address} && |more| == |more.Keys| && |visitors| == |visitors.Keys|;
  }

  /** Between requests a level rises by at most the refill. */
  lemma LevelRises(limits: Limits, visitors: Visitors, address: string, earlier: Time, now: Time)
    requires LimitsOk(limits) && Bounded(limits, visitors, earlier) && earlier <= now
    ensures 0.0 <= Level(limits, visitors, address, earlier) <= Level(limits, visitors, address, now) <= limits.burst
    ensures Level(limits, visitors, address, now) <= Level(limits, visitors, address, earlier) + Refill(limits, now - earlier)
  {
    RefillGrows(limits, 0, now - earlier);
    if address in visitors {
      var v := visitors[address];
      RefillGrows(limits, 0, earlier - v.updated);
      RefillGrows(limits, earlier - v.updated, now - v.updated);
      RefillAdds(limits, earlier - v.updated, now - earlier);
    }
  }

  // ---- Runs ----

  datatype Call = Call(address: string, now: Time)

  ghost predicate InOrder(calls: seq<Call>, start: Time) {
    && (forall i | 0 <= i < |calls| :: start <= calls[i].now)
    && (forall i, j | 0 <= i < j < |calls| :: calls[i].now <= calls[j].now)
  }

  function StateAfter(limits: Limits, s: State, calls: seq<Call>): State {
    if calls == [] then s
    else
      var last := calls[|calls| - 1];
      Allow(limits, StateAfter(limits, s, calls[..|calls| - 1]), last.address, last.now).0
  }

  /** Over any run the map never holds more than 10000 visitors. */
  lemma {:induction false} RunStaysCapped(limits: Limits, s: State, calls: seq<Call>)
    requires |s.visitors| <= MAX_VISITORS
    ensures |StateAfter(limits, s, calls).visitors| <= MAX_VISITORS
  {
    if calls != [] {
      var front, last := calls[..|calls| - 1], calls[|calls| - 1];
      RunStaysCapped(limits, s, front);
      SizeStaysCapped(limits, StateAfter(limits, s, front), last.address, last.now);
    }
  }

  /** How many requests of an address a run of calls allows. */
  function AllowedCount(limits: Limits, s: State, calls: seq<Call>, address: string): nat {
    if calls == [] then 0
    else
      var front, last := calls[..|calls| - 1], calls[|calls| - 1];
      AllowedCount(limits, s, front, address)
      + (if last.address == address && Allow(limits, StateAfter(limits, s, front), last.address, last.now).1 then 1 else 0)
  }

  /** The moment a run has reached. */
  function EndOf(calls: seq<Call>, start: Time): Time {
    if calls == [] then start else calls[|calls| - 1].now
  }

  lemma FrontInOrder(calls: seq<Call>, start: Time)
    requires InOrder(calls, start) && calls != []
    ensures var front, last := calls[..|calls| - 1], calls[|calls| - 1];
            InOrder(front, start) && EndOf(front, start) <= last.now && EndOf(calls, start) == last.now
  {
  }

  /** What a run may have spent and left: no more than was there at its start and refilled since. */
  ghost predicate Conserved(limits: Limits, first: real, spent: real, visitors: Visitors, address: string, start: Time, now: Time) {
    && start <= now && Bounded(limits, visitors, now)
    && spent + Level(limits, visitors, address, now) <= first + Refill(limits, now - start)
  }

  /** Tokens spent and left never exceed tokens there at the start and refilled since. */
  lemma {:induction false} TokensConserved(limits: Limits, s: State, calls: seq<Call>, address: string, start: Time)
    requires LimitsOk(limits) && RefillsWhenIdle(limits) && Bounded(limits, s.visitors, start) && InOrder(calls, start)
    ensures Conserved(limits, Level(limits, s.visitors, address, start), AllowedCount(limits, s, calls, address) as real,
                      StateAfter(limits, s, calls).visitors, address, start, EndOf(calls, start))
  {
    var first := Level(limits, s.visitors, address, start);
    if calls == [] {
      assert Refill(limits, 0) == 0.0;
    } else {
      var front, last := calls[..|calls| - 1], calls[|calls| - 1];
      FrontInOrder(calls, start);
      TokensConserved(limits, s, front, address, start);
      var spent, t := AllowedCount(limits, s, front, address) as real, StateAfter(limits, s, front);
      OneMoreCall(limits, first, spent, t, last, address, start, EndOf(front, start));
      CountOneMore(limits, s, calls, address);
      assert Conserved(limits, first, AllowedCount(limits, s, calls, address) as real,
                       Allow(limits, t, last.address, last.now).0.visitors, address, start, last.now);
    }
  }

  /** The conservation law over one more call. */
  lemma OneMoreCall(limits: Limits, first: real, spent: real, t: State, call: Call, address: string, start: Time, middle: Time)
    requires LimitsOk(limits) && RefillsWhenIdle(limits) && middle <= call.now
    requires Conserved(limits, first, spent, t.visitors, address, start, middle)
    ensures var (u, allowed) := Allow(limits, t, call.address, call.now);
            Conserved(limits, first, spent + (if call.address == address && allowed then 1.0 else 0.0), u.visitors, address, start, call.now)
  {
    CallConserves(limits, t, call, address, middle);
    RefillAdds(limits, middle - start, call.now - middle);
    assert call.now - start == (middle - start) + (call.now - middle);
    var (u, allowed) := Allow(limits, t, call.address, call.now);
    SumUp(spent, Level(limits, t.visitors, address, middle), first, Refill(limits, middle - start),
          if call.address == address && allowed then 1.0 else 0.0, Level(limits, u.visitors, address, call.now),
          Refill(limits, call.now - middle));
  }

  /** The bookkeeping of one more call, in bare numbers. */
  lemma SumUp(count: real, level: real, start: real, refill: real, charge: real, later: real, more: real)
    requires count + level <= start + refill && charge + later <= level + more
    ensures count + charge + later <= start + (refill + more)
  {
  }

  lemma CountOneMore(limits: Limits, s: State, calls: seq<Call>, address: string)
    requires calls != []
    ensures var front, last := calls[..|calls| - 1], calls[|calls| - 1];
            var (t, allowed) := Allow(limits, StateAfter(limits, s, front), last.address, last.now);
            && StateAfter(limits, s, calls) == t
            && AllowedCount(limits, s, calls, address) as real
               == AllowedCount(limits, s, front, address) as real + (if last.address == address && allowed then 1.0 else 0.0)
  {
  }

  lemma CallConserves(limits: Limits, s: State, call: Call, address: string, before: Time)
    requires LimitsOk(limits) && RefillsWhenIdle(limits) && Bounded(limits, s.visitors, before) && before <= call.now
    ensures var (t, allowed) := Allow(limits, s, call.address, call.now);
            && Bounded(limits, t.visitors, call.now)
            && (if call.address == address && allowed then 1.0 else 0.0) + Level(limits, t.visitors, address, call.now)
               <= Level(limits, s.visitors, address, before) + Refill(limits, call.now - before)
  {
    LevelRises(limits, s.visitors, address, before, call.now);
    BoundedLater(limits, s.visitors, before, call.now);
    AllowMovesLevels(limits, s, call.address, call.now);
  }

  lemma AllowedWithinRefill(limits: Limits, s: State, calls: seq<Call>, address: string, start: Time)
    requires LimitsOk(limits) && RefillsWhenIdle(limits) && Bounded(limits, s.visitors, start) && InOrder(calls, start)
    ensures AllowedCount(limits, s, calls, address) as real <= limits.burst + Refill(limits, EndOf(calls, start) - start)
  {
    TokensConserved(limits, s, calls, address, start);
    LevelRises(limits, s.visitors, address, start, start);
    var end := EndOf(calls, start);
    LevelRises(limits, StateAfter(limits, s, calls).visitors, address, end, end);
  }

  /** From any state, the requests allowed to an address over an interval are at most burst plus rate times its seconds,
      whatever the other addresses do and whatever is evicted. */
  lemma AllowedAtMostBurstPlusRate(limits: Limits, s: State, calls: seq<Call>, address: string, start: Time, interval: Duration)
    requires LimitsOk(limits) && RefillsWhenIdle(limits) && Bounded(limits, s.visitors, start) && InOrder(calls, start)
    requires interval == EndOf(calls, start) - start
    ensures AllowedCount(limits, s, calls, address) as real <= limits.burst + (interval as real / 1_000_000_000.0) * limits.rate
  {
    AllowedWithinRefill(limits, s, calls, address, start);
    InNumbers(limits, AllowedCount(limits, s, calls, address), interval);
  }

  lemma InNumbers(limits: Limits, count: nat, d: Duration)
    requires count as real <= limits.burst + Refill(limits, d)
    ensures count as real <= limits.burst + (d as real / 1_000_000_000.0) * limits.rate
  {
    RefillExactly(limits, d);
  }

  // ---- The limiter that never evicts ----

  ghost predicate SameLevels(limits: Limits, a: Visitors, b: Visitors, now: Time) {
    forall address :: Level(limits, a, address, now) == Level(limits, b, address, now)
  }

  /** The visitors of the reference limiter, which sees every call that the cap does not refuse. */
  function IdealAfter(limits: Limits, calls: seq<Call>): Visitors {
    if calls == [] then map[]
    else
      var front, last := calls[..|calls| - 1], calls[|calls| - 1];
      if Full(StateAfter(limits, State(map[], 0), front), last.address, last.now) then IdealAfter(limits, front)
      else IdealAllow(limits, IdealAfter(limits, front), last.address, last.now).0
  }

  lemma LevelsStaySame(limits: Limits, a: Visitors, b: Visitors, earlier: Time, now: Time)
    requires LimitsOk(limits) && SameLevels(limits, a, b, earlier) && earlier <= now
    requires Bounded(limits, a, earlier) && Bounded(limits, b, earlier)
    ensures SameLevels(limits, a, b, now)
  {
    forall address ensures Level(limits, a, address, now) == Level(limits, b, address, now) {
      LevelLater(limits, a, address, earlier, now);
      LevelLater(limits, b, address, earlier, now);
      assert Level(limits, a, address, earlier) == Level(limits, b, address, earlier);
    }
  }

  /** A later level is determined by an earlier one. */
  lemma LevelLater(limits: Limits, visitors: Visitors, address: string, earlier: Time, now: Time)
    requires LimitsOk(limits) && earlier <= now
    ensures Level(limits, visitors, address, now) == Min(limits.burst, Level(limits, visitors, address, earlier) + Refill(limits, now - earlier))
  {
    RefillGrows(limits, 0, now - earlier);
    if address in visitors {
      RefillAdds(limits, earlier - visitors[address].updated, now - earlier);
    }
  }

  lemma BoundedLater(limits: Limits, visitors: Visitors, earlier: Time, now: Time)
    requires Bounded(limits, visitors, earlier) && earlier <= now
    ensures Bounded(limits, visitors, now)
  {
  }

  lemma {:induction false} LockStep(limits: Limits, calls: seq<Call>, start: Time)
    requires LimitsOk(limits) && RefillsWhenIdle(limits) && InOrder(calls, start)
    ensures var s, ideal, end := StateAfter(limits, State(map[], 0), calls), IdealAfter(limits, calls), EndOf(calls, start);
            Bounded(limits, s.visitors, end) && Bounded(limits, ideal, end) && SameLevels(limits, s.visitors, ideal, end)
  {
    if calls != [] {
      var front, last := calls[..|calls| - 1], calls[|calls| - 1];
      LockStep(limits, front, start);
      var s, ideal, middle := StateAfter(limits, State(map[], 0), front), IdealAfter(limits, front), EndOf(front, start);
      assert middle <= last.now;
      LevelsStaySame(limits, s.visitors, ideal, middle, last.now);
      BoundedLater(limits, s.visitors, middle, last.now);
      BoundedLater(limits, ideal, middle, last.now);
      AllowMovesLevels(limits, s, last.address, last.now);
      IdealMovesLevels(limits, ideal, last.address, last.now);
      assert Level(limits, s.visitors, last.address, last.now) == Level(limits, ideal, last.address, last.now);
    }
  }

  /** Eviction is invisible: over any run from the start, each call that finds room is decided as by a limiter that
      never forgets a visitor. */
  lemma EvictionInvisible(limits: Limits, calls: seq<Call>, start: Time)
    requires LimitsOk(limits) && RefillsWhenIdle(limits) && InOrder(calls, start) && calls != []
    ensures var front, last := calls[..|calls| - 1], calls[|calls| - 1];
            var s := StateAfter(limits, State(map[], 0), front);
            Allow(limits, s, last.address, last.now).1
            == (!Full(s, last.address, last.now) && IdealAllow(limits, IdealAfter(limits, front), last.address, last.now).1)
  {
    var front, last := calls[..|calls| - 1], calls[|calls| - 1];
    LockStep(limits, front, start);
    var s, ideal, middle := StateAfter(limits, State(map[], 0), front), IdealAfter(limits, front), EndOf(front, start);
    assert middle <= last.now;
    LevelsStaySame(limits, s.visitors, ideal, middle, last.now);
    BoundedLater(limits, s.visitors, middle, last.now);
    BoundedLater(limits, ideal, middle, last.now);
    AllowMovesLevels(limits, s, last.address, last.now);
    IdealMovesLevels(limits, ideal, last.address, last.now);
    assert Level(limits, s.visitors, last.address, last.now) == Level(limits, ideal, last.address, last.now);
  }

  // ---- Room again, and waiting long enough ----

  /** A call finds no room exactly when 10000 others are there, once every 1024th call has put out those idle for more
      than ten minutes. */
  lemma FullExactly(s: State, address: string, now: Time)
    ensures var there := set a | a in s.visitors && ((s.requests + 1) % 0x1_0000_0000_0000_0000 % 1024 == 0 ==> now - s.visitors[a].lastSeen <= 600_000_000_000);
            Full(s, address, now) <==> address !in there && |there| >= 10000
  {
    var kept := Kept(s.visitors, (s.requests + 1) % COUNTER_MODULUS, now);
    var there := set a | a in s.visitors && ((s.requests + 1) % 0x1_0000_0000_0000_0000 % 1024 == 0 ==> now - s.visitors[a].lastSeen <= 600_000_000_000);
    assert kept.Keys == there && |kept| == |kept.Keys|;
  }

  /** An address without a bucket is allowed if there is room; one with a bucket once a token has refilled. */
  lemma WaitingIsEnough(limits: Limits, s: State, address: string, now: Time)
    requires LimitsOk(limits) && Bounded(limits, s.visitors, now) && !Full(s, address, now)
    requires address in s.visitors ==> ((now - s.visitors[address].updated) as real / 1_000_000_000.0) * limits.rate >= 1.0
    ensures Allow(limits, s, address, now).1
  {
    if address in s.visitors {
      RefillExactly(limits, now - s.visitors[address].updated);
    }
  }

  /** A call leaves a visitor's record as its own last call made it. */
  lemma OthersUntouched(limits: Limits, s: State, call: Call, address: string)
    requires call.address != address
    ensures var t := Allow(limits, s, call.address, call.now).0;
            && (address in t.visitors ==> address in s.visitors && t.visitors[address] == s.visitors[address])
            && t.requests == (s.requests + 1) % 0x1_0000_0000_0000_0000
            && (t.requests % 1024 == 0 && address in t.visitors ==> call.now - s.visitors[address].lastSeen <= 600_000_000_000)
  {
  }

  ghost predicate Silent(calls: seq<Call>, address: string) {
    forall i | 0 <= i < |calls| :: calls[i].address != address
  }

  /** The counter counts calls; and a silent visitor that is still there was there before, unswept. */
  lemma {:induction false} SilentRun(limits: Limits, s: State, calls: seq<Call>, address: string)
    requires Silent(calls, address) && s.requests < 0x1_0000_0000_0000_0000
    ensures var t := StateAfter(limits, s, calls);
            && t.requests == (s.requests + |calls|) % 0x1_0000_0000_0000_0000
            && (address in t.visitors ==>
                  && address in s.visitors && t.visitors[address] == s.visitors[address]
                  && forall k | 0 <= k < |calls| && (s.requests + k + 1) % 0x1_0000_0000_0000_0000 % 1024 == 0 ::
                       calls[k].now - s.visitors[address].lastSeen <= 600_000_000_000)
  {
    if calls != [] {
      var front, last := calls[..|calls| - 1], calls[|calls| - 1];
      SilentRun(limits, s, front, address);
      OthersUntouched(limits, StateAfter(limits, s, front), last, address);
      CountOn(s.requests, |front|);
    }
  }

  lemma CountOn(requests: nat, n: nat)
    ensures ((requests + n) % 0x1_0000_0000_0000_0000 + 1) % 0x1_0000_0000_0000_0000 == (requests + n + 1) % 0x1_0000_0000_0000_0000
  {
  }

  /** Among any 1024 calls one sweeps. */
  lemma SweepComes(requests: nat) returns (k: nat)
    ensures k < 1024 && (requests + k + 1) % 0x1_0000_0000_0000_0000 % 1024 == 0
  {
    k := 1023 - requests % 1024;
    var q := requests / 1024;
    assert requests + k + 1 == 1024 * (q + 1);
    MultipleStays(q + 1);
  }

  lemma MultipleStays(q: nat)
    ensures 1024 * q % 0x1_0000_0000_0000_0000 % 1024 == 0
  {
    var n := 1024 * q;
    var w := n / 0x1_0000_0000_0000_0000;
    assert n % 0x1_0000_0000_0000_0000 == 1024 * (q - 0x40_0000_0000_0000 * w);
  }

  lemma SweptAt(limits: Limits, s: State, calls: seq<Call>, address: string, k: nat)
    requires Silent(calls, address) && s.requests < 0x1_0000_0000_0000_0000 && k < |calls|
    requires (s.requests + k + 1) % 0x1_0000_0000_0000_0000 % 1024 == 0
    ensures address in StateAfter(limits, s, calls).visitors ==>
              address in s.visitors && calls[k].now - s.visitors[address].lastSeen <= 600_000_000_000
  {
    SilentRun(limits, s, calls, address);
  }

  /** So within any 1024 calls every silent visitor that has been idle for more than ten minutes is gone, and a full map
      finds room again. */
  lemma IdleVisitorIsEvicted(limits: Limits, s: State, calls: seq<Call>, address: string)
    requires |calls| >= 1024 && Silent(calls, address) && s.requests < 0x1_0000_0000_0000_0000
    requires address in s.visitors ==> forall i | 0 <= i < |calls| :: calls[i].now - s.visitors[address].lastSeen > 600_000_000_000
    ensures address !in StateAfter(limits, s, calls).visitors
  {
    var k := SweepComes(s.requests);
    SweptAt(limits, s, calls, address, k);
  }
}
