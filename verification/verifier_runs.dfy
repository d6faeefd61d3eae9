/** Runs of one verifier on its own: what its revocation answers rest on. */
module VerifierRuns {
  import opened Wrappers
  import opened Attenuation
  import opened Domain
  import opened Middleware

  datatype Call = Call(lease: Id, now: Time, fetch: Fetch, received: Time)

  /** A snapshot the verifier received, or had confirmed by a 304, at a moment. */
  datatype Received = Received(at: Time, revoked: set<Id>)

  function CacheAfter(config: Config, calls: seq<Call>): Cache {
    if calls == [] then EMPTY_CACHE
    else
      var c := calls[|calls| - 1];
      IsRevoked(config, CacheAfter(config, calls[..|calls| - 1]), c.lease, c.now, c.fetch, c.received).0
  }

  function AnswerAt(config: Config, calls: seq<Call>, i: nat): Option<bool>
    requires i < |calls|
  {
    IsRevoked(config, CacheAfter(config, calls[..i]), calls[i].lease, calls[i].now, calls[i].fetch, calls[i].received).1
  }

  /** What a call adds to the log of snapshots: only a response that is asked for and accepted counts. */
  ghost function ReceivedBy(config: Config, cache: Cache, c: Call): seq<Received> {
    if config.mode == ExpiryOnly || c.now < cache.expires then []
    else match c.fetch
      case Snapshot(ids, generatedAt, _) =>
        if generatedAt == 0 || generatedAt > c.received + config.clockSkew || "" in ids then [] else [Received(c.received, ids)]
      case NotModified => if cache.fetched == 0 then [] else [Received(c.received, cache.revoked)]
      case Failed => []
  }

  ghost function Log(config: Config, calls: seq<Call>): seq<Received> {
    if calls == [] then []
    else
      var front := calls[..|calls| - 1];
      Log(config, front) + ReceivedBy(config, CacheAfter(config, front), calls[|calls| - 1])
  }

  ghost predicate InOrder(calls: seq<Call>) {
    && (forall i | 0 <= i < |calls| :: 0 < calls[i].now <= calls[i].received)
    && (forall i, j | 0 <= i < j < |calls| :: calls[i].received <= calls[j].now)
  }

  /** The cache is the last logged snapshot, or nothing has been logged yet and nothing can be answered. */
  ghost predicate Mirrors(config: Config, cache: Cache, log: seq<Received>) {
    if cache.fetched == 0 then log == [] && cache == EMPTY_CACHE
    else log != [] && log[|log| - 1] == Received(cache.fetched, cache.revoked) && cache.expires == cache.fetched + config.cacheTtl
  }

  lemma CallMirrors(config: Config, cache: Cache, log: seq<Received>, c: Call)
    requires Mirrors(config, cache, log) && 0 < c.now <= c.received
    ensures Mirrors(config, IsRevoked(config, cache, c.lease, c.now, c.fetch, c.received).0, log + ReceivedBy(config, cache, c))
  {
  }

  lemma {:induction false} CacheMirrorsLog(config: Config, calls: seq<Call>)
    requires InOrder(calls)
    ensures Mirrors(config, CacheAfter(config, calls), Log(config, calls))
  {
    if calls != [] {
      var front := calls[..|calls| - 1];
      CacheMirrorsLog(config, front);
      CallMirrors(config, CacheAfter(config, front), Log(config, front), calls[|calls| - 1]);
    }
  }

  lemma AnswerFromMirror(config: Config, cache: Cache, log: seq<Received>, c: Call)
    requires ConfigOk(config) && config.mode == BoundedStale && Mirrors(config, cache, log) && 0 < c.now <= c.received
    requires IsRevoked(config, cache, c.lease, c.now, c.fetch, c.received).1.Some?
    ensures FreshEnough(config, log + ReceivedBy(config, cache, c), c, IsRevoked(config, cache, c.lease, c.now, c.fetch, c.received).1.value)
  {
  }

  /** The answer is membership in the last snapshot of the log, received at most maxStaleness before the answer. */
  ghost predicate FreshEnough(config: Config, log: seq<Received>, c: Call, answer: bool) {
    && log != []
    && var last := log[|log| - 1];
       && answer == (c.lease in last.revoked)
       && (c.now - last.at <= config.maxStaleness) && (c.now >= last.at + config.cacheTtl ==> c.received - last.at <= config.maxStaleness)
  }

  /** In bounded-stale mode every answer is membership in the last snapshot received, at most maxStaleness before
      the moment of the answer; before a first snapshot there is no answer. */
  lemma AnswersAreFreshEnough(config: Config, calls: seq<Call>, i: nat)
    requires ConfigOk(config) && config.mode == BoundedStale && InOrder(calls) && i < |calls|
    requires AnswerAt(config, calls, i).Some?
    ensures FreshEnough(config, Log(config, calls[..i + 1]), calls[i], AnswerAt(config, calls, i).value)
  {
    var front := calls[..i];
    CacheMirrorsLog(config, front);
    AnswerFromMirror(config, CacheAfter(config, front), Log(config, front), calls[i]);
    LogGrows(config, calls, i);
  }

  lemma LogGrows(config: Config, calls: seq<Call>, i: nat)
    requires i < |calls|
    ensures Log(config, calls[..i + 1]) == Log(config, calls[..i]) + ReceivedBy(config, CacheAfter(config, calls[..i]), calls[i])
  {
    assert calls[..i + 1][..i] == calls[..i];
  }

  /** A refresh that fails, or brings a refused body, leaves the cached set as it was. */
  lemma FailedRefreshKeepsCache(config: Config, cache: Cache, c: Call)
    requires cache.fetched != 0
    ensures var (after, answer) := IsRevoked(config, cache, c.lease, c.now, c.fetch, c.received);
            ReceivedBy(config, cache, c) == [] ==> after == cache
  {
  }
}

/** The verifier against the control plane: how long a revoked lease can still be admitted. */
module EndToEnd {
  import opened Wrappers
  import opened Text
  import Resource
  import opened Constraints
  import opened Attenuation
  import opened AttenuationMeaning
  import opened Domain
  import opened LeaseToken
  import opened Lineage
  import opened Transactions
  import opened Evolution
  import opened Middleware
  import opened ProofOfPossession
  import opened Authority
  import opened Revocation
  import Usecase
  import ControlPlane

  /** An exchange under way: when the list was read, and the response built from it. */
  datatype Exchange = Exchange(servedAt: Time, fetch: Fetch, listed: set<Id>)

  /**
   since records when each revocation was committed; asOf is the server time of the snapshot the cache holds.
   At most one refresh is under way, as the refresh mutex ensures.
   */
  datatype World = World(store: Store, clock: Time, since: map<Id, Time>, cache: Cache, asOf: Time, exchange: Option<Exchange>)

  datatype Event =
    | Pass(to: Time)
    | Change(after: Store)
    | ServeList(generatedAt: Time)
    | Ask(lease: Id)
    | AskAndReceive(lease: Id)

  ghost function NewlyRevoked(s: Store, t: Store): set<Id> {
    set id | id in t.leases && t.leases[id].revokedAt.Some? && !(id in s.leases && s.leases[id].revokedAt.Some?)
  }

  /** One event. A response that took longer than the latency bound counts as a failure. */
  ghost function Happen(config: Config, latency: Duration, w: World, e: Event): World {
    match e
    case Pass(to) => if to >= w.clock then w.(clock := to) else w
    case Change(after) =>
      if Evolves(w.store, after) then
        w.(store := after, since := w.since + map id | id in NewlyRevoked(w.store, after) :: w.clock)
      else w
    case ServeList(generatedAt) =>
      var ids := ListActiveRevocations(w.store, WholeSecond(w.clock));
      w.(exchange := Some(Exchange(w.clock, Serve(ids, w.cache.etag, generatedAt), ids)))
    case Ask(lease) => w.(cache := IsRevoked(config, w.cache, lease, w.clock, Failed, w.clock).0)
    case AskAndReceive(lease) =>
      if w.exchange.None? then w
      else
        var inTime := w.clock <= w.exchange.value.servedAt + latency;
        var next := IsRevoked(config, w.cache, lease, w.clock, if inTime then w.exchange.value.fetch else Failed, w.clock).0;
        w.(cache := next, exchange := None, asOf := if next != w.cache then w.exchange.value.servedAt else w.asOf)
  }

  /** What the verifier answers at an Ask or AskAndReceive event. */
  ghost function Answer(config: Config, latency: Duration, w: World, e: Event): Option<bool> {
    match e
    case Ask(lease) => IsRevoked(config, w.cache, lease, w.clock, Failed, w.clock).1
    case AskAndReceive(lease) =>
      if w.exchange.None? then None
      else
        var inTime := w.clock <= w.exchange.value.servedAt + latency;
        IsRevoked(config, w.cache, lease, w.clock, if inTime then w.exchange.value.fetch else Failed, w.clock).1
    case _ => None
  }

  /** A list served at a moment holds every lease revoked before it and not yet expired at it, and only revoked
      leases not yet expired at it. */
  ghost predicate Lists(w: World, listed: set<Id>, servedAt: Time) {
    && (forall id | id in w.since && w.since[id] < servedAt && id in w.store.leases && w.store.leases[id].expiration > WholeSecond(servedAt) ::
          id in listed)
    && (forall id | id in listed :: id in w.store.leases && w.store.leases[id].expiration > WholeSecond(servedAt))
  }

  ghost predicate Sound(config: Config, latency: Duration, w: World) {
    && 0 < w.clock
    && (forall id | id in w.since :: id in w.store.leases && w.store.leases[id].revokedAt.Some? && w.since[id] <= w.clock)
    && (forall id | id in w.store.leases && w.store.leases[id].revokedAt.Some? :: id in w.since)
    && (w.cache.fetched == 0 ==> w.cache == EMPTY_CACHE)
    && (w.cache.fetched != 0 ==>
          && w.asOf <= w.cache.fetched <= w.asOf + latency && w.cache.fetched <= w.clock
          && w.cache.expires == w.cache.fetched + config.cacheTtl
          && w.cache.etag == Some(ETag(w.cache.revoked)) && Lists(w, w.cache.revoked, w.asOf))
    && (w.exchange.Some? ==>
          var x := w.exchange.value;
          && x.servedAt <= w.clock && Lists(w, x.listed, x.servedAt)
          && match x.fetch
             case Failed => true
             case NotModified => w.cache.etag == Some(ETag(x.listed))
             case Snapshot(ids, _, etag) => ids == x.listed && etag == Some(ETag(x.listed)))
  }

  lemma ChangeKeepsLists(w: World, after: Store, listed: set<Id>, servedAt: Time)
    requires Evolves(w.store, after) && Lists(w, listed, servedAt) && servedAt <= w.clock
    requires forall id | id in w.since :: id in w.store.leases && w.store.leases[id].revokedAt.Some?
    ensures Lists(w.(store := after, since := w.since + map id | id in NewlyRevoked(w.store, after) :: w.clock), listed, servedAt)
  {
    forall id | id in w.store.leases ensures id in after.leases && after.leases[id].expiration == w.store.leases[id].expiration {
      assert SameIssue(w.store.leases[id], after.leases[id]);
    }
  }

  lemma ServedListIsExact(config: Config, latency: Duration, w: World)
    requires Sound(config, latency, w)
    ensures Lists(w, ListActiveRevocations(w.store, WholeSecond(w.clock)), w.clock)
  {
  }

  /** Every event keeps the cache a faithful image of the list as of asOf, on the 200 and the 304 path alike. */
  lemma HappenKeepsSound(config: Config, latency: Duration, w: World, e: Event)
    requires Middleware.ConfigOk(config) && config.mode == Strict && latency >= 0 && Sound(config, latency, w)
    ensures Sound(config, latency, Happen(config, latency, w, e))
  {
    match e {
      case Change(after) =>
        if Evolves(w.store, after) {
          ChangeKeepsSound(config, latency, w, after);
        }
      case ServeList(_) => ServedListIsExact(config, latency, w);
      case _ =>
    }
  }

  lemma ChangeKeepsSound(config: Config, latency: Duration, w: World, after: Store)
    requires Sound(config, latency, w) && Evolves(w.store, after)
    ensures Sound(config, latency, Happen(config, latency, w, Change(after)))
  {
    if w.cache.fetched != 0 {
      ChangeKeepsLists(w, after, w.cache.revoked, w.asOf);
    }
    if w.exchange.Some? {
      ChangeKeepsLists(w, after, w.exchange.value.listed, w.exchange.value.servedAt);
    }
    forall id | id in w.store.leases ensures id in after.leases && SameIssue(w.store.leases[id], after.leases[id]) {
    }
  }

  ghost predicate Start(w: World) {
    && 0 < w.clock && w.cache == EMPTY_CACHE && w.exchange.None? && w.since == map[]
    && forall id | id in w.store.leases :: w.store.leases[id].revokedAt.None?
  }

  /** The world after a sequence of events. */
  ghost predicate Run(config: Config, latency: Duration, worlds: seq<World>, events: seq<Event>) {
    && |worlds| == |events| + 1 && Start(worlds[0])
    && forall i | 0 <= i < |events| :: worlds[i + 1] == Happen(config, latency, worlds[i], events[i])
  }

  lemma {:induction false} RunSound(config: Config, latency: Duration, worlds: seq<World>, events: seq<Event>, i: nat)
    requires Middleware.ConfigOk(config) && config.mode == Strict && latency >= 0
    requires Run(config, latency, worlds, events) && i <= |events|
    ensures Sound(config, latency, worlds[i])
  {
    if i > 0 {
      RunSound(config, latency, worlds, events, i - 1);
      HappenKeepsSound(config, latency, worlds[i - 1], events[i - 1]);
      assert worlds[i - 1 + 1] == Happen(config, latency, worlds[i - 1], events[i - 1]);
    }
  }

  /** With a strict verifier, an answer that a lease is not revoked, given cacheTtl + latency after its revocation
      was committed, is given only once the lease has expired. */
  lemma LateAnswersKnowRevocation(config: Config, latency: Duration, worlds: seq<World>, events: seq<Event>, i: nat, lease: Id)
    requires Middleware.ConfigOk(config) && config.mode == Strict && latency >= 0
    requires Run(config, latency, worlds, events) && i < |events|
    requires events[i] == Ask(lease) || events[i] == AskAndReceive(lease)
    requires lease in worlds[i].since && worlds[i].since[lease] + config.cacheTtl + latency <= worlds[i].clock
    requires lease in worlds[i].store.leases && worlds[i].clock < worlds[i].store.leases[lease].expiration
    ensures Answer(config, latency, worlds[i], events[i]) != Some(false)
  {
    RunSound(config, latency, worlds, events, i);
  }

  lemma StoredLeaseDates(issuing: Usecase.Config, s: Store, lease: Id)
    requires AllAuthorized(issuing, s) && lease in s.leases
    ensures var claims := Usecase.ClaimsFor(issuing, s.leases[lease]);
            claims.ups.leaseId == lease && claims.expiresAt == Some(s.leases[lease].expiration)
  {
    assert Authorized(issuing, s, s.leases[lease]);
  }

  /**
   How a request meets the world, which is as it is when the request is decided: it read the clock for its token at
   r.now and consulted the cache at r.asked, after any wait for another request's refresh. Either no response was
   used, and then the cache is consulted in the present or was found expired; or the request refreshed the cache
   itself, within the latency bound. A limited-use request then goes on to the consumption service, which has its own
   check of the revocation; it counts as decided here, at its last look at the cache, though Authorize returns later.
   */
  ghost predicate Meets(w: World, latency: Duration, r: Request) {
    && r.now <= r.asked <= r.received == w.clock
    && if r.fetch == Failed then r.asked == w.clock || w.cache.expires <= r.asked
       else
         && w.exchange.Some? && r.fetch == w.exchange.value.fetch && w.cache.expires <= r.asked
         && w.clock <= w.exchange.value.servedAt + latency
  }

  /** The server time of the list that answers the request. */
  ghost function ListTime(w: World, r: Request): Time {
    if r.fetch == Failed || w.exchange.None? then w.asOf else w.exchange.value.servedAt
  }

  /** The request gets an answer at all: from a fresh cache, or from a response the verifier accepts. */
  ghost predicate Answered(config: Config, w: World, r: Request) {
    match r.fetch
    case Failed => w.clock < w.cache.expires
    case NotModified => true
    case Snapshot(_, generatedAt, _) => generatedAt != 0 && generatedAt <= r.received + config.clockSkew
  }

  /** So long after its revocation, a lease is answered "not revoked" exactly when the list was read after it expired. */
  lemma LateAnswerExactly(config: Config, latency: Duration, w: World, lease: Id, r: Request)
    requires Middleware.ConfigOk(config) && config.mode == Strict && latency >= 0 && Sound(config, latency, w)
    requires lease in w.store.leases && "" !in w.store.leases && Meets(w, latency, r)
    requires lease in w.since && w.since[lease] + config.cacheTtl + latency <= w.clock
    ensures IsRevoked(config, w.cache, lease, r.asked, r.fetch, r.received).1 == Some(false)
            <==> Answered(config, w, r) && w.store.leases[lease].expiration <= WholeSecond(ListTime(w, r))
  {
  }

  lemma NoEmptyId(issuing: Usecase.Config, s: Store)
    requires AllAuthorized(issuing, s)
    ensures "" !in s.leases
  {
    forall id | id in s.leases ensures id != "" {
      assert Authorized(issuing, s, s.leases[id]);
    }
  }

  /** What is left to admit under a lease from cacheTtl + latency after its revocation was committed, for any clock
      skew: exactly the requests the lease itself admits, whose list was read after the lease had expired. */
  lemma RevokedAdmittedExactly(config: Config, issuing: Usecase.Config, latency: Duration, worlds: seq<World>, events: seq<Event>, i: nat,
                               lease: Id, replay: Replay, r: Request)
    requires Middleware.ConfigOk(config) && config.mode == Strict && latency >= 0 && Usecase.ConfigOk(issuing)
    requires Run(config, latency, worlds, events) && i < |worlds| && AllAuthorized(issuing, worlds[i].store)
    requires lease in worlds[i].since && worlds[i].since[lease] + config.cacheTtl + latency <= worlds[i].clock
    requires lease in worlds[i].store.leases && r.token == Signed(Usecase.ClaimsFor(issuing, worlds[i].store.leases[lease]))
    requires 0 < Size(r.token) <= MAX_TOKEN_BYTES && r.action != "" && r.resource != "" && r.keyKnown && Meets(worlds[i], latency, r)
    ensures var w := worlds[i];
            var l := w.store.leases[lease];
            Authorize(config, w.cache, replay, r).2.Ok?
            <==> && config.issuer == issuing.issuer
                 && Admitted(l, config.audience, Demand(r.action, r.resource, RequestFacts(r), r.now), config.clockSkew)
                 && VerifyProof(config, replay, r, r.token.claims).1
                 && (l.maxUses > 0 ==> r.consumer == Consumes && r.idempotencyKey != "")
                 && Answered(config, w, r) && l.expiration <= WholeSecond(ListTime(w, r))
  {
    RunSound(config, latency, worlds, events, i);
    NoEmptyId(issuing, worlds[i].store);
    LateAnswerExactly(config, latency, worlds[i], lease, r);
    AuthorizeExactly(config, issuing, worlds[i].store, lease, worlds[i].cache, replay, r);
  }

  /** So a request is admitted only if its token was in time when checked, and the list it is answered from was read
      after the expiry. Before the lease's expiry none is, whatever the clock skew. */
  lemma RevokedLeaseNotAdmitted(config: Config, issuing: Usecase.Config, latency: Duration, worlds: seq<World>, events: seq<Event>, i: nat,
                                lease: Id, replay: Replay, r: Request)
    requires Middleware.ConfigOk(config) && config.mode == Strict && latency >= 0 && Usecase.ConfigOk(issuing)
    requires Run(config, latency, worlds, events) && i < |worlds| && AllAuthorized(issuing, worlds[i].store)
    requires lease in worlds[i].since && worlds[i].since[lease] + config.cacheTtl + latency <= worlds[i].clock
    requires lease in worlds[i].store.leases && r.token == Signed(Usecase.ClaimsFor(issuing, worlds[i].store.leases[lease]))
    requires Meets(worlds[i], latency, r)
    ensures var w, expiration := worlds[i], worlds[i].store.leases[lease].expiration;
            Authorize(config, w.cache, replay, r).2.Ok? ==>
              r.now < expiration + config.clockSkew && expiration <= WholeSecond(ListTime(w, r)) <= w.clock
  {
    if Authorize(config, worlds[i].cache, replay, r).2.Ok? {
      RevokedAdmittedExactly(config, issuing, latency, worlds, events, i, lease, replay, r);
      RunSound(config, latency, worlds, events, i);
    }
  }

  // ---- The requests that are still admitted, on a run that reaches them ----

  /** From tables without revocations: the lease is revoked, time passes to a moment, a list is read then and received. */
  ghost function LateEvents(after: Store, lease: Id, moment: Time): seq<Event> {
    [Change(after), Pass(moment), ServeList(moment), AskAndReceive(lease)]
  }

  ghost function LateWorlds(config: Config, latency: Duration, s: Store, start: Time, after: Store, lease: Id, moment: Time): seq<World> {
    var events := LateEvents(after, lease, moment);
    var w0 := World(s, start, map[], EMPTY_CACHE, 0, None);
    var w1 := Happen(config, latency, w0, events[0]);
    var w2 := Happen(config, latency, w1, events[1]);
    var w3 := Happen(config, latency, w2, events[2]);
    [w0, w1, w2, w3, Happen(config, latency, w3, events[3])]
  }

  ghost predicate RevokesLater(s: Store, start: Time, after: Store, lease: Id, moment: Time) {
    && 0 < start <= moment && Evolves(s, after) && (forall id | id in s.leases :: s.leases[id].revokedAt.None?)
    && lease in after.leases && after.leases[lease].revokedAt.Some? && "" !in after.leases
  }

  lemma LateRun(config: Config, latency: Duration, s: Store, start: Time, after: Store, lease: Id, moment: Time)
    requires Middleware.ConfigOk(config) && config.mode == Strict && latency >= 0 && RevokesLater(s, start, after, lease, moment)
    ensures var worlds := LateWorlds(config, latency, s, start, after, lease, moment);
            var listed := ListActiveRevocations(after, WholeSecond(moment));
            var fetch := Snapshot(listed, moment, Some(ETag(listed)));
            && Run(config, latency, worlds, LateEvents(after, lease, moment))
            && worlds[3] == World(after, moment, worlds[3].since, EMPTY_CACHE, 0, Some(Exchange(moment, fetch, listed)))
            && worlds[4] == World(after, moment, worlds[3].since, Cache(listed, moment + config.cacheTtl, moment, fetch.etag), moment, None)
            && lease in worlds[3].since && worlds[3].since[lease] == start
  {
  }

  /** The request its own refresh answers, and the request that waited for that refresh of another. */
  function Refreshing(after: Store, moment: Time, r: Request): Request {
    var listed := ListActiveRevocations(after, WholeSecond(moment));
    r.(asked := r.now, received := moment, fetch := Snapshot(listed, moment, Some(ETag(listed))))
  }

  function Waiting(moment: Time, r: Request): Request {
    r.(asked := moment, received := moment, fetch := Failed)
  }

  /** What a request must fulfil besides not being revoked. */
  ghost predicate OtherwiseFine(config: Config, issuing: Usecase.Config, l: Lease, replay: Replay, r: Request) {
    && r.token == Signed(Usecase.ClaimsFor(issuing, l)) && 0 < Size(r.token) <= MAX_TOKEN_BYTES
    && r.action != "" && r.resource != "" && r.keyKnown && config.issuer == issuing.issuer
    && Admitted(l, config.audience, Demand(r.action, r.resource, RequestFacts(r), r.now), config.clockSkew)
    && VerifyProof(config, replay, r, r.token.claims).1 && (l.maxUses > 0 ==> r.consumer == Consumes && r.idempotencyKey != "")
  }

  /** Such requests exist on reachable states. A request that is fine but for the revocation, whose token was checked
      up to its widened expiry, is admitted long after the revocation when a list read after the expiry answers it:
      its own refresh, or another request's refresh it waited for. */
  lemma RevokedLeaseReadmitted(config: Config, issuing: Usecase.Config, latency: Duration, s: Store, start: Time, after: Store, lease: Id,
                               moment: Time, replay: Replay, r: Request)
    requires Middleware.ConfigOk(config) && config.mode == Strict && latency >= 0 && Usecase.ConfigOk(issuing)
    requires RevokesLater(s, start, after, lease, moment) && AllAuthorized(issuing, after)
    requires start + config.cacheTtl + latency <= moment && after.leases[lease].expiration <= moment && 0 <= r.now <= moment
    requires OtherwiseFine(config, issuing, after.leases[lease], replay, r)
    ensures var worlds := LateWorlds(config, latency, s, start, after, lease, moment);
            && Run(config, latency, worlds, LateEvents(after, lease, moment))
            && lease in worlds[3].since && worlds[3].since[lease] + config.cacheTtl + latency <= worlds[3].clock
            && Meets(worlds[3], latency, Refreshing(after, moment, r)) && Meets(worlds[4], latency, Waiting(moment, r))
            && Authorize(config, worlds[3].cache, replay, Refreshing(after, moment, r)).2.Ok?
            && Authorize(config, worlds[4].cache, replay, Waiting(moment, r)).2.Ok?
  {
    var worlds, events := LateWorlds(config, latency, s, start, after, lease, moment), LateEvents(after, lease, moment);
    LateRun(config, latency, s, start, after, lease, moment);
    ExpiryIsWhole(issuing, after, lease, moment);
    LateMeets(config, latency, after, moment, worlds[3], worlds[4], r);
    StillFine(config, issuing, after, lease, moment, replay, r);
    Readmitted(config, issuing, latency, worlds, events, 3, lease, replay, Refreshing(after, moment, r));
    Readmitted(config, issuing, latency, worlds, events, 4, lease, replay, Waiting(moment, r));
  }

  lemma LateMeets(config: Config, latency: Duration, after: Store, moment: Time, w: World, v: World, r: Request)
    requires Middleware.ConfigOk(config) && latency >= 0 && 0 < moment && r.now <= moment && w.clock == v.clock == moment
    requires var listed := ListActiveRevocations(after, WholeSecond(moment));
             && w.exchange == Some(Exchange(moment, Refreshing(after, moment, r).fetch, listed)) && w.cache == EMPTY_CACHE
             && v.cache.expires == moment + config.cacheTtl && v.asOf == moment && 0 <= r.now
    ensures Meets(w, latency, Refreshing(after, moment, r)) && Meets(v, latency, Waiting(moment, r))
    ensures Answered(config, w, Refreshing(after, moment, r)) && Answered(config, v, Waiting(moment, r))
    ensures ListTime(w, Refreshing(after, moment, r)) == ListTime(v, Waiting(moment, r)) == moment
  {
  }

  lemma StillFine(config: Config, issuing: Usecase.Config, after: Store, lease: Id, moment: Time, replay: Replay, r: Request)
    requires lease in after.leases && OtherwiseFine(config, issuing, after.leases[lease], replay, r)
    ensures OtherwiseFine(config, issuing, after.leases[lease], replay, Refreshing(after, moment, r))
    ensures OtherwiseFine(config, issuing, after.leases[lease], replay, Waiting(moment, r))
  {
    assert RequestFacts(Refreshing(after, moment, r)) == RequestFacts(r) == RequestFacts(Waiting(moment, r));
  }

  lemma ExpiryIsWhole(issuing: Usecase.Config, s: Store, lease: Id, moment: Time)
    requires AllAuthorized(issuing, s) && lease in s.leases && s.leases[lease].expiration <= moment
    ensures s.leases[lease].expiration <= WholeSecond(moment)
  {
    assert Authorized(issuing, s, s.leases[lease]);
    ControlPlane.WholeSecondsCompare(s.leases[lease].expiration, moment);
  }

  lemma Readmitted(config: Config, issuing: Usecase.Config, latency: Duration, worlds: seq<World>, events: seq<Event>, i: nat,
                   lease: Id, replay: Replay, r: Request)
    requires Middleware.ConfigOk(config) && config.mode == Strict && latency >= 0 && Usecase.ConfigOk(issuing)
    requires Run(config, latency, worlds, events) && i < |worlds| && AllAuthorized(issuing, worlds[i].store)
    requires lease in worlds[i].since && worlds[i].since[lease] + config.cacheTtl + latency <= worlds[i].clock
    requires lease in worlds[i].store.leases && OtherwiseFine(config, issuing, worlds[i].store.leases[lease], replay, r)
    requires Meets(worlds[i], latency, r) && Answered(config, worlds[i], r)
    requires worlds[i].store.leases[lease].expiration <= WholeSecond(ListTime(worlds[i], r))
    ensures Authorize(config, worlds[i].cache, replay, r).2.Ok?
  {
    RevokedAdmittedExactly(config, issuing, latency, worlds, events, i, lease, replay, r);
  }

  /** With clock skew no delay is needed: at the expiry itself a request made, asked and answered at that one instant
      is admitted again. */
  lemma SkewOutlivesTheList(config: Config, issuing: Usecase.Config, latency: Duration, s: Store, start: Time, after: Store, lease: Id,
                            replay: Replay, r: Request)
    requires Middleware.ConfigOk(config) && config.mode == Strict && latency >= 0 && Usecase.ConfigOk(issuing)
    requires lease in after.leases && RevokesLater(s, start, after, lease, after.leases[lease].expiration) && AllAuthorized(issuing, after)
    requires r.now == after.leases[lease].expiration && start + config.cacheTtl + latency <= r.now
    requires OtherwiseFine(config, issuing, after.leases[lease], replay, r)
    ensures config.clockSkew > 0
    ensures var w := LateWorlds(config, latency, s, start, after, lease, r.now)[3];
            Authorize(config, w.cache, replay, Refreshing(after, r.now, r)).2.Ok? && Refreshing(after, r.now, r).received == r.now == w.clock
  {
    LateRun(config, latency, s, start, after, lease, r.now);
    RevokedLeaseReadmitted(config, issuing, latency, s, start, after, lease, r.now, replay, r);
  }

  /** Without clock skew a delay suffices: checked an instant before the expiry, answered at it. */
  lemma LateListForgets(config: Config, issuing: Usecase.Config, latency: Duration, s: Store, start: Time, after: Store, lease: Id,
                        replay: Replay, r: Request)
    requires Middleware.ConfigOk(config) && config.mode == Strict && latency >= 0 && Usecase.ConfigOk(issuing) && config.clockSkew == 0
    requires lease in after.leases && RevokesLater(s, start, after, lease, after.leases[lease].expiration) && AllAuthorized(issuing, after)
    requires r.now == after.leases[lease].expiration - 1 && start + config.cacheTtl + latency <= r.now + 1
    requires OtherwiseFine(config, issuing, after.leases[lease], replay, r)
    ensures var worlds := LateWorlds(config, latency, s, start, after, lease, r.now + 1);
            && Authorize(config, worlds[3].cache, replay, Refreshing(after, r.now + 1, r)).2.Ok?
            && Authorize(config, worlds[4].cache, replay, Waiting(r.now + 1, r)).2.Ok?
  {
    RevokedLeaseReadmitted(config, issuing, latency, s, start, after, lease, r.now + 1, replay, r);
  }

  // ---- Authority, from the grant to the protected service ----

  /** With the token of a stored lease, Authorize admits exactly the requests the lease admits, from its issuer, with
      the proof and the use it calls for, answered not revoked. */
  lemma AuthorizeExactly(config: Config, issuing: Usecase.Config, s: Store, id: Id, cache: Cache, replay: Replay, r: Request)
    requires Middleware.ConfigOk(config) && Usecase.ConfigOk(issuing) && AllAuthorized(issuing, s) && id in s.leases
    requires r.token == Signed(Usecase.ClaimsFor(issuing, s.leases[id])) && 0 < Size(r.token) <= MAX_TOKEN_BYTES
    requires r.action != "" && r.resource != "" && r.keyKnown
    ensures var l, claims := s.leases[id], Usecase.ClaimsFor(issuing, s.leases[id]);
            Authorize(config, cache, replay, r).2.Ok?
            <==> && config.issuer == issuing.issuer
                 && Admitted(l, config.audience, Demand(r.action, r.resource, RequestFacts(r), r.now), config.clockSkew)
                 && VerifyProof(config, replay, r, claims).1
                 && IsRevoked(config, cache, id, r.asked, r.fetch, r.received).1 == Some(false)
                 && (l.maxUses > 0 ==> r.consumer == Consumes && r.idempotencyKey != "")
  {
    var l, claims := s.leases[id], Usecase.ClaimsFor(issuing, s.leases[id]);
    TokenRoundTrip(issuing, s, id);
    ScopeExactly(config, issuing, s, id, r.now);
    ChecksPassed(config, cache, replay, r, claims);
    StoredLeaseDates(issuing, s, id);
    assert Resource.AnyAllows(l.resources, r.resource) ==> Resource.ValidValue(r.resource);
  }

  /** The checks of Authorize one by one, for a well-formed token. */
  lemma ChecksPassed(config: Config, cache: Cache, replay: Replay, r: Request, claims: LeaseClaims)
    requires Middleware.ConfigOk(config) && r.token == Signed(claims) && 0 < Size(r.token) <= MAX_TOKEN_BYTES
    requires r.action != "" && r.resource != "" && r.keyKnown && Structure(claims).Ok?
    ensures Authorize(config, cache, replay, r).2.Ok?
            <==> && TimeAndScope(claims, config.issuer, config.audience, config.clockSkew, r.now).Ok?
                 && VerifyProof(config, replay, r, claims).1
                 && IsRevoked(config, cache, claims.ups.leaseId, r.asked, r.fetch, r.received).1 == Some(false)
                 && r.action in claims.ups.actions && ResourceAllowed(claims.ups.resources, r.resource)
                 && Satisfied(claims.ups.constraints, RequestFacts(r))
                 && (claims.ups.maxUses > 0 ==> r.consumer == Consumes && r.idempotencyKey != "")
  {
    TokenPassed(config, r, claims);
    DecisionExactly(config, cache, replay, r, claims);
  }

  lemma TokenPassed(config: Config, r: Request, claims: LeaseClaims)
    requires Middleware.ConfigOk(config) && r.token == Signed(claims) && Size(r.token) <= MAX_TOKEN_BYTES && Structure(claims).Ok?
    ensures var verified := VerifyLeaseToken(r.token, config.issuer, config.audience, config.clockSkew, r.now);
            && (verified.Ok? <==> TimeAndScope(claims, config.issuer, config.audience, config.clockSkew, r.now).Ok?)
            && (verified.Ok? ==> verified.value == claims)
  {
  }

  lemma DecisionExactly(config: Config, cache: Cache, replay: Replay, r: Request, claims: LeaseClaims)
    ensures Decide(config, cache, replay, r, claims).2.Ok?
            <==> && VerifyProof(config, replay, r, claims).1
                 && IsRevoked(config, cache, claims.ups.leaseId, r.asked, r.fetch, r.received).1 == Some(false)
                 && r.action in claims.ups.actions && ResourceAllowed(claims.ups.resources, r.resource)
                 && Satisfied(claims.ups.constraints, RequestFacts(r))
                 && (claims.ups.maxUses > 0 ==> r.consumer == Consumes && r.idempotencyKey != "")
  {
  }

  lemma ScopeExactly(config: Config, issuing: Usecase.Config, s: Store, id: Id, now: Time)
    requires AllAuthorized(issuing, s) && id in s.leases
    ensures var l := s.leases[id];
            TimeAndScope(Usecase.ClaimsFor(issuing, l), config.issuer, config.audience, config.clockSkew, now).Ok?
            <==> config.issuer == issuing.issuer && config.audience == l.audience
                 && l.issuedAt - config.clockSkew <= now < l.expiration + config.clockSkew
  {
    assert Authorized(issuing, s, s.leases[id]);
  }

  // ---- Revocation, from an ancestor to the protected service ----

  /** The tables of the world follow a run of the control plane, at most one step of it per event. */
  ghost predicate Follows(worlds: seq<World>, states: seq<ControlPlane.System>, at: seq<nat>) {
    && |at| == |worlds|
    && (forall i | 0 <= i < |at| :: at[i] < |states| && worlds[i].store == states[at[i]].store)
    && (forall i | 0 <= i < |at| - 1 :: at[i + 1] == at[i] || at[i + 1] == at[i] + 1)
  }

  /** A lease is revoked no later than its parent. */
  ghost predicate SinceOrdered(w: World) {
    forall id | id in w.store.leases && w.store.leases[id].parent.Some? && w.store.leases[id].parent.value in w.since ::
      id in w.since && w.since[id] <= w.since[w.store.leases[id].parent.value]
  }

  lemma ChangeKeepsOrder(config: Config, latency: Duration, w: World, after: Store)
    requires Sound(config, latency, w) && SinceOrdered(w) && Evolves(w.store, after) && StoreStep(w.store, after)
    ensures SinceOrdered(Happen(config, latency, w, Change(after)))
  {
    var next := Happen(config, latency, w, Change(after));
    forall id | id in after.leases && after.leases[id].parent.Some? && after.leases[id].parent.value in next.since
      ensures id in next.since && next.since[id] <= next.since[after.leases[id].parent.value]
    {
      var p := after.leases[id].parent.value;
      LinkKept(w.store, after, id, p);
      assert p in next.since ==> p in w.since || p in NewlyRevoked(w.store, after);
    }
  }

  /** Below a revoked parent a lease is revoked, and was stored before; if the parent was revoked before, so was it. */
  lemma LinkKept(s: Store, t: Store, id: Id, p: Id)
    requires Evolves(s, t) && StoreStep(s, t) && id in t.leases && t.leases[id].parent == Some(p)
    ensures p in t.leases
    ensures t.leases[p].revokedAt.Some? ==>
              && t.leases[id].revokedAt.Some? && id in s.leases && s.leases[id].parent == Some(p) && p in s.leases
              && (s.leases[p].revokedAt.Some? ==> s.leases[id].revokedAt.Some?)
  {
    assert Placed(t.leases, t.leases[id]) && FollowsParent(t.leases, id);
    if t.leases[p].revokedAt.Some? {
      assert SameIssue(s.leases[id], t.leases[id]) && Placed(s.leases, s.leases[id]) && FollowsParent(s.leases, id);
    }
  }

  lemma EventKeepsOrder(config: Config, latency: Duration, w: World, e: Event)
    requires Sound(config, latency, w) && SinceOrdered(w) && StoreStep(w.store, Happen(config, latency, w, e).store)
    ensures SinceOrdered(Happen(config, latency, w, e))
  {
    if e.Change? && Evolves(w.store, e.after) {
      ChangeKeepsOrder(config, latency, w, e.after);
    }
  }

  /** What a step of the control plane guarantees here. */
  ghost predicate StoreStep(s: Store, t: Store) {
    && Forest(s.leases) && Forest(t.leases) && DownwardClosed(s.leases) && DownwardClosed(t.leases)
    && forall id | id in t.leases && id !in s.leases :: t.leases[id].revokedAt.None?
  }

  lemma ReachableClosed(issuing: Usecase.Config, states: seq<ControlPlane.System>, i: nat)
    requires ControlPlane.Run(issuing, states) && i < |states|
    ensures Forest(states[i].store.leases) && DownwardClosed(states[i].store.leases)
  {
    ControlPlane.RunGood(issuing, states, i);
  }

  lemma StoresStep(issuing: Usecase.Config, worlds: seq<World>, states: seq<ControlPlane.System>, at: seq<nat>, i: nat)
    requires ControlPlane.Run(issuing, states) && Follows(worlds, states, at) && 0 < i < |worlds|
    ensures StoreStep(worlds[i - 1].store, worlds[i].store)
  {
    var j := i - 1;
    assert at[j + 1] == at[j] || at[j + 1] == at[j] + 1;
    ReachableClosed(issuing, states, at[j]);
    ReachableClosed(issuing, states, at[i]);
    if at[i] != at[j] {
      ControlPlane.NewLeasesUnrevoked(issuing, states, at[i]);
    }
  }

  lemma {:induction false} RunOrdered(config: Config, issuing: Usecase.Config, latency: Duration, worlds: seq<World>, events: seq<Event>,
                                      states: seq<ControlPlane.System>, at: seq<nat>, i: nat)
    requires Middleware.ConfigOk(config) && config.mode == Strict && latency >= 0
    requires Run(config, latency, worlds, events) && ControlPlane.Run(issuing, states) && Follows(worlds, states, at) && i < |worlds|
    ensures SinceOrdered(worlds[i])
  {
    if i > 0 {
      var j := i - 1;
      RunOrdered(config, issuing, latency, worlds, events, states, at, j);
      RunSound(config, latency, worlds, events, j);
      StoresStep(issuing, worlds, states, at, i);
      assert worlds[j + 1] == Happen(config, latency, worlds[j], events[j]);
      EventKeepsOrder(config, latency, worlds[j], events[j]);
    }
  }

  lemma {:induction false} AncestorsSince(w: World, id: Id, a: Id)
    requires Forest(w.store.leases) && SinceOrdered(w) && id in w.store.leases && a in Chain(w.store.leases, id) && a in w.since
    ensures id in w.since && w.since[id] <= w.since[a]
    decreases w.store.leases[id].depth
  {
    assert Placed(w.store.leases, w.store.leases[id]);
    if a != id {
      AncestorsSince(w, w.store.leases[id].parent.value, a);
    }
  }

  /** The whole chain: over a joint run of the control plane and a strict verifier, from cacheTtl + latency after the
      revocation of a lease was committed, no request is admitted under it or under any lease below it, delegated
      before or since, unless its token was in time when checked and its list was read after that lease's expiry. */
  lemma RevocationStopsTheLineage(config: Config, issuing: Usecase.Config, latency: Duration, worlds: seq<World>, events: seq<Event>,
                                  states: seq<ControlPlane.System>, at: seq<nat>, i: nat, a: Id, id: Id, replay: Replay, r: Request)
    requires Middleware.ConfigOk(config) && config.mode == Strict && latency >= 0 && Usecase.ConfigOk(issuing)
    requires Run(config, latency, worlds, events) && ControlPlane.Run(issuing, states) && Follows(worlds, states, at) && i < |worlds|
    requires Forest(worlds[i].store.leases) && id in worlds[i].store.leases && a in Chain(worlds[i].store.leases, id)
    requires a in worlds[i].since && worlds[i].since[a] + config.cacheTtl + latency <= worlds[i].clock
    requires r.token == Signed(Usecase.ClaimsFor(issuing, worlds[i].store.leases[id])) && Meets(worlds[i], latency, r)
    ensures var w, expiration := worlds[i], worlds[i].store.leases[id].expiration;
            Authorize(config, w.cache, replay, r).2.Ok? ==>
              r.now < expiration + config.clockSkew && expiration <= WholeSecond(ListTime(w, r)) <= w.clock
  {
    ControlPlane.RunGood(issuing, states, at[i]);
    RunOrdered(config, issuing, latency, worlds, events, states, at, i);
    AncestorsSince(worlds[i], id, a);
    RevokedLeaseNotAdmitted(config, issuing, latency, worlds, events, i, id, replay, r);
  }

  /** And authority: whatever such a request gets admitted, every ancestor lease and the grant of the root workload
      admit as well. */
  lemma AdmittedInsideGrant(config: Config, issuing: Usecase.Config, states: seq<ControlPlane.System>, i: nat, id: Id, a: Id,
                            cache: Cache, replay: Replay, r: Request)
    requires Middleware.ConfigOk(config) && Usecase.ConfigOk(issuing) && ControlPlane.Run(issuing, states) && i < |states|
    requires Forest(states[i].store.leases) && id in states[i].store.leases && a in Chain(states[i].store.leases, id)
    requires r.token == Signed(Usecase.ClaimsFor(issuing, states[i].store.leases[id]))
    ensures Authorize(config, cache, replay, r).2.Ok? ==>
              var s, d := states[i].store, Demand(r.action, r.resource, RequestFacts(r), r.now);
              && a in s.leases && Admitted(s.leases[a], config.audience, d, config.clockSkew)
              && s.leases[id].rootLease in s.leases && s.leases[id].rootWorkload in s.workloads
              && Granted(s.workloads[s.leases[id].rootWorkload].grant, s.leases[s.leases[id].rootLease].issuedAt, config.audience, d, config.clockSkew)
  {
    if Authorize(config, cache, replay, r).2.Ok? {
      var s, d := states[i].store, Demand(r.action, r.resource, RequestFacts(r), r.now);
      ControlPlane.RunGood(issuing, states, i);
      AuthorizeExactly(config, issuing, s, id, cache, replay, r);
      ControlPlane.AuthorityNeverGrows(issuing, states, i, id, a, config.audience, d, config.clockSkew);
    }
  }
}
