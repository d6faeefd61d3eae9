/** sdk/go/middleware: the verifier a protected service runs, with its caches. */
module Middleware {
  import opened Wrappers
  import opened Text
  import opened Resource
  import opened Constraints
  import opened Attenuation
  import opened Domain
  import opened LeaseToken
  import opened ProofOfPossession

  datatype RevocationMode = Strict | BoundedStale | ExpiryOnly

  datatype Config = Config(
    issuer: string, audience: string, mode: RevocationMode, cacheTtl: Duration, maxStaleness: Duration,
    clockSkew: Duration, requireProof: bool, proofWindow: Duration)

  /** What New accepts, after filling in defaults. */
  predicate ConfigOk(c: Config) {
    && c.issuer != "" && c.audience != "" && SECOND / 10 <= c.cacheTtl <= 15 * 60 * SECOND
    && (if c.mode == BoundedStale then c.cacheTtl <= c.maxStaleness <= 3600 * SECOND else c.maxStaleness == 0)
    && 0 <= c.clockSkew <= 60 * SECOND && SECOND <= c.proofWindow <= 60 * SECOND
  }

  /** The entity tag of a revocation list: a hash of its ids, without collisions. */
  datatype ETag = ETag(ids: set<Id>)

  datatype Cache = Cache(revoked: set<Id>, expires: Time, fetched: Time, etag: Option<ETag>)

  const EMPTY_CACHE := Cache({}, 0, 0, None)

  /** What a request for the revocation list brings back; Failed covers transport errors and refused bodies. */
  datatype Fetch = Failed | NotModified | Snapshot(ids: set<Id>, generatedAt: Time, etag: Option<ETag>)

  /** isRevoked: now is read before the cache is consulted, received after the response arrived. */
  function IsRevoked(config: Config, cache: Cache, lease: Id, now: Time, fetch: Fetch, received: Time): (Cache, Option<bool>) {
    if config.mode == ExpiryOnly then (cache, Some(false))
    else if now < cache.expires then (cache, Some(lease in cache.revoked))
    else match fetch
      case Snapshot(ids, generatedAt, etag) =>
        if generatedAt == 0 || generatedAt > received + config.clockSkew || "" in ids then (cache, None)
        else (Cache(ids, received + config.cacheTtl, received, etag), Some(lease in ids))
      case _ =>
        if fetch.NotModified? && cache.fetched != 0 then
          (cache.(expires := received + config.cacheTtl, fetched := received), Some(lease in cache.revoked))
        else if config.mode == BoundedStale && cache.fetched != 0 && received - cache.fetched <= config.maxStaleness then
          (cache, Some(lease in cache.revoked))
        else (cache, None)
  }

  /** The revocations handler: the active list, or 304 when the client already holds its tag. */
  function Serve(ids: set<Id>, ifNoneMatch: Option<ETag>, generatedAt: Time): Fetch {
    if ifNoneMatch == Some(ETag(ids)) then NotModified else Snapshot(ids, generatedAt, Some(ETag(ids)))
  }

  // ---- Authorize ----

  datatype AuthorizationError =
    | TokenIsExpired | WrongAudience | InsufficientAction | ResourceOutOfScope | LeaseIsRevoked
    | UsesExceeded | BadSignature | ProofRequired | ConstraintNotSatisfied | Unavailable

  datatype Consumer = NotConfigured | Consumes | RefusesUse | Unreachable

  /**
   A request to a protected service, with what its environment answers. The clock is read for the token (now), for the
   proof (proofNow, libraryNow), when the revocation cache is last consulted, after any wait for another request's
   refresh (asked), and when the response of a refresh has arrived (received).
   */
  datatype Request = Request(
    token: Token, action: string, resource: string, httpMethod: string, facts: ConstraintMap, proof: Option<Proof>,
    target: string, idempotencyKey: string, keyKnown: bool, consumer: Consumer, fetch: Fetch,
    now: Time, proofNow: Time, libraryNow: Time, asked: Time, received: Time)

  predicate ResourceAllowed(resources: seq<string>, required: string) {
    ValidValue(required) && AnyAllows(resources, required)
  }

  /** The context of a request: the method always comes from the request itself. */
  function RequestFacts(r: Request): ConstraintMap {
    map k | k in r.facts.Keys + {"http_method"} :: if k == "http_method" then UpperForm(r.httpMethod) else r.facts[k]
  }

  function VerifyProof(config: Config, replay: Replay, r: Request, claims: LeaseClaims): (Replay, bool) {
    if claims.confirmation.None? then (replay, !config.requireProof)
    else if r.proof.None? then (replay, false)
    else Present(replay, Attempt(r.proof.value, r.httpMethod, r.target, r.token, claims.confirmation.value, r.proofNow, r.libraryNow), config.proofWindow)
  }

  function TokenFailure(e: TokenError): AuthorizationError {
    match e case TokenExpired => TokenIsExpired case BadAudience => WrongAudience case _ => BadSignature
  }

  function Authorize(config: Config, cache: Cache, replay: Replay, r: Request): (Cache, Replay, Result<LeaseClaims, AuthorizationError>) {
    if r.action == "" || r.resource == "" || Size(r.token) == 0 || Size(r.token) > MAX_TOKEN_BYTES then (cache, replay, Err(BadSignature))
    else if !HeaderOk(r.token) then (cache, replay, Err(BadSignature))
    else if !r.keyKnown then (cache, replay, Err(Unavailable))
    else
      var verified := VerifyLeaseToken(r.token, config.issuer, config.audience, config.clockSkew, r.now);
      if verified.Err? then (cache, replay, Err(TokenFailure(verified.error)))
      else Decide(config, cache, replay, r, verified.value)
  }

  /** What follows the verification of the token. */
  function Decide(config: Config, cache: Cache, replay: Replay, r: Request, claims: LeaseClaims):
    (Cache, Replay, Result<LeaseClaims, AuthorizationError>)
  {
    var (seen, proven) := VerifyProof(config, replay, r, claims);
    if !proven then (cache, seen, Err(ProofRequired))
    else
      var (refreshed, revoked) := IsRevoked(config, cache, claims.ups.leaseId, r.asked, r.fetch, r.received);
      (refreshed, seen,
       if revoked.None? then Err(Unavailable)
       else if revoked.value then Err(LeaseIsRevoked)
       else if r.action !in claims.ups.actions then Err(InsufficientAction)
       else if !ResourceAllowed(claims.ups.resources, r.resource) then Err(ResourceOutOfScope)
       else if !Satisfied(claims.ups.constraints, RequestFacts(r)) then Err(ConstraintNotSatisfied)
       else if claims.ups.maxUses > 0 && (r.consumer == NotConfigured || r.idempotencyKey == "") then Err(Unavailable)
       else if claims.ups.maxUses > 0 && r.consumer == RefusesUse then Err(UsesExceeded)
       else if claims.ups.maxUses > 0 && r.consumer == Unreachable then Err(Unavailable)
       else Ok(claims))
  }

  class Verifier {
    const config: Config
    var revoked: set<Id>
    var revocationsExpire: Time
    var revocationsFetched: Time
    var revocationsETag: Option<ETag>
    var proofReplay: Replay

    function Revocations(): Cache
      reads this
    {
      Cache(revoked, revocationsExpire, revocationsFetched, revocationsETag)
    }

    constructor (config: Config)
      requires ConfigOk(config)
      ensures this.config == config && Revocations() == EMPTY_CACHE && proofReplay == map[]
    {
      this.config := config;
      revoked, revocationsExpire, revocationsFetched, revocationsETag, proofReplay := {}, 0, 0, None, map[];
    }

    method CheckRevoked(lease: Id, now: Time, fetch: Fetch, received: Time) returns (r: Option<bool>)
      modifies `revoked, `revocationsExpire, `revocationsFetched, `revocationsETag
      ensures (Revocations(), r) == IsRevoked(config, old(Revocations()), lease, now, fetch, received)
    {
      if config.mode == ExpiryOnly {
        return Some(false);
      }
      if now < revocationsExpire {
        return Some(lease in revoked);
      }
      if fetch.Failed? || (fetch.NotModified? && revocationsFetched == 0) {
        if config.mode == BoundedStale && revocationsFetched != 0 && received - revocationsFetched <= config.maxStaleness {
          return Some(lease in revoked);
        }
        return None;
      }
      if fetch.NotModified? {
        revocationsExpire := received + config.cacheTtl;
        revocationsFetched := received;
        return Some(lease in revoked);
      }
      if fetch.generatedAt == 0 || fetch.generatedAt > received + config.clockSkew || "" in fetch.ids {
        return None;
      }
      revoked := fetch.ids;
      revocationsExpire := received + config.cacheTtl;
      revocationsFetched := received;
      revocationsETag := fetch.etag;
      r := Some(lease in revoked);
    }

    /** The purge loop visits the entries in any order. */
    method SpendProof(key: string, expiresAt: Time, now: Time) returns (r: bool)
      modifies `proofReplay
      ensures (proofReplay, r) == ConsumeProof(old(proofReplay), key, expiresAt, now)
    {
      if key in proofReplay && now <= proofReplay[key] {
        return false;
      }
      if |proofReplay| >= MAX_REPLAY_ENTRIES {
        var before := proofReplay;
        var remaining := before.Keys;
        while remaining != {}
          invariant remaining <= before.Keys
          invariant proofReplay == map k | k in before && (k in remaining || now <= before[k]) :: before[k]
          decreases remaining
        {
          var candidate :| candidate in remaining;
          if now > proofReplay[candidate] {
            proofReplay := proofReplay - {candidate};
          }
          remaining := remaining - {candidate};
        }
        assert proofReplay == Live(before, now);
        if |proofReplay| >= MAX_REPLAY_ENTRIES {
          return false;
        }
      }
      proofReplay := proofReplay[key := expiresAt];
      r := true;
    }

    method CheckProof(request: Request, claims: LeaseClaims) returns (r: bool)
      modifies `proofReplay
      ensures (proofReplay, r) == VerifyProof(config, old(proofReplay), request, claims)
    {
      if claims.confirmation.None? {
        return !config.requireProof;
      }
      if request.proof.None? {
        return false;
      }
      var verified := Verify(request.proof.value, request.httpMethod, request.target, request.token, claims.confirmation.value,
                             request.proofNow, request.libraryNow, config.proofWindow);
      if verified.None? {
        return false;
      }
      r := SpendProof(ReplayKey(verified.value.thumbprint, verified.value.id), verified.value.replayExpiry, request.proofNow);
    }

    method CheckResource(resources: seq<string>, required: string) returns (r: bool)
      ensures r == ResourceAllowed(resources, required)
    {
      if !ValidValue(required) {
        return false;
      }
      for i := 0 to |resources|
        invariant forall k | 0 <= k < i :: !Allows(resources[k], required)
      {
        if Allows(resources[i], required) {
          return true;
        }
      }
      r := false;
    }

    method AuthorizeRequest(request: Request) returns (r: Result<LeaseClaims, AuthorizationError>)
      modifies this
      ensures (Revocations(), proofReplay, r) == Authorize(config, old(Revocations()), old(proofReplay), request)
    {
      if request.action == "" || request.resource == "" || Size(request.token) == 0 || Size(request.token) > MAX_TOKEN_BYTES {
        return Err(BadSignature);
      }
      if !HeaderOk(request.token) {
        return Err(BadSignature);
      }
      if !request.keyKnown {
        return Err(Unavailable);
      }
      var verified := VerifyLeaseToken(request.token, config.issuer, config.audience, config.clockSkew, request.now);
      if verified.Err? {
        return Err(TokenFailure(verified.error));
      }
      var claims := verified.value;
      var proven := CheckProof(request, claims);
      if !proven {
        return Err(ProofRequired);
      }
      var answer := CheckRevoked(claims.ups.leaseId, request.asked, request.fetch, request.received);
      if answer.None? {
        return Err(Unavailable);
      }
      if answer.value {
        return Err(LeaseIsRevoked);
      }
      if request.action !in claims.ups.actions {
        return Err(InsufficientAction);
      }
      var inScope := CheckResource(claims.ups.resources, request.resource);
      if !inScope {
        return Err(ResourceOutOfScope);
      }
      if !Satisfied(claims.ups.constraints, RequestFacts(request)) {
        return Err(ConstraintNotSatisfied);
      }
      if claims.ups.maxUses > 0 {
        if request.consumer == NotConfigured || request.idempotencyKey == "" {
          return Err(Unavailable);
        }
        if request.consumer == RefusesUse {
          return Err(UsesExceeded);
        }
        if request.consumer == Unreachable {
          return Err(Unavailable);
        }
      }
      r := Ok(claims);
    }
  }
}
