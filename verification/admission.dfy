/** What an admission by Authorize proves about the request, and what each refusal means, check by check. */
module Admission {
  import opened Wrappers
  import opened Text
  import opened Resource
  import opened Constraints
  import opened Attenuation
  import opened AttenuationMeaning
  import opened Domain
  import opened LeaseToken
  import opened Lineage
  import opened Transactions
  import opened Authority
  import opened Middleware
  import opened ProofOfPossession
  import Usecase
  import ControlPlane
  import EndToEnd

  // ---- Proofs ----

  /** The request carries a proof of this key: made for this method, target and token, and in time. */
  ghost predicate CarriesProof(config: Config, r: Request, key: string) {
    && r.proof.Some? && r.httpMethod != ""
    && var p := r.proof.value;
       && p.thumbprint == key && 1 <= |p.id| && ByteLen(p.id) <= 128
       && p.httpMethod == UpperForm(r.httpMethod) && p.httpUri == r.target && p.accessHash == Sha256(r.token)
       && p.issuedAt - config.proofWindow <= r.proofNow <= p.issuedAt + config.proofWindow && p.issuedAt <= r.libraryNow
  }

  ghost function LiveEntries(replay: Replay, now: Time): set<string> {
    set k | k in replay && now <= replay[k]
  }

  /** The proof has no live entry, and the live entries leave room for it. */
  ghost predicate Unspent(replay: Replay, p: Proof, now: Time) {
    ReplayKey(p.thumbprint, p.id) !in LiveEntries(replay, now) && (|replay| < 10000 || |LiveEntries(replay, now)| < 10000)
  }

  /** Live entries stay as they are, and nothing is added but this. */
  ghost predicate KeepsLive(before: Replay, after: Replay, now: Time, added: set<string>) {
    && (forall k | k in LiveEntries(before, now) :: k in after && after[k] == before[k])
    && (forall k | k in after && k !in added :: k in before && after[k] == before[k])
  }

  lemma LiveSize(replay: Replay, now: Time)
    ensures |Live(replay, now)| == |LiveEntries(replay, now)|
  {
    assert Live(replay, now).Keys == LiveEntries(replay, now) && |Live(replay, now)| == |Live(replay, now).Keys|;
  }

  /** A proof is accepted exactly when the request carries one of the bound key that is unspent; without a bound key,
      exactly when the verifier does not demand one. An accepted proof is remembered a second past its window. */
  lemma ProofExactly(config: Config, replay: Replay, r: Request, claims: LeaseClaims)
    requires Middleware.ConfigOk(config) && (claims.confirmation.Some? ==> ByteLen(claims.confirmation.value) == 43)
    ensures var (after, passed) := VerifyProof(config, replay, r, claims);
            match claims.confirmation
            case None => passed == !config.requireProof && after == replay
            case Some(key) =>
              && (passed <==> CarriesProof(config, r, key) && Unspent(replay, r.proof.value, r.proofNow))
              && (!passed ==> KeepsLive(replay, after, r.proofNow, {}))
              && (passed ==>
                    var spent := ReplayKey(key, r.proof.value.id);
                    && spent in after && after[spent] == r.proof.value.issuedAt + config.proofWindow + SECOND
                    && KeepsLive(replay, after, r.proofNow, {spent}))
  {
    LiveSize(replay, r.proofNow);
  }

  /** Every admitted request carried what its token demands: a proof by the bound key, or none where none is demanded. */
  lemma AdmittedCarriesProof(config: Config, cache: Cache, replay: Replay, r: Request)
    requires Middleware.ConfigOk(config)
    ensures Authorize(config, cache, replay, r).2.Ok? ==>
              && r.token.Signed?
              && match r.token.claims.confirmation
                 case None => !config.requireProof
                 case Some(key) => CarriesProof(config, r, key) && Unspent(replay, r.proof.value, r.proofNow)
  {
    AdmittedVerified(config, cache, replay, r);
    if Authorize(config, cache, replay, r).2.Ok? {
      ProofExactly(config, replay, r, r.token.claims);
    }
  }

  /** Below a lease that is bound to a key, or a grant that demands proof, no request is admitted without a proof by the
      key its own lease is bound to. */
  lemma BoundLineageNeedsProof(config: Config, issuing: Usecase.Config, s: Store, id: Id, a: Id, cache: Cache, replay: Replay, r: Request)
    requires Middleware.ConfigOk(config) && AllAuthorized(issuing, s) && id in s.leases && a in Chain(s.leases, id) && a in s.leases
    requires s.leases[id].rootWorkload in s.workloads
    requires s.leases[a].confirmation.Some? || s.workloads[s.leases[id].rootWorkload].grant.requireProof
    requires r.token == Signed(Usecase.ClaimsFor(issuing, s.leases[id]))
    ensures s.leases[id].confirmation.Some?
    ensures Authorize(config, cache, replay, r).2.Ok? ==> CarriesProof(config, r, s.leases[id].confirmation.value)
  {
    KeyBindingSticks(issuing, s, id, a);
    AdmittedCarriesProof(config, cache, replay, r);
  }

  // ---- Tokens ----

  /** Whatever is admitted came with a token the control plane signed, for this verifier and in time, and the claims
      handed on are that token's. */
  lemma AdmittedVerified(config: Config, cache: Cache, replay: Replay, r: Request)
    ensures var result := Authorize(config, cache, replay, r).2;
            result.Ok? ==>
              && r.token.Signed? && result.value == r.token.claims && WellFormedClaims(r.token.claims) && EncodedSize(r.token.claims) <= 16384
              && r.token.claims.issuer == config.issuer && r.token.claims.audience == [config.audience]
              && r.token.claims.issuedAt.value - config.clockSkew <= r.now < r.token.claims.expiresAt.value + config.clockSkew
              && VerifyProof(config, replay, r, r.token.claims).1 && Satisfied(r.token.claims.ups.constraints, RequestFacts(r))
  {
    VerifiedExactly(r.token, config.issuer, config.audience, config.clockSkew, r.now);
  }

  /** A text the control plane did not sign is never admitted. */
  lemma ForgedRefused(config: Config, cache: Cache, replay: Replay, r: Request)
    requires r.token.Forged?
    ensures Authorize(config, cache, replay, r).2.Err?
    ensures VerifyLeaseToken(r.token, config.issuer, config.audience, config.clockSkew, r.now).Err?
  {
    AdmittedVerified(config, cache, replay, r);
    VerifiedExactly(r.token, config.issuer, config.audience, config.clockSkew, r.now);
  }

  /** Signed tokens are those of stored leases: the control plane hands out no other. */
  ghost predicate Genuine(issuing: Usecase.Config, s: Store, token: Token) {
    token.Signed? ==> exists id :: id in s.leases && TokenOf(issuing, s.leases[id], token)
  }

  predicate TokenOf(issuing: Usecase.Config, l: Lease, token: Token) {
    token == Signed(Usecase.ClaimsFor(issuing, l))
  }

  /** What an admission under a lease proves in a reachable state: the lease, each ancestor and the root workload's
      grant admit the request, and every ceiling among them covers the amount it states. */
  ghost predicate Inside(config: Config, s: Store, id: Id, r: Request)
    requires Forest(s.leases) && id in s.leases
  {
    var d := Demand(r.action, r.resource, RequestFacts(r), r.now);
    && (forall a | a in Chain(s.leases, id) ::
          a in s.leases && Admitted(s.leases[a], config.audience, d, config.clockSkew) && WithinCeiling(s.leases[a].constraints, r))
    && s.leases[id].rootLease in s.leases && s.leases[id].rootWorkload in s.workloads
    && var grant := s.workloads[s.leases[id].rootWorkload].grant;
       && Granted(grant, s.leases[s.leases[id].rootLease].issuedAt, config.audience, d, config.clockSkew)
       && WithinCeiling(grant.constraints, r)
  }

  /** The request states an amount no larger than the ceiling, if there is one. */
  ghost predicate WithinCeiling(constraints: ConstraintMap, r: Request) {
    CEILING in constraints ==> CEILING in r.facts && StatesAtMost(constraints[CEILING], r.facts[CEILING])
  }

  lemma CeilingCovers(constraints: ConstraintMap, r: Request)
    requires Valid(constraints) && Satisfied(constraints, RequestFacts(r))
    ensures WithinCeiling(constraints, r)
  {
    SatisfiedExactly(constraints, RequestFacts(r));
    FactsExactly(r);
  }

  lemma InsideHolds(config: Config, issuing: Usecase.Config, states: seq<ControlPlane.System>, i: nat, id: Id, cache: Cache, replay: Replay, r: Request)
    requires Middleware.ConfigOk(config) && Usecase.ConfigOk(issuing) && ControlPlane.Run(issuing, states) && i < |states|
    requires Forest(states[i].store.leases) && id in states[i].store.leases && TokenOf(issuing, states[i].store.leases[id], r.token)
    requires Authorize(config, cache, replay, r).2.Ok?
    ensures Inside(config, states[i].store, id, r)
  {
    var s, d := states[i].store, Demand(r.action, r.resource, RequestFacts(r), r.now);
    ReachableConstraintsValid(issuing, states, i, id);
    forall a | a in Chain(s.leases, id)
      ensures a in s.leases && Admitted(s.leases[a], config.audience, d, config.clockSkew) && WithinCeiling(s.leases[a].constraints, r)
    {
      EndToEnd.AdmittedInsideGrant(config, issuing, states, i, id, a, cache, replay, r);
      CeilingCovers(s.leases[a].constraints, r);
    }
    assert id in Chain(s.leases, id);
    EndToEnd.AdmittedInsideGrant(config, issuing, states, i, id, id, cache, replay, r);
    CeilingCovers(s.workloads[s.leases[id].rootWorkload].grant.constraints, r);
  }

  lemma ReachableConstraintsValid(issuing: Usecase.Config, states: seq<ControlPlane.System>, i: nat, id: Id)
    requires ControlPlane.Run(issuing, states) && i < |states|
    ensures forall a | a in states[i].store.leases :: Valid(states[i].store.leases[a].constraints)
    ensures forall w | w in states[i].store.workloads :: Valid(states[i].store.workloads[w].grant.constraints)
  {
    ControlPlane.RunGood(issuing, states, i);
    var s := states[i].store;
    forall a | a in s.leases ensures Valid(s.leases[a].constraints) {
      assert Authorized(issuing, s, s.leases[a]);
    }
    forall w | w in s.workloads ensures Valid(s.workloads[w].grant.constraints) {
      assert GrantFits(issuing, s.workloads[w]);
    }
  }

  /** Every admission, with whatever token: it is the token of a stored lease, and the request is inside that lease, its
      ancestors and the grant of the root workload. */
  lemma EveryAdmissionInside(config: Config, issuing: Usecase.Config, states: seq<ControlPlane.System>, i: nat, cache: Cache, replay: Replay, r: Request)
    requires Middleware.ConfigOk(config) && Usecase.ConfigOk(issuing) && ControlPlane.Run(issuing, states) && i < |states|
    requires Forest(states[i].store.leases) && Genuine(issuing, states[i].store, r.token)
    ensures Authorize(config, cache, replay, r).2.Ok? ==>
              exists id :: id in states[i].store.leases && TokenOf(issuing, states[i].store.leases[id], r.token) && Inside(config, states[i].store, id, r)
  {
    if Authorize(config, cache, replay, r).2.Ok? {
      AdmittedVerified(config, cache, replay, r);
      var id :| id in states[i].store.leases && TokenOf(issuing, states[i].store.leases[id], r.token);
      InsideHolds(config, issuing, states, i, id, cache, replay, r);
    }
  }

  /** The revocations that are cacheTtl + latency old say nothing against the request, or its list was read after its
      lease had expired. */
  ghost predicate NotLateRevoked(config: Config, latency: Duration, w: EndToEnd.World, id: Id, r: Request)
    requires Forest(w.store.leases) && id in w.store.leases
  {
    (exists a :: a in Chain(w.store.leases, id) && a in w.since && w.since[a] + config.cacheTtl + latency <= w.clock) ==>
      && r.now < w.store.leases[id].expiration + config.clockSkew
      && w.store.leases[id].expiration <= WholeSecond(EndToEnd.ListTime(w, r)) <= w.clock
  }

  /** And every admission by a strict verifier, with whatever token, is under a lease that neither itself nor through an
      ancestor was revoked that long ago, but for lists read after its expiry. */
  lemma EveryAdmissionUnrevoked(config: Config, issuing: Usecase.Config, latency: Duration, worlds: seq<EndToEnd.World>, events: seq<EndToEnd.Event>,
                                states: seq<ControlPlane.System>, at: seq<nat>, i: nat, replay: Replay, r: Request)
    requires Middleware.ConfigOk(config) && config.mode == Strict && latency >= 0 && Usecase.ConfigOk(issuing)
    requires EndToEnd.Run(config, latency, worlds, events) && ControlPlane.Run(issuing, states) && EndToEnd.Follows(worlds, states, at)
    requires i < |worlds| && Forest(worlds[i].store.leases) && Genuine(issuing, worlds[i].store, r.token) && EndToEnd.Meets(worlds[i], latency, r)
    ensures Authorize(config, worlds[i].cache, replay, r).2.Ok? ==>
              exists id :: id in worlds[i].store.leases && TokenOf(issuing, worlds[i].store.leases[id], r.token)
                           && NotLateRevoked(config, latency, worlds[i], id, r)
  {
    if Authorize(config, worlds[i].cache, replay, r).2.Ok? {
      AdmittedVerified(config, worlds[i].cache, replay, r);
      var id :| id in worlds[i].store.leases && TokenOf(issuing, worlds[i].store.leases[id], r.token);
      if a :| a in Chain(worlds[i].store.leases, id) && a in worlds[i].since && worlds[i].since[a] + config.cacheTtl + latency <= worlds[i].clock {
        EndToEnd.RevocationStopsTheLineage(config, issuing, latency, worlds, events, states, at, i, a, id, replay, r);
      }
      assert NotLateRevoked(config, latency, worlds[i], id, r);
    }
  }

  // ---- The facts of a request ----

  /** The method is always the request's own; all other facts are those supplied. */
  lemma FactsExactly(r: Request)
    ensures RequestFacts(r).Keys == r.facts.Keys + {"http_method"}
    ensures RequestFacts(r)["http_method"] == UpperForm(r.httpMethod)
    ensures forall key | key in r.facts && key != "http_method" :: RequestFacts(r)[key] == r.facts[key]
    ensures CEILING in RequestFacts(r) <==> CEILING in r.facts
    ensures CEILING in r.facts ==> RequestFacts(r)[CEILING] == r.facts[CEILING]
  {
  }

  /** An admitted request states every text its token requires. */
  lemma AdmittedStates(config: Config, cache: Cache, replay: Replay, r: Request, key: string)
    ensures Authorize(config, cache, replay, r).2.Ok? && r.token.Signed? && key in r.token.claims.ups.constraints && key != CEILING ==>
              key in RequestFacts(r) && RequestFacts(r)[key] == r.token.claims.ups.constraints[key]
  {
    AdmittedVerified(config, cache, replay, r);
    if r.token.Signed? && Authorize(config, cache, replay, r).2.Ok? {
      SatisfiedExactly(r.token.claims.ups.constraints, RequestFacts(r));
    }
  }

  /** So a lease for one method admits only that method, whatever facts the application supplies. */
  lemma MethodCannotBeReplaced(config: Config, cache: Cache, replay: Replay, r: Request)
    ensures Authorize(config, cache, replay, r).2.Ok? && r.token.Signed? && "http_method" in r.token.claims.ups.constraints ==>
              r.token.claims.ups.constraints["http_method"] == UpperForm(r.httpMethod)
  {
    AdmittedStates(config, cache, replay, r, "http_method");
    FactsExactly(r);
  }

  // ---- Revocation answers ----

  /** A response that replaces or confirms the cache. */
  ghost predicate Usable(config: Config, cache: Cache, fetch: Fetch, received: Time) {
    match fetch
    case Failed => false
    case NotModified => cache.fetched != 0
    case Snapshot(ids, generatedAt, _) => generatedAt != 0 && generatedAt <= received + config.clockSkew && "" !in ids
  }

  /** The last snapshot may still answer for a response that failed. */
  ghost predicate StaleUsable(config: Config, cache: Cache, fetch: Fetch, received: Time) {
    && config.mode == BoundedStale && (fetch.Failed? || (fetch.NotModified? && cache.fetched == 0))
    && cache.fetched != 0 && received - cache.fetched <= config.maxStaleness
  }

  /** In expiry-only mode every lease is answered not revoked. Otherwise there is an answer exactly from a fresh cache, a
      usable response, or in bounded-stale mode a snapshot young enough; it is membership in the set used; and the cache
      changes exactly by a usable response. */
  lemma AnswersExactly(config: Config, cache: Cache, lease: Id, now: Time, fetch: Fetch, received: Time)
    ensures var (after, answer) := IsRevoked(config, cache, lease, now, fetch, received);
            if config.mode == ExpiryOnly then answer == Some(false) && after == cache
            else
              var refreshed := cache.expires <= now && Usable(config, cache, fetch, received);
              && (answer.Some? <==> now < cache.expires || refreshed || StaleUsable(config, cache, fetch, received))
              && (answer.Some? ==> answer.value == (lease in (if refreshed && fetch.Snapshot? then fetch.ids else cache.revoked)))
              && after == (if !refreshed then cache
                           else Cache(if fetch.Snapshot? then fetch.ids else cache.revoked, received + config.cacheTtl, received,
                                      if fetch.Snapshot? then fetch.etag else cache.etag))
  {
  }

  // ---- Refusals ----

  /** Why the token of a request does not verify, where the answer tells: it is out of time, or for another audience. */
  lemma TokenErrorsExactly(token: Token, issuer: string, audience: string, leeway: Duration, now: Time)
    requires issuer != "" && audience != "" && leeway >= 0 && Size(token) <= 16384
    ensures var r := VerifyLeaseToken(token, issuer, audience, leeway, now);
            && (r == Err(TokenExpired) <==> token.Signed? && token.claims.expiresAt.Some? && token.claims.expiresAt.value + leeway <= now)
            && (r == Err(BadAudience) <==>
                  && token.Signed? && audience !in token.claims.audience
                  && (token.claims.expiresAt.Some? ==> now < token.claims.expiresAt.value + leeway)
                  && (token.claims.notBefore.Some? ==> token.claims.notBefore.value - leeway <= now))
  {
  }

  /** The request reaches the verification of its token. */
  ghost predicate Enters(r: Request) {
    r.action != "" && r.resource != "" && 0 < Size(r.token) <= 16384 && HeaderOk(r.token)
  }

  /** Each refusal, exactly: the first check that fails gives the code. */
  lemma RefusalsExactly(config: Config, cache: Cache, replay: Replay, r: Request)
    ensures var result := Authorize(config, cache, replay, r).2;
            var verified := VerifyLeaseToken(r.token, config.issuer, config.audience, config.clockSkew, r.now);
            var checked := Enters(r) && r.keyKnown && verified.Ok?;
            var expired := verified == Err(TokenExpired);
            var elsewhere := verified == Err(BadAudience);
            && (result == Err(TokenIsExpired) <==> Enters(r) && r.keyKnown && expired)
            && (result == Err(WrongAudience) <==> Enters(r) && r.keyKnown && elsewhere)
            && (result == Err(BadSignature) <==> !Enters(r) || (r.keyKnown && verified.Err? && !expired && !elsewhere))
            && (Enters(r) && !r.keyKnown ==> result == Err(Unavailable))
            && (checked ==>
                  var claims := verified.value;
                  var proven := VerifyProof(config, replay, r, claims).1;
                  var answer := IsRevoked(config, cache, claims.ups.leaseId, r.asked, r.fetch, r.received).1;
                  var live := proven && answer == Some(false);
                  var acts := live && r.action in claims.ups.actions;
                  var reaches := acts && exists p :: p in claims.ups.resources && Allows(p, r.resource);
                  var fulfils := reaches && Satisfied(claims.ups.constraints, RequestFacts(r));
                  var asks := r.consumer != NotConfigured && r.idempotencyKey != "";
                  && (result == Err(ProofRequired) <==> !proven)
                  && (result == Err(LeaseIsRevoked) <==> proven && answer == Some(true))
                  && (result == Err(InsufficientAction) <==> live && !acts)
                  && (result == Err(ResourceOutOfScope) <==> acts && !reaches)
                  && (result == Err(ConstraintNotSatisfied) <==> reaches && !fulfils)
                  && (result == Err(UsesExceeded) <==> fulfils && claims.ups.maxUses > 0 && asks && r.consumer == RefusesUse)
                  && (result == Err(Unavailable) <==>
                        (proven && answer == None) || (fulfils && claims.ups.maxUses > 0 && (!asks || r.consumer == Unreachable)))
                  && (result == Ok(claims) <==> fulfils && (claims.ups.maxUses > 0 ==> asks && r.consumer == Consumes)))
  {
    if Enters(r) && r.keyKnown {
      var verified := VerifyLeaseToken(r.token, config.issuer, config.audience, config.clockSkew, r.now);
      if verified.Ok? {
        DecisionsExactly(config, cache, replay, r, verified.value);
      }
    }
  }

  lemma DecisionsExactly(config: Config, cache: Cache, replay: Replay, r: Request, claims: LeaseClaims)
    ensures var result := Decide(config, cache, replay, r, claims).2;
            var proven := VerifyProof(config, replay, r, claims).1;
            var answer := IsRevoked(config, cache, claims.ups.leaseId, r.asked, r.fetch, r.received).1;
            var live := proven && answer == Some(false);
            var acts := live && r.action in claims.ups.actions;
            var reaches := acts && exists p :: p in claims.ups.resources && Allows(p, r.resource);
            var fulfils := reaches && Satisfied(claims.ups.constraints, RequestFacts(r));
            var asks := r.consumer != NotConfigured && r.idempotencyKey != "";
            && (result == Err(ProofRequired) <==> !proven)
            && (result == Err(LeaseIsRevoked) <==> proven && answer == Some(true))
            && (result == Err(InsufficientAction) <==> live && !acts)
            && (result == Err(ResourceOutOfScope) <==> acts && !reaches)
            && (result == Err(ConstraintNotSatisfied) <==> reaches && !fulfils)
            && (result == Err(UsesExceeded) <==> fulfils && claims.ups.maxUses > 0 && asks && r.consumer == RefusesUse)
            && (result == Err(Unavailable) <==>
                  (proven && answer == None) || (fulfils && claims.ups.maxUses > 0 && (!asks || r.consumer == Unreachable)))
            && (result == Ok(claims) <==> fulfils && (claims.ups.maxUses > 0 ==> asks && r.consumer == Consumes))
            && result != Err(TokenIsExpired) && result != Err(WrongAudience) && result != Err(BadSignature)
  {
    assert ResourceAllowed(claims.ups.resources, r.resource) <==> exists p :: p in claims.ups.resources && Allows(p, r.resource);
  }
}
