/** The operations when nothing else commits in between: that they are runs of the control plane's steps, and exactly
    when they succeed. */
module Operations {
  import opened Wrappers
  import opened Text
  import opened Resource
  import opened ResourceLanguage
  import opened Constraints
  import opened Attenuation
  import opened AttenuationMeaning
  import opened Domain
  import opened LeaseToken
  import opened Lineage
  import opened Transactions
  import opened Evolution
  import opened Revocation
  import opened Keys
  import opened Uses
  import opened Usecase
  import opened Authority
  import opened ControlPlane

  // ---- Uninterrupted steps ----

  /** The control plane with no request under way. */
  ghost function Alone(s: Store, clock: Time): System {
    System(s, clock, {}, s.uses.Keys)
  }

  lemma AloneGood(config: Config, s: Store, clock: Time)
    requires StoreSound(config, s, clock)
    ensures Good(config, Alone(s, clock))
  {
  }

  /** Start, read and plan, and commit if there is a plan. */
  ghost function MintSteps(config: Config, sys: System, request: MintRequest, id: Id, tokenId: Id): System
    requires Forest(sys.store.leases)
  {
    var started := Do(config, sys, StartMint(request));
    var read := ReadGrantAndPlan(Minting(request, WholeSecond(sys.clock)), id, tokenId);
    var plan := FlightOf(config, started, read);
    var planned := Do(config, started, read);
    if MintRequestOk(request) && plan.Some? then Do(config, planned, Commit(plan.value)) else planned
  }

  /** Fetch the parent, check it, read the recipient and plan, and commit if there is a plan. */
  ghost function DelegateSteps(config: Config, sys: System, request: DelegateRequest, tokenNow: Time, id: Id, tokenId: Id): System
    requires Forest(sys.store.leases)
  {
    var fetched := FlightOf(config, sys, FetchParent(request));
    var next := Do(config, sys, FetchParent(request));
    if fetched.None? then next else CheckSteps(config, next, fetched.value, tokenNow, id, tokenId)
  }

  ghost function CheckSteps(config: Config, sys: System, fetched: Flight, tokenNow: Time, id: Id, tokenId: Id): System
    requires Forest(sys.store.leases)
  {
    var checked := FlightOf(config, sys, CheckFetched(fetched, tokenNow));
    var next := Do(config, sys, CheckFetched(fetched, tokenNow));
    if checked.None? then next else PlanSteps(config, next, checked.value, id, tokenId)
  }

  ghost function PlanSteps(config: Config, sys: System, checked: Flight, id: Id, tokenId: Id): System
    requires Forest(sys.store.leases)
  {
    var plan := FlightOf(config, sys, ReadRecipientAndPlan(checked, id, tokenId));
    var next := Do(config, sys, ReadRecipientAndPlan(checked, id, tokenId));
    if plan.None? then next else Do(config, next, Commit(plan.value))
  }

  /** A step that only starts or advances a request leaves tables and clock alone. */
  lemma RequestStep(config: Config, sys: System, step: Step)
    requires Forest(sys.store.leases) && TxnOf(config, sys, step).None? && !step.Tick?
    ensures var next, flight := Do(config, sys, step), FlightOf(config, sys, step);
            && next.store == sys.store && next.clock == sys.clock
            && (flight.Some? ==> flight.value in next.flights)
  {
  }

  lemma CommitStep(config: Config, sys: System, flight: Flight)
    requires Forest(sys.store.leases) && flight in sys.flights && flight.Planned?
    ensures Do(config, sys, Commit(flight)).store == CreateLease(sys.store, flight.lease, flight.thumbprint, flight.event).0
  {
  }

  /** A mint that nothing interrupts is those steps. */
  lemma MintIsSteps(config: Config, sys: System, request: MintRequest, id: Id, tokenId: Id)
    requires Forest(sys.store.leases) && sys.flights == {} && id != "" && tokenId != ""
    ensures MintSteps(config, sys, request, id, tokenId).store == Mint(config, sys.store, request, sys.clock, id, tokenId).0
  {
    var started := Do(config, sys, StartMint(request));
    var read := ReadGrantAndPlan(Minting(request, WholeSecond(sys.clock)), id, tokenId);
    RequestStep(config, sys, StartMint(request));
    RequestStep(config, started, read);
    if MintRequestOk(request) && FlightOf(config, started, read).Some? {
      CommitStep(config, Do(config, started, read), FlightOf(config, started, read).value);
    }
  }

  /** And so is a delegation. */
  lemma DelegateIsSteps(config: Config, sys: System, request: DelegateRequest, tokenNow: Time, id: Id, tokenId: Id)
    requires AllAuthorized(config, sys.store) && id != "" && tokenId != ""
    ensures DelegateSteps(config, sys, request, tokenNow, id, tokenId).store
            == Delegate(config, sys.store, request, sys.clock, tokenNow, id, tokenId).0
  {
    RequestStep(config, sys, FetchParent(request));
    if DelegateRequestOk(request) && request.parent in sys.store.leases {
      var parent := sys.store.leases[request.parent];
      RootNamed(config, sys.store, request.parent);
      CheckIsSteps(config, Do(config, sys, FetchParent(request)), request, parent, tokenNow, id, tokenId);
    }
  }

  lemma CheckIsSteps(config: Config, sys: System, request: DelegateRequest, parent: Lease, tokenNow: Time, id: Id, tokenId: Id)
    requires Forest(sys.store.leases) && parent.rootLease != "" && parent.rootWorkload != "" && id != "" && tokenId != ""
    requires ParentFetched(request, parent) in sys.flights
    ensures CheckSteps(config, sys, ParentFetched(request, parent), tokenNow, id, tokenId).store
            == if CheckParent(config, parent, request, WholeSecond(sys.clock), tokenNow).Err? || request.recipient !in sys.store.workloads
               then sys.store
               else
                 var plan := PlanDelegate(config, parent, sys.store.workloads[request.recipient], request, WholeSecond(sys.clock), id, tokenId);
                 if plan.Err? then sys.store else Issue(config, sys.store, plan.value, request.thumbprint, DelegateEvent(plan.value, parent.workload)).0
  {
    var check := CheckFetched(ParentFetched(request, parent), tokenNow);
    RequestStep(config, sys, check);
    if FlightOf(config, sys, check).Some? {
      PlanIsSteps(config, Do(config, sys, check), request, parent, id, tokenId);
    }
  }

  lemma PlanIsSteps(config: Config, sys: System, request: DelegateRequest, parent: Lease, id: Id, tokenId: Id)
    requires Forest(sys.store.leases) && parent.rootLease != "" && parent.rootWorkload != "" && id != "" && tokenId != ""
    requires ParentChecked(request, parent, WholeSecond(sys.clock)) in sys.flights
    ensures PlanSteps(config, sys, ParentChecked(request, parent, WholeSecond(sys.clock)), id, tokenId).store
            == if request.recipient !in sys.store.workloads then sys.store
               else
                 var plan := PlanDelegate(config, parent, sys.store.workloads[request.recipient], request, WholeSecond(sys.clock), id, tokenId);
                 if plan.Err? then sys.store else Issue(config, sys.store, plan.value, request.thumbprint, DelegateEvent(plan.value, parent.workload)).0
  {
    var read := ReadRecipientAndPlan(ParentChecked(request, parent, WholeSecond(sys.clock)), id, tokenId);
    RequestStep(config, sys, read);
    var flight := FlightOf(config, sys, read);
    if flight.Some? {
      CommitStep(config, Do(config, sys, read), flight.value);
    }
  }

  lemma RootNamed(config: Config, s: Store, id: Id)
    requires AllAuthorized(config, s) && id in s.leases
    ensures s.leases[id].rootLease != "" && s.leases[id].rootWorkload != ""
  {
    assert Authorized(config, s, s.leases[id]);
  }

  // ---- What the operations keep ----

  lemma StepKeepsSound(config: Config, sys: System, step: Step)
    requires Good(config, sys)
    ensures Good(config, Do(config, sys, step)) && Evolves(sys.store, Do(config, sys, step).store)
    ensures step.Tick? || Do(config, sys, step).clock == sys.clock
  {
    StepKeepsGood(config, sys, step);
  }

  lemma MintKeepsSound(config: Config, s: Store, request: MintRequest, clock: Time, id: Id, tokenId: Id)
    requires StoreSound(config, s, clock) && id != "" && tokenId != ""
    ensures StoreSound(config, Mint(config, s, request, clock, id, tokenId).0, clock)
  {
    AloneGood(config, s, clock);
    MintIsSteps(config, Alone(s, clock), request, id, tokenId);
    MintStepsGood(config, Alone(s, clock), request, id, tokenId);
  }

  lemma MintStepsGood(config: Config, sys: System, request: MintRequest, id: Id, tokenId: Id)
    requires Good(config, sys)
    ensures var next := MintSteps(config, sys, request, id, tokenId); Good(config, next) && next.clock == sys.clock
  {
    StepKeepsSound(config, sys, StartMint(request));
    ReadStepsGood(config, Do(config, sys, StartMint(request)), Minting(request, WholeSecond(sys.clock)), id, tokenId);
  }

  lemma ReadStepsGood(config: Config, sys: System, minting: Flight, id: Id, tokenId: Id)
    requires Good(config, sys)
    ensures var read := ReadGrantAndPlan(minting, id, tokenId);
            var plan, next := FlightOf(config, sys, read), Do(config, sys, read);
            && Good(config, next) && next.clock == sys.clock
            && (plan.Some? ==> Good(config, Do(config, next, Commit(plan.value))) && Do(config, next, Commit(plan.value)).clock == sys.clock)
  {
    var read := ReadGrantAndPlan(minting, id, tokenId);
    StepKeepsSound(config, sys, read);
    if FlightOf(config, sys, read).Some? {
      StepKeepsSound(config, Do(config, sys, read), Commit(FlightOf(config, sys, read).value));
    }
  }

  lemma DelegateStepsGood(config: Config, sys: System, request: DelegateRequest, tokenNow: Time, id: Id, tokenId: Id)
    requires Good(config, sys)
    ensures var next := DelegateSteps(config, sys, request, tokenNow, id, tokenId); Good(config, next) && next.clock == sys.clock
  {
    StepKeepsSound(config, sys, FetchParent(request));
    if FlightOf(config, sys, FetchParent(request)).Some? {
      CheckStepsGood(config, Do(config, sys, FetchParent(request)), FlightOf(config, sys, FetchParent(request)).value, tokenNow, id, tokenId);
    }
  }

  lemma CheckStepsGood(config: Config, sys: System, fetched: Flight, tokenNow: Time, id: Id, tokenId: Id)
    requires Good(config, sys)
    ensures var next := CheckSteps(config, sys, fetched, tokenNow, id, tokenId); Good(config, next) && next.clock == sys.clock
  {
    var check := CheckFetched(fetched, tokenNow);
    StepKeepsSound(config, sys, check);
    if FlightOf(config, sys, check).Some? {
      PlanStepsGood(config, Do(config, sys, check), FlightOf(config, sys, check).value, id, tokenId);
    }
  }

  lemma PlanStepsGood(config: Config, sys: System, checked: Flight, id: Id, tokenId: Id)
    requires Good(config, sys)
    ensures var next := PlanSteps(config, sys, checked, id, tokenId); Good(config, next) && next.clock == sys.clock
  {
    var read := ReadRecipientAndPlan(checked, id, tokenId);
    StepKeepsSound(config, sys, read);
    if FlightOf(config, sys, read).Some? {
      StepKeepsSound(config, Do(config, sys, read), Commit(FlightOf(config, sys, read).value));
    }
  }

  lemma DelegateKeepsSound(config: Config, s: Store, request: DelegateRequest, clock: Time, tokenNow: Time, id: Id, tokenId: Id)
    requires StoreSound(config, s, clock) && id != "" && tokenId != ""
    ensures StoreSound(config, Delegate(config, s, request, clock, tokenNow, id, tokenId).0, clock)
  {
    AloneGood(config, s, clock);
    DelegateIsSteps(config, Alone(s, clock), request, tokenNow, id, tokenId);
    DelegateStepsGood(config, Alone(s, clock), request, tokenNow, id, tokenId);
  }

  // ---- Exactly when they succeed ----

  /** The moment or the lifetime asked for, never both, falls in this second. */
  predicate AskedFor(config: Config, now: Time, explicit: Time, ttl: Duration, e: Time) {
    (explicit == 0) != (ttl == 0) && FitsExpiration(config, now, if explicit == 0 then now + ttl else explicit, e)
  }

  lemma ExpirationExactly(config: Config, now: Time, explicit: Time, ttl: Duration, e: Time)
    ensures AskedFor(config, now, explicit, ttl, e) <==> ExpirationOf(config, now, explicit, ttl) == Ok(e)
  {
    var r := ExpirationOf(config, now, explicit, ttl);
    if AskedFor(config, now, explicit, ttl, e) {
      if r.Ok? {
        WholeSecondUnique(if explicit == 0 then now + ttl else explicit, e, r.value);
      }
    }
  }

  lemma WholeSecondUnique(asked: Time, e: Time, f: Time)
    requires e % SECOND == 0 && f % SECOND == 0 && e <= asked < e + SECOND && f <= asked < f + SECOND
    ensures e == f
  {
  }

  /** Identifiers no stored lease uses. */
  ghost predicate FreshIds(s: Store, id: Id, tokenId: Id) {
    id !in s.leases && forall k | k in s.leases :: s.leases[k].tokenId != tokenId
  }

  /** A stored token is the token of one lease, so only identifiers can clash. */
  lemma ClashExactly(config: Config, s: Store, l: Lease)
    requires AllAuthorized(config, s) && l.tokenHash == Sha256(Signed(ClaimsFor(config, l)))
    ensures LeaseRowClashes(s.leases, l) <==> !FreshIds(s, l.id, l.tokenId)
  {
    forall k | k in s.leases && s.leases[k].tokenHash == l.tokenHash ensures k == l.id {
      assert Authorized(config, s, s.leases[k]);
      assert ClaimsFor(config, s.leases[k]).ups.leaseId == ClaimsFor(config, l).ups.leaseId;
    }
  }

  function MintContext(request: MintRequest, e: Time): AuthorityContext {
    AuthorityContext(request.actions, request.resources, e, 0, request.maxDepth, request.maxUses, request.constraints)
  }

  /** A root lease may be minted: an enabled workload asks with a key it accepts, for an authority inside its grant. */
  ghost predicate MintAllowed(config: Config, s: Store, request: MintRequest, now: Time, e: Time) {
    && request.workload != "" && now != 0 && request.workload in s.workloads
    && request.audience != "" && Trimmed(request.audience) && ByteLen(request.audience) <= 256
    && 0 <= request.maxDepth <= 16 && 0 <= request.maxUses <= 1_000_000 && ByteLen(request.thumbprint) == 43
    && var w := s.workloads[request.workload];
       var context := MintContext(request, e);
       && w.disabledAt.None? && Accepts(w, request.thumbprint, now) && AskedFor(config, now, request.expiration, request.ttl, e)
       && request.actions != [] && request.resources != []
       && CapabilityValues(request.actions, false) && CapabilityValues(request.resources, true)
       && PlainAuthority(context) && request.audience in w.grant.audiences && RootRules(GrantContextOf(w.grant), context)
       && Narrows(GrantAuthority(GrantContextOf(w.grant), now), context)
  }

  lemma PlanMintExactly(config: Config, s: Store, request: MintRequest, now: Time, id: Id, tokenId: Id, e: Time)
    requires NfcLaws() && GrantsSound(config, s) && MintRequestOk(request) && request.workload in s.workloads
    ensures var plan := PlanMint(config, s.workloads[request.workload], request, now, id, tokenId);
            MintAllowed(config, s, request, now, e) <==> plan.Ok? && plan.value.expiration == e
  {
    var w := s.workloads[request.workload];
    ExpirationExactly(config, now, request.expiration, request.ttl, e);
    ValidateValuesExact(request.actions, request.resources);
    if request.actions != [] && request.resources != [] {
      assert GrantFits(config, w);
      ValidateRootIsInclusion(GrantContextOf(w.grant), request.audience, MintContext(request, e), now);
      GrantValid(config, w.grant);
    }
  }

  lemma GrantValid(config: Config, g: Grant)
    requires GrantLimits(config, g)
    ensures GrantOk(GrantContextOf(g))
  {
  }

  /** The root lease asked for. */
  ghost predicate AskedRoot(config: Config, w: Workload, request: MintRequest, now: Time, id: Id, tokenId: Id, l: Lease) {
    && ContextOf(l) == MintContext(request, l.expiration) && l.id == l.rootLease == id && l.tokenId == tokenId
    && l.workload == l.rootWorkload == request.workload && l.audience == request.audience && l.parent.None? && l.delegatedBy.None?
    && l.issuedAt == now && l.revokedAt.None? && l.usesConsumed == 0 && l.grantVersion == w.grant.version
    && l.confirmation == (if request.proofOfPossession || w.grant.requireProof then Some(w.publicKey) else None)
    && l.tokenHash == Sha256(Signed(ClaimsFor(config, l)))
  }

  lemma RootFields(config: Config, w: Workload, request: MintRequest, now: Time, id: Id, tokenId: Id)
    requires PlanMint(config, w, request, now, id, tokenId).Ok? && MintRequestOk(request) && w.grant.version > 0
    ensures var l := PlanMint(config, w, request, now, id, tokenId).value;
            AskedRoot(config, w, request, now, id, tokenId, l) && LeaseRowOk(l)
  {
    ValidateValuesExact(request.actions, request.resources);
    CharactersWithinBytes(request.audience);
  }

  /** A root row is committed exactly when its identifiers are fresh. */
  lemma RootCommitExactly(config: Config, s: Store, w: Workload, request: MintRequest, now: Time, l: Lease)
    requires AllAuthorized(config, s) && request.workload in s.workloads && w == s.workloads[request.workload]
    requires AskedRoot(config, w, request, now, l.id, l.tokenId, l) && LeaseRowOk(l)
    requires w.disabledAt.None? && Accepts(w, request.thumbprint, now) && ByteLen(request.thumbprint) == 43
    ensures CreateLease(s, l, request.thumbprint, MintEvent(l))
            == if FreshIds(s, l.id, l.tokenId) then (s.(leases := s.leases[l.id := l], audit := s.audit + [MintEvent(l)]), Ok(()))
               else (s, Err(Internal))
  {
    ClashExactly(config, s, l);
  }

  /** Once planned, a mint comes down to its commit. */
  lemma PlannedMint(config: Config, s: Store, request: MintRequest, clock: Time, id: Id, tokenId: Id)
    requires AllAuthorized(config, s) && GrantsSound(config, s) && id != "" && tokenId != ""
    requires MintRequestOk(request) && request.workload in s.workloads
    ensures var w, now := s.workloads[request.workload], WholeSecond(clock);
            var plan := PlanMint(config, w, request, now, id, tokenId);
            && (plan.Err? ==> Mint(config, s, request, clock, id, tokenId) == (s, Err(plan.error)))
            && (plan.Ok? ==>
                  && AskedRoot(config, w, request, now, id, tokenId, plan.value)
                  && Mint(config, s, request, clock, id, tokenId)
                     == if FreshIds(s, id, tokenId) then
                          (s.(leases := s.leases[id := plan.value], audit := s.audit + [MintEvent(plan.value)]),
                           Ok(IssuedLease(plan.value, Signed(ClaimsFor(config, plan.value)))))
                        else (s, Err(Internal)))
  {
    var w, now := s.workloads[request.workload], WholeSecond(clock);
    var plan := PlanMint(config, w, request, now, id, tokenId);
    if plan.Ok? {
      assert GrantFits(config, w);
      RootFields(config, w, request, now, id, tokenId);
      RootCommitExactly(config, s, w, request, now, plan.value);
    }
  }

  /** A mint succeeds exactly when it is allowed and its identifiers are fresh; it then stores the lease asked for,
      returns its token, and otherwise changes nothing. */
  lemma MintExactly(config: Config, s: Store, request: MintRequest, clock: Time, id: Id, tokenId: Id)
    requires NfcLaws() && AllAuthorized(config, s) && GrantsSound(config, s) && id != "" && tokenId != ""
    ensures var (t, r) := Mint(config, s, request, clock, id, tokenId);
            var now := WholeSecond(clock);
            && (r.Ok? <==> FreshIds(s, id, tokenId) && exists e :: MintAllowed(config, s, request, now, e))
            && (r.Err? ==> t == s)
            && (r.Ok? ==>
                  var l := r.value.lease;
                  && MintAllowed(config, s, request, now, l.expiration)
                  && AskedRoot(config, s.workloads[request.workload], request, now, id, tokenId, l)
                  && t == s.(leases := s.leases[id := l], audit := s.audit + [AuditEvent(RootMinted, Some(request.workload), Some(id), request.workload, 0, now)])
                  && r.value.token == Signed(ClaimsFor(config, l)))
  {
    var now := WholeSecond(clock);
    if MintRequestOk(request) && request.workload in s.workloads {
      var plan := PlanMint(config, s.workloads[request.workload], request, now, id, tokenId);
      PlannedMint(config, s, request, clock, id, tokenId);
      MintAllowedExactly(config, s, request, now, id, tokenId);
    }
  }

  /** So an allowed mint with fresh identifiers goes through, with the expiration it was allowed for. */
  lemma MintSucceeds(config: Config, s: Store, request: MintRequest, clock: Time, id: Id, tokenId: Id, e: Time) returns (l: Lease)
    requires NfcLaws() && AllAuthorized(config, s) && GrantsSound(config, s) && id != "" && tokenId != "" && FreshIds(s, id, tokenId)
    ensures MintAllowed(config, s, request, WholeSecond(clock), e) ==>
              && request.workload in s.workloads && l.expiration == e
              && AskedRoot(config, s.workloads[request.workload], request, WholeSecond(clock), id, tokenId, l)
              && Mint(config, s, request, clock, id, tokenId)
                 == (s.(leases := s.leases[id := l], audit := s.audit + [MintEvent(l)]), Ok(IssuedLease(l, Signed(ClaimsFor(config, l)))))
  {
    var now := WholeSecond(clock);
    if MintAllowed(config, s, request, now, e) {
      PlanMintExactly(config, s, request, now, id, tokenId, e);
      PlannedMint(config, s, request, clock, id, tokenId);
      l := PlanMint(config, s.workloads[request.workload], request, now, id, tokenId).value;
    } else {
      l := *;
    }
  }

  lemma MintAllowedExactly(config: Config, s: Store, request: MintRequest, now: Time, id: Id, tokenId: Id)
    requires NfcLaws() && GrantsSound(config, s) && MintRequestOk(request) && request.workload in s.workloads
    ensures var plan := PlanMint(config, s.workloads[request.workload], request, now, id, tokenId);
            && (plan.Ok? ==> MintAllowed(config, s, request, now, plan.value.expiration))
            && (plan.Err? ==> forall e :: !MintAllowed(config, s, request, now, e))
  {
    forall e {
      PlanMintExactly(config, s, request, now, id, tokenId, e);
    }
  }

  // ---- Delegating ----

  function ChildContext(parent: Lease, request: DelegateRequest, e: Time): AuthorityContext {
    AuthorityContext(request.actions, request.resources, e, parent.depth + 1,
                     if request.maxUses > 0 then parent.depth + 1 else parent.maxDepth, request.maxUses, request.constraints)
  }

  /** The request shows the parent's own token, in time, and the parent's own key if the parent is bound to one. */
  ghost predicate ShowsParent(config: Config, parent: Lease, request: DelegateRequest, tokenNow: Time) {
    && request.delegator == parent.workload && request.parentToken == Signed(ClaimsFor(config, parent))
    && EncodedSize(ClaimsFor(config, parent)) <= MAX_TOKEN_BYTES
    && parent.issuedAt - config.clockSkew <= tokenNow < parent.expiration + config.clockSkew
    && (parent.confirmation.Some? ==> parent.confirmation.value == request.thumbprint)
  }

  lemma CheckParentExactly(config: Config, s: Store, request: DelegateRequest, now: Time, tokenNow: Time)
    requires ConfigOk(config) && AllAuthorized(config, s) && request.parent in s.leases
    ensures var parent := s.leases[request.parent];
            CheckParent(config, parent, request, now, tokenNow).Ok?
            <==> parent.revokedAt.None? && now < parent.expiration && ShowsParent(config, parent, request, tokenNow)
  {
    OwnTokenExactly(config, s, request.parent, request.parentToken, tokenNow);
  }

  /** The only token that verifies and matches a stored row is the one issued for it, in time. */
  lemma OwnTokenExactly(config: Config, s: Store, id: Id, token: Token, tokenNow: Time)
    requires ConfigOk(config) && AllAuthorized(config, s) && id in s.leases
    ensures var l := s.leases[id];
            var verified := VerifyLeaseToken(token, config.issuer, l.audience, config.clockSkew, tokenNow);
            verified.Ok? && ParentTokenMatches(l, token, verified.value)
            <==> token == Signed(ClaimsFor(config, l)) && EncodedSize(ClaimsFor(config, l)) <= MAX_TOKEN_BYTES
                 && l.issuedAt - config.clockSkew <= tokenNow < l.expiration + config.clockSkew
  {
    var l := s.leases[id];
    StoredHash(config, s, id);
    TokenRoundTrip(config, s, id);
    if EncodedSize(ClaimsFor(config, l)) <= MAX_TOKEN_BYTES {
      IssuedTokenVerifies(config, s, id, config.clockSkew, tokenNow);
    }
  }

  lemma StoredHash(config: Config, s: Store, id: Id)
    requires AllAuthorized(config, s) && id in s.leases
    ensures s.leases[id].id == id && s.leases[id].tokenHash == Sha256(Signed(ClaimsFor(config, s.leases[id])))
  {
    assert Authorized(config, s, s.leases[id]);
  }

  /** An authority that may hang below another: well formed, under its depth and use rules, admitting nothing the other
      refuses, and not written alike. */
  ghost predicate ChildFits(parent: AuthorityContext, child: AuthorityContext) {
    PlainAuthority(child) && LineageRules(parent, child) && Narrows(parent, child) && !WrittenAlike(parent, child)
  }

  lemma ChildFitsExactly(parent: AuthorityContext, child: AuthorityContext)
    requires NfcLaws() && ContextOk(parent) && child.actions != [] && child.resources != [] && |parent.resources| < FINAL_CHARACTERS
    ensures ChildFits(parent, child) <==> Validate(parent, child).Ok?
  {
    ValidateIsInclusion(parent, child);
    ContextOkExactly(parent);
  }

  /** A lease may be delegated: its live parent's holder asks, showing the parent's token and key, for an enabled
      recipient and an authority that admits nothing the parent refuses. */
  ghost predicate DelegateAllowed(config: Config, s: Store, request: DelegateRequest, now: Time, tokenNow: Time, e: Time) {
    && request.parent in s.leases && request.recipient in s.workloads
    && request.parent != "" && request.delegator != "" && request.recipient != "" && 0 <= request.maxUses <= 1_000_000
    && ByteLen(request.thumbprint) == 43
    && var p := s.leases[request.parent];
       var context := ChildContext(p, request, e);
       && p.revokedAt.None? && now < p.expiration && ShowsParent(config, p, request, tokenNow)
       && s.workloads[request.recipient].disabledAt.None?
       && p.workload in s.workloads && Accepts(s.workloads[p.workload], request.thumbprint, now)
       && AskedFor(config, now, request.expiration, request.ttl, e)
       && request.actions != [] && request.resources != [] && |request.resources| <= MAX_VALUES
       && ChildFits(ContextOf(p), context)
  }

  /** The delegated lease asked for; where it is bound to a key, to the recipient's own. */
  ghost predicate AskedChild(config: Config, p: Lease, recipient: Workload, request: DelegateRequest, now: Time, id: Id, tokenId: Id, l: Lease) {
    && ContextOf(l) == ChildContext(p, request, l.expiration) && l.id == id && l.tokenId == tokenId && l.parent == Some(p.id)
    && l.rootLease == p.rootLease && l.rootWorkload == p.rootWorkload && l.delegatedBy == Some(p.workload)
    && l.workload == request.recipient && l.audience == p.audience && l.issuedAt == now && l.revokedAt.None? && l.usesConsumed == 0
    && l.grantVersion == p.grantVersion
    && l.confirmation == (if request.proofOfPossession || p.confirmation.Some? then Some(recipient.publicKey) else None)
    && l.tokenHash == Sha256(Signed(ClaimsFor(config, l)))
  }

  lemma ChildFields(config: Config, p: Lease, recipient: Workload, request: DelegateRequest, now: Time, id: Id, tokenId: Id)
    requires PlanDelegate(config, p, recipient, request, now, id, tokenId).Ok? && recipient.id == request.recipient
    ensures var l := PlanDelegate(config, p, recipient, request, now, id, tokenId).value;
            && AskedChild(config, p, recipient, request, now, id, tokenId, l) && Validate(ContextOf(p), ContextOf(l)).Ok?
            && AskedFor(config, now, request.expiration, request.ttl, l.expiration) && recipient.disabledAt.None?
  {
    ExpirationExactly(config, now, request.expiration, request.ttl, PlanDelegate(config, p, recipient, request, now, id, tokenId).value.expiration);
  }

  /** The row constraints a planned delegation can still break concern the lengths of its two lists. */
  lemma ChildRowOk(config: Config, p: Lease, recipient: Workload, request: DelegateRequest, now: Time, l: Lease)
    requires RowShape(p) && DelegateRequestOk(request) && AskedChild(config, p, recipient, request, now, l.id, l.tokenId, l)
    requires Validate(ContextOf(p), ContextOf(l)).Ok? && now < l.expiration
    ensures LeaseRowOk(l) <==> request.actions != [] && 1 <= |request.resources| <= MAX_VALUES
  {
    ElementCount(l.actions);
    ElementCount(p.actions);
    SubsetSize(Elements(l.actions), Elements(p.actions));
  }

  lemma ChildCommitExactly(config: Config, s: Store, p: Lease, request: DelegateRequest, now: Time, l: Lease)
    requires AllAuthorized(config, s) && HoldersEnabled(s) && request.parent in s.leases && p == s.leases[request.parent]
    requires p.revokedAt.None? && now < p.expiration && p.maxUses == 0 && ByteLen(request.thumbprint) == 43
    requires request.recipient in s.workloads && s.workloads[request.recipient].disabledAt.None?
    requires AskedChild(config, p, s.workloads[request.recipient], request, now, l.id, l.tokenId, l) && l.maxDepth <= p.maxDepth
    ensures CreateLease(s, l, request.thumbprint, DelegateEvent(l, p.workload))
            == if !Accepts(s.workloads[p.workload], request.thumbprint, now) then (s, Err(Unauthenticated))
               else if LeaseRowOk(l) && FreshIds(s, l.id, l.tokenId) then
                 (s.(leases := s.leases[l.id := l], audit := s.audit + [DelegateEvent(l, p.workload)]), Ok(()))
               else (s, Err(Internal))
  {
    assert Authorized(config, s, p) && Placed(s.leases, p);
    RootStored(s.leases, p.id);
    ClashExactly(config, s, l);
  }

  lemma RootStored(leases: Leases, id: Id)
    requires Forest(leases) && id in leases
    ensures leases[id].rootLease in leases
  {
    ChainShape(leases, id);
  }

  /** Once its parent is checked, a delegation comes down to its plan and its commit. */
  lemma PlannedDelegate(config: Config, s: Store, request: DelegateRequest, clock: Time, tokenNow: Time, id: Id, tokenId: Id)
    requires AllAuthorized(config, s) && HoldersEnabled(s) && id != "" && tokenId != "" && DelegateRequestOk(request)
    requires request.parent in s.leases && request.recipient in s.workloads && s.workloads[request.recipient].id == request.recipient
    requires CheckParent(config, s.leases[request.parent], request, WholeSecond(clock), tokenNow).Ok?
    ensures var p, now := s.leases[request.parent], WholeSecond(clock);
            var plan := PlanDelegate(config, p, s.workloads[request.recipient], request, now, id, tokenId);
            var (t, r) := Delegate(config, s, request, clock, tokenNow, id, tokenId);
            && (r.Ok? <==> plan.Ok? && Accepts(s.workloads[p.workload], request.thumbprint, now)
                           && request.actions != [] && 1 <= |request.resources| <= MAX_VALUES && FreshIds(s, id, tokenId))
            && (r.Err? ==> t == s)
            && (r.Ok? ==>
                  && r.value == IssuedLease(plan.value, Signed(ClaimsFor(config, plan.value)))
                  && t == s.(leases := s.leases[id := plan.value], audit := s.audit + [DelegateEvent(plan.value, p.workload)]))
  {
    var p, now := s.leases[request.parent], WholeSecond(clock);
    var plan := PlanDelegate(config, p, s.workloads[request.recipient], request, now, id, tokenId);
    if plan.Ok? {
      var l := plan.value;
      ChildFields(config, p, s.workloads[request.recipient], request, now, id, tokenId);
      RootNamed(config, s, request.parent);
      ParentShape(config, s, request.parent);
      ChildRowOk(config, p, s.workloads[request.recipient], request, now, l);
      ChildCommitExactly(config, s, p, request, now, l);
    }
  }

  lemma ParentShape(config: Config, s: Store, id: Id)
    requires AllAuthorized(config, s) && id in s.leases
    ensures RowShape(s.leases[id]) && ContextOk(ContextOf(s.leases[id]))
  {
    assert Authorized(config, s, s.leases[id]);
  }

  /** A delegation succeeds exactly when it is allowed and its identifiers are fresh; it then stores the lease asked
      for, returns its token, and otherwise changes nothing. */
  lemma DelegateExactly(config: Config, s: Store, request: DelegateRequest, clock: Time, tokenNow: Time, id: Id, tokenId: Id)
    requires NfcLaws() && ConfigOk(config) && AllAuthorized(config, s) && HoldersEnabled(s) && id != "" && tokenId != ""
    requires forall w | w in s.workloads :: s.workloads[w].id == w
    ensures var (t, r) := Delegate(config, s, request, clock, tokenNow, id, tokenId);
            var now := WholeSecond(clock);
            && (r.Ok? <==> FreshIds(s, id, tokenId) && exists e :: DelegateAllowed(config, s, request, now, tokenNow, e))
            && (r.Err? ==> t == s)
            && (r.Ok? ==>
                  var l, p := r.value.lease, s.leases[request.parent];
                  && DelegateAllowed(config, s, request, now, tokenNow, l.expiration)
                  && AskedChild(config, p, s.workloads[request.recipient], request, now, id, tokenId, l)
                  && t == s.(leases := s.leases[id := l], audit := s.audit + [AuditEvent(Delegated, Some(request.recipient), Some(id), p.workload, 0, now)])
                  && r.value.token == Signed(ClaimsFor(config, l)))
  {
    var now := WholeSecond(clock);
    if DelegateRequestOk(request) && request.parent in s.leases {
      var p := s.leases[request.parent];
      CheckParentExactly(config, s, request, now, tokenNow);
      if CheckParent(config, p, request, now, tokenNow).Ok? && request.recipient in s.workloads {
        PlannedDelegate(config, s, request, clock, tokenNow, id, tokenId);
        DelegateAllowedExactly(config, s, request, now, tokenNow, id, tokenId);
        if Delegate(config, s, request, clock, tokenNow, id, tokenId).1.Ok? {
          ChildFields(config, p, s.workloads[request.recipient], request, now, id, tokenId);
        }
      }
    }
  }

  /** And so does an allowed delegation. */
  lemma DelegateSucceeds(config: Config, s: Store, request: DelegateRequest, clock: Time, tokenNow: Time, id: Id, tokenId: Id, e: Time)
    returns (l: Lease)
    requires NfcLaws() && ConfigOk(config) && AllAuthorized(config, s) && HoldersEnabled(s) && id != "" && tokenId != ""
    requires request.recipient in s.workloads && s.workloads[request.recipient].id == request.recipient && FreshIds(s, id, tokenId)
    ensures DelegateAllowed(config, s, request, WholeSecond(clock), tokenNow, e) ==>
              && request.parent in s.leases && l.expiration == e
              && AskedChild(config, s.leases[request.parent], s.workloads[request.recipient], request, WholeSecond(clock), id, tokenId, l)
              && Delegate(config, s, request, clock, tokenNow, id, tokenId)
                 == (s.(leases := s.leases[id := l], audit := s.audit + [DelegateEvent(l, s.leases[request.parent].workload)]),
                     Ok(IssuedLease(l, Signed(ClaimsFor(config, l)))))
  {
    var now := WholeSecond(clock);
    if DelegateAllowed(config, s, request, now, tokenNow, e) {
      var p := s.leases[request.parent];
      CheckParentExactly(config, s, request, now, tokenNow);
      PlanDelegateExactly(config, s, request, now, tokenNow, id, tokenId, e);
      PlannedDelegate(config, s, request, clock, tokenNow, id, tokenId);
      ChildFields(config, p, s.workloads[request.recipient], request, now, id, tokenId);
      l := PlanDelegate(config, p, s.workloads[request.recipient], request, now, id, tokenId).value;
    } else {
      l := *;
    }
  }

  lemma DelegateAllowedExactly(config: Config, s: Store, request: DelegateRequest, now: Time, tokenNow: Time, id: Id, tokenId: Id)
    requires NfcLaws() && ConfigOk(config) && AllAuthorized(config, s) && DelegateRequestOk(request)
    requires request.parent in s.leases && request.recipient in s.workloads && s.workloads[request.recipient].id == request.recipient
    requires s.leases[request.parent].workload in s.workloads
    requires CheckParent(config, s.leases[request.parent], request, now, tokenNow).Ok?
    ensures var p := s.leases[request.parent];
            var plan := PlanDelegate(config, p, s.workloads[request.recipient], request, now, id, tokenId);
            var more := Accepts(s.workloads[p.workload], request.thumbprint, now) && request.actions != [] && 1 <= |request.resources| <= MAX_VALUES;
            && (plan.Ok? && more ==> DelegateAllowed(config, s, request, now, tokenNow, plan.value.expiration))
            && (!(plan.Ok? && more) ==> forall e :: !DelegateAllowed(config, s, request, now, tokenNow, e))
  {
    forall e ensures DelegateAllowed(config, s, request, now, tokenNow, e)
                     <==> Plannable(config, s, request, now, id, tokenId, e) {
      PlanDelegateExactly(config, s, request, now, tokenNow, id, tokenId, e);
    }
  }

  ghost predicate Plannable(config: Config, s: Store, request: DelegateRequest, now: Time, id: Id, tokenId: Id, e: Time)
    requires request.parent in s.leases && request.recipient in s.workloads && s.leases[request.parent].workload in s.workloads
  {
    var p := s.leases[request.parent];
    var plan := PlanDelegate(config, p, s.workloads[request.recipient], request, now, id, tokenId);
    && plan.Ok? && plan.value.expiration == e && Accepts(s.workloads[p.workload], request.thumbprint, now)
    && request.actions != [] && 1 <= |request.resources| <= MAX_VALUES
  }

  lemma PlanDelegateExactly(config: Config, s: Store, request: DelegateRequest, now: Time, tokenNow: Time, id: Id, tokenId: Id, e: Time)
    requires NfcLaws() && ConfigOk(config) && AllAuthorized(config, s) && DelegateRequestOk(request)
    requires request.parent in s.leases && request.recipient in s.workloads && s.leases[request.parent].workload in s.workloads
    requires CheckParent(config, s.leases[request.parent], request, now, tokenNow).Ok?
    ensures DelegateAllowed(config, s, request, now, tokenNow, e) <==> Plannable(config, s, request, now, id, tokenId, e)
  {
    var p := s.leases[request.parent];
    CheckParentExactly(config, s, request, now, tokenNow);
    ParentShape(config, s, request.parent);
    PlanContextExactly(config, p, s.workloads[request.recipient], request, now, id, tokenId, e);
    if request.actions != [] && request.resources != [] {
      ChildFitsExactly(ContextOf(p), ChildContext(p, request, e));
    }
  }

  lemma PlanContextExactly(config: Config, p: Lease, recipient: Workload, request: DelegateRequest, now: Time, id: Id, tokenId: Id, e: Time)
    ensures var plan := PlanDelegate(config, p, recipient, request, now, id, tokenId);
            plan.Ok? && plan.value.expiration == e
            <==> recipient.disabledAt.None? && AskedFor(config, now, request.expiration, request.ttl, e)
                 && Validate(ContextOf(p), ChildContext(p, request, e)).Ok?
  {
    ExpirationExactly(config, now, request.expiration, request.ttl, e);
  }

  // ---- Consuming ----

  /** A use may be spent: the lease's own token, in time, of a live limited-use lease of an enabled holder. */
  ghost predicate Consumable(config: Config, s: Store, id: Id, token: Token, now: Time, tokenNow: Time) {
    && id in s.leases
    && var l := s.leases[id];
       && token == Signed(ClaimsFor(config, l)) && EncodedSize(ClaimsFor(config, l)) <= MAX_TOKEN_BYTES
       && l.issuedAt - config.clockSkew <= tokenNow < l.expiration + config.clockSkew
       && l.revokedAt.None? && l.workload in s.workloads && s.workloads[l.workload].disabledAt.None?
       && now < l.expiration && l.maxUses > 0
  }

  /** A consumption succeeds exactly when the use may be spent and its key is known or one of fewer than max_uses; a
      known key gets its number again and changes nothing, a new one the next number. */
  lemma ConsumeExactly(config: Config, s: Store, id: Id, token: Token, key: string, clock: Time, tokenNow: Time)
    requires ConfigOk(config) && AllAuthorized(config, s) && UsesSound(s)
    ensures var (t, r) := Consume(config, s, id, token, key, clock, tokenNow);
            var known := AcceptedKeys(s.uses, id);
            && (r.Ok? <==> 16 <= |key| <= 128 && (forall c | c in key :: '!' <= c <= '~') && Consumable(config, s, id, token, WholeSecond(clock), tokenNow)
                           && (key in known || |known| < s.leases[id].maxUses))
            && (r.Err? ==> t == s)
            && (r.Ok? ==>
                  && AcceptedKeys(t.uses, id) == known + {key} && (r.value.replayed <==> key in known)
                  && r.value == Consumption(id, key, t.uses[(id, key)], s.leases[id].maxUses, r.value.replayed)
                  && (if key in known then t == s
                      else r.value.useNumber == |known| + 1
                           && t == s.(uses := s.uses[(id, key) := |known| + 1], leases := s.leases[id := s.leases[id].(usesConsumed := |known| + 1)])))
  {
    if KeyTextOk(key) && id in s.leases {
      ConsumeVerified(config, s, id, token, key, clock, tokenNow);
      StoredHash(config, s, id);
      if Consumable(config, s, id, token, WholeSecond(clock), tokenNow) {
        SpendExact(s, id, Sha256(token), key, WholeSecond(clock));
        AcceptedMeans(s.uses, id, key);
      }
    }
  }

  lemma ConsumeVerified(config: Config, s: Store, id: Id, token: Token, key: string, clock: Time, tokenNow: Time)
    requires ConfigOk(config) && AllAuthorized(config, s) && KeyTextOk(key) && id in s.leases
    ensures var (t, r) := Consume(config, s, id, token, key, clock, tokenNow);
            var l, hash, now := s.leases[id], Sha256(token), WholeSecond(clock);
            if token == Signed(ClaimsFor(config, l)) && EncodedSize(ClaimsFor(config, l)) <= MAX_TOKEN_BYTES
               && l.issuedAt - config.clockSkew <= tokenNow < l.expiration + config.clockSkew && Usable(s, id, hash, now)
            then (t, r) == ConsumeLeaseUse(s, id, hash, key, now)
            else t == s && r.Err?
  {
    StoredId(config, s, id);
    OwnTokenExactly(config, s, id, token, tokenNow);
    UnusableRefused(s, id, Sha256(token), key, WholeSecond(clock));
  }

  lemma UnusableRefused(s: Store, id: Id, hash: Digest, key: string, at: Time)
    ensures !Usable(s, id, hash, at) ==> ConsumeLeaseUse(s, id, hash, key, at).0 == s && ConsumeLeaseUse(s, id, hash, key, at).1.Err?
  {
  }

  lemma StoredId(config: Config, s: Store, id: Id)
    requires AllAuthorized(config, s) && id in s.leases
    ensures id != "" && s.leases[id].workload in s.workloads
  {
    assert Authorized(config, s, s.leases[id]);
  }

  lemma TxnKeepsSound(config: Config, s: Store, t: Store, clock: Time, x: Txn)
    requires StoreSound(config, s, clock) && (t == s || (Proper(config, s, clock, x) && t == Apply(s, x)))
    ensures StoreSound(config, t, clock)
  {
    if t != s {
      AloneGood(config, s, clock);
      StoreKeepsGood(config, Alone(s, clock), x);
    }
  }

  lemma ConsumeSpends(config: Config, s: Store, id: Id, token: Token, key: string, clock: Time, tokenNow: Time)
    ensures var t := Consume(config, s, id, token, key, clock, tokenNow).0;
            t == s || (16 <= |key| <= 128 && t == ConsumeLeaseUse(s, id, Sha256(token), key, WholeSecond(clock)).0)
  {
  }

  lemma SpendIsTxn(config: Config, s: Store, id: Id, hash: Digest, key: string, clock: Time)
    requires Forest(s.leases) && 16 <= |key| <= 128
    ensures var x := Spend(id, hash, key, WholeSecond(clock));
            Proper(config, s, clock, x) && Apply(s, x) == ConsumeLeaseUse(s, id, hash, key, WholeSecond(clock)).0
  {
  }

  lemma ConsumeIsTxn(config: Config, s: Store, id: Id, token: Token, key: string, clock: Time, tokenNow: Time)
    requires Forest(s.leases)
    ensures var t, x := Consume(config, s, id, token, key, clock, tokenNow).0, Spend(id, Sha256(token), key, WholeSecond(clock));
            t == s || (Proper(config, s, clock, x) && t == Apply(s, x))
  {
    ConsumeSpends(config, s, id, token, key, clock, tokenNow);
    if 16 <= |key| <= 128 {
      SpendIsTxn(config, s, id, Sha256(token), key, clock);
    }
  }

  lemma ConsumeKeepsSound(config: Config, s: Store, id: Id, token: Token, key: string, clock: Time, tokenNow: Time)
    requires StoreSound(config, s, clock)
    ensures StoreSound(config, Consume(config, s, id, token, key, clock, tokenNow).0, clock)
  {
    ConsumeIsTxn(config, s, id, token, key, clock, tokenNow);
    TxnKeepsSound(config, s, Consume(config, s, id, token, key, clock, tokenNow).0, clock, Spend(id, Sha256(token), key, WholeSecond(clock)));
  }

  // ---- Registering and authenticating ----

  /** A registration succeeds exactly when actor and name are proper, the grant is inside the limits, its lifetime
      reaches a second, the id and the name are new, and no workload accepts the key; the row it stores has grant
      version 1 and whole seconds, and accepts this key alone. */
  lemma EnrollExactly(config: Config, s: Store, id: Id, name: string, key: Key, grant: Grant, actor: string, clock: Time)
    requires ConfigOk(config)
    ensures var (t, r) := Enroll(config, s, id, name, key, grant, actor, clock);
            var now := WholeSecond(clock);
            && (r.Ok? <==>
                  && !AllSpace(actor) && Trimmed(name) && 3 <= |name| && ByteLen(name) <= 128
                  && GrantLimits(config, grant) && grant.maxTtl >= SECOND
                  && id !in s.workloads && (forall w | w in s.workloads :: s.workloads[w].name != name && !Accepts(s.workloads[w], key, now)))
            && (r.Err? ==> t == s)
            && (r.Ok? ==>
                  var stored := grant.(version := 1, maxTtl := WholeSecond(grant.maxTtl));
                  t == s.(workloads := s.workloads[id := Workload(id, name, key, None, now, now, None, stored)],
                          audit := s.audit + [AuditEvent(Registered, Some(id), None, actor, 0, now)]))
  {
    var now := WholeSecond(clock);
    ValidateGrantExact(config, grant);
    CharactersWithinBytes(name);
    var plan := PlanWorkload(config, id, name, key, grant, now);
    if plan.Ok? {
      RegisteredRowFits(config, id, name, key, grant, now);
      RegistrationClash(s.workloads, plan.value, now);
    }
  }

  /** A row without a previous key clashes, or its key is taken, exactly when id or name is used or the key accepted. */
  lemma RegistrationClash(workloads: map<Id, Workload>, w: Workload, now: Time)
    requires w.previous.None?
    ensures KeyTaken(workloads, w.publicKey, now, None) || WorkloadRowClashes(workloads, w)
            <==> w.id in workloads || exists k | k in workloads :: workloads[k].name == w.name || Accepts(workloads[k], w.publicKey, now)
  {
  }

  function SmallGrant(ttl: Duration): Grant {
    Grant([['a']], [['r']], [['a'] + ['/'] + ['b']], ttl, 0, false, false, 0, map[], 1)
  }

  lemma SmallText(s: string, c: char)
    requires s == [c] && 'a' <= c <= 'z'
    ensures s != "" && ByteLen(s) == 1 && Trimmed(s)
  {
    assert s == "" + [c];
    ByteLenAppend("", c);
    LetterOk(c);
  }

  lemma SmallGrantLimits(config: Config, ttl: Duration)
    requires Nfc(['a'] + ['/'] + ['b']) && 0 < ttl <= config.maxTtl
    ensures GrantLimits(config, SmallGrant(ttl))
  {
    SmallText(['a'], 'a');
    SmallText(['r'], 'r');
    SmallPattern('a', 'b');
    assert Valid(map[]);
  }

  /** Accepted registrations that the table then refuses: half a second of lifetime, or a name that is one character
      of three bytes. */
  lemma RegistrationRefusedByTable(config: Config, id: Id, key: Key, name: string, c: char, actor: string, clock: Time)
    requires ConfigOk(config) && config.maxTtl >= SECOND && Nfc(['a'] + ['/'] + ['b']) && !AllSpace(actor)
    requires Trimmed(name) && 3 <= |name| && ByteLen(name) <= 128 && Utf8Width(c) == 3 && !IsSpace(c)
    ensures PlanWorkload(config, id, name, key, SmallGrant(SECOND / 2), WholeSecond(clock)).Ok?
    ensures Enroll(config, EMPTY_STORE, id, name, key, SmallGrant(SECOND / 2), actor, clock) == (EMPTY_STORE, Err(Internal))
    ensures PlanWorkload(config, id, [c], key, SmallGrant(SECOND), WholeSecond(clock)).Ok?
    ensures Enroll(config, EMPTY_STORE, id, [c], key, SmallGrant(SECOND), actor, clock) == (EMPTY_STORE, Err(Internal))
  {
    SmallGrantLimits(config, SECOND / 2);
    SmallGrantLimits(config, SECOND);
    ValidateGrantExact(config, SmallGrant(SECOND / 2));
    ValidateGrantExact(config, SmallGrant(SECOND));
    CharactersWithinBytes(name);
    assert [c] == "" + [c];
    ByteLenAppend("", c);
    RegisteredRowFits(config, id, name, key, SmallGrant(SECOND / 2), WholeSecond(clock));
    RegisteredRowFits(config, id, [c], key, SmallGrant(SECOND), WholeSecond(clock));
  }

  lemma EnrollKeepsSound(config: Config, s: Store, id: Id, name: string, key: Key, grant: Grant, actor: string, clock: Time)
    requires StoreSound(config, s, clock)
    ensures StoreSound(config, Enroll(config, s, id, name, key, grant, actor, clock).0, clock)
  {
    AloneGood(config, s, clock);
    StepKeepsSound(config, Alone(s, clock), RegisterWorkload(id, name, key, grant, actor, clock));
  }

  lemma AuthenticateIsTxn(config: Config, s: Store, id: Id, timestamp: Time, nonce: string, signer: Key, clock: Time, databaseNow: Time)
    requires Forest(s.leases)
    ensures var t := Authenticate(config, s, id, timestamp, nonce, signer, clock, databaseNow).0;
            var x := SpendNonce(id, nonce, timestamp + config.requestWindow, databaseNow);
            t == s || (Proper(config, s, clock, x) && t == Apply(s, x))
  {
  }

  lemma AuthenticateKeepsSound(config: Config, s: Store, id: Id, timestamp: Time, nonce: string, signer: Key, clock: Time, databaseNow: Time)
    requires StoreSound(config, s, clock)
    ensures StoreSound(config, Authenticate(config, s, id, timestamp, nonce, signer, clock, databaseNow).0, clock)
  {
    AuthenticateIsTxn(config, s, id, timestamp, nonce, signer, clock, databaseNow);
    TxnKeepsSound(config, s, Authenticate(config, s, id, timestamp, nonce, signer, clock, databaseNow).0, clock,
                  SpendNonce(id, nonce, timestamp + config.requestWindow, databaseNow));
  }

  // ---- The revocation list ----

  /** A revoked lease and everything below it is on every later list until it expires, and nothing else is. */
  lemma ListedUntilExpiry(config: Config, states: seq<System>, i: nat, j: nat, a: Id, id: Id, now: Time)
    requires Run(config, states) && i <= j < |states| && Forest(states[j].store.leases)
    requires a in states[i].store.leases && states[i].store.leases[a].revokedAt.Some?
    requires id in states[j].store.leases && a in Chain(states[j].store.leases, id)
    ensures id in ListActiveRevocations(states[j].store, now) <==> now < states[j].store.leases[id].expiration
    ensures forall k | k in ListActiveRevocations(states[j].store, now) ::
              k in states[j].store.leases && states[j].store.leases[k].revokedAt.Some?
  {
    RevocationReachesDescendants(config, states, i, j, a, id);
  }
}
