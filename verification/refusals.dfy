/** The refusals of the control plane: every error names a fault of the request. */
module Refusals {
  import opened Wrappers
  import opened Text
  import opened Resource
  import opened ResourceLanguage
  import opened Constraints
  import opened Attenuation
  import opened AttenuationMeaning
  import opened Domain
  import opened LeaseToken
  import opened Lineage
  import opened Transactions
  import opened Revocation
  import opened Uses
  import opened Usecase
  import opened Authority
  import opened KeyChanges
  import opened Operations

  // ---- Minting ----

  /** The fields of a mint request are in their ranges. */
  ghost predicate ProperMint(request: MintRequest) {
    && request.workload != "" && request.audience != "" && Trimmed(request.audience) && ByteLen(request.audience) <= 256
    && 0 <= request.maxDepth <= 16 && 0 <= request.maxUses <= 1_000_000 && ByteLen(request.thumbprint) == 43
  }

  /** The lists of a request are not empty and could stand in a token. */
  ghost predicate ProperLists(actions: seq<string>, resources: seq<string>) {
    actions != [] && resources != [] && CapabilityValues(actions, false) && CapabilityValues(resources, true)
  }

  /** A second the request asks for. */
  ghost predicate HasExpiration(config: Config, now: Time, explicit: Time, ttl: Duration) {
    exists e :: AskedFor(config, now, explicit, ttl, e)
  }

  /** The root asked for, up to that second, admits nothing the grant refuses, for its audience and under its rules. */
  ghost predicate InsideGrant(w: Workload, request: MintRequest, now: Time, e: Time) {
    && now != 0 && PlainAuthority(MintContext(request, e)) && request.audience in w.grant.audiences
    && RootRules(GrantContextOf(w.grant), MintContext(request, e)) && Narrows(GrantAuthority(GrantContextOf(w.grant), now), MintContext(request, e))
  }

  lemma ExpirationRefused(config: Config, now: Time, explicit: Time, ttl: Duration)
    ensures var r := ExpirationOf(config, now, explicit, ttl);
            && (r.Err? ==> r.error == InvalidLease && !HasExpiration(config, now, explicit, ttl))
            && (r.Ok? ==> AskedFor(config, now, explicit, ttl, r.value))
  {
    if HasExpiration(config, now, explicit, ttl) {
      var e :| AskedFor(config, now, explicit, ttl, e);
      ExpirationExactly(config, now, explicit, ttl, e);
    }
  }

  /** Why the row a mint read leads to a refusal. */
  lemma PlanMintRefused(config: Config, s: Store, request: MintRequest, now: Time, id: Id, tokenId: Id)
    requires NfcLaws() && GrantsSound(config, s) && request.workload in s.workloads
    requires PlanMint(config, s.workloads[request.workload], request, now, id, tokenId).Err?
    ensures var w := s.workloads[request.workload];
      match PlanMint(config, w, request, now, id, tokenId).error
      case Unauthenticated => w.disabledAt.Some? || !GoodKey(w, request.thumbprint, now)
      case InvalidLease => !HasExpiration(config, now, request.expiration, request.ttl) || !ProperLists(request.actions, request.resources)
      case AuthorityEscalation => exists e :: AskedFor(config, now, request.expiration, request.ttl, e) && !InsideGrant(w, request, now, e)
      case _ => false
  {
    var w := s.workloads[request.workload];
    var e := ExpirationOf(config, now, request.expiration, request.ttl);
    ExpirationRefused(config, now, request.expiration, request.ttl);
    ValidateValuesExact(request.actions, request.resources);
    if e.Ok? && request.actions != [] && request.resources != [] {
      assert GrantFits(config, w);
      GrantValid(config, w.grant);
      ValidateRootIsInclusion(GrantContextOf(w.grant), request.audience, MintContext(request, e.value), now);
    }
  }

  /** A mint is refused with an error that names what is wrong with it. */
  lemma MintRefusedForItsFault(config: Config, s: Store, request: MintRequest, clock: Time, id: Id, tokenId: Id)
    requires NfcLaws() && AllAuthorized(config, s) && GrantsSound(config, s) && id != "" && tokenId != ""
    requires Mint(config, s, request, clock, id, tokenId).1.Err?
    ensures var now, stored := WholeSecond(clock), request.workload in s.workloads;
      match Mint(config, s, request, clock, id, tokenId).1.error
      case WorkloadNotFound => !stored
      case Unauthenticated => stored && (s.workloads[request.workload].disabledAt.Some? || !GoodKey(s.workloads[request.workload], request.thumbprint, now))
      case InvalidLease =>
        !ProperMint(request) || !HasExpiration(config, now, request.expiration, request.ttl) || !ProperLists(request.actions, request.resources)
      case AuthorityEscalation =>
        stored && exists e :: AskedFor(config, now, request.expiration, request.ttl, e) && !InsideGrant(s.workloads[request.workload], request, now, e)
      case Internal => !FreshIds(s, id, tokenId)
      case _ => false
  {
    if MintRequestOk(request) && request.workload in s.workloads {
      PlannedMint(config, s, request, clock, id, tokenId);
      if PlanMint(config, s.workloads[request.workload], request, WholeSecond(clock), id, tokenId).Err? {
        PlanMintRefused(config, s, request, WholeSecond(clock), id, tokenId);
      }
    }
  }

  // ---- Delegating ----

  ghost predicate ProperDelegation(request: DelegateRequest) {
    && request.parent != "" && request.parentToken != Forged("") && request.delegator != "" && request.recipient != ""
    && 0 <= request.maxUses <= 1_000_000 && ByteLen(request.thumbprint) == 43
  }

  lemma ParentRefused(config: Config, s: Store, request: DelegateRequest, now: Time, tokenNow: Time)
    requires ConfigOk(config) && AllAuthorized(config, s) && request.parent in s.leases
    requires CheckParent(config, s.leases[request.parent], request, now, tokenNow).Err?
    ensures var p := s.leases[request.parent];
      match CheckParent(config, p, request, now, tokenNow).error
      case LeaseRevoked => p.revokedAt.Some?
      case InvalidLease => p.expiration <= now
      case Unauthenticated => !ShowsParent(config, p, request, tokenNow)
      case _ => false
  {
    OwnTokenExactly(config, s, request.parent, request.parentToken, tokenNow);
  }

  lemma PlanDelegateRefused(config: Config, s: Store, request: DelegateRequest, now: Time, id: Id, tokenId: Id)
    requires NfcLaws() && AllAuthorized(config, s) && request.parent in s.leases && request.recipient in s.workloads
    requires PlanDelegate(config, s.leases[request.parent], s.workloads[request.recipient], request, now, id, tokenId).Err?
    ensures var p, recipient := s.leases[request.parent], s.workloads[request.recipient];
      match PlanDelegate(config, p, recipient, request, now, id, tokenId).error
      case Unauthenticated => recipient.disabledAt.Some?
      case InvalidLease => !HasExpiration(config, now, request.expiration, request.ttl)
      case InvalidAttenuation =>
        || request.actions == [] || request.resources == []
        || exists e :: AskedFor(config, now, request.expiration, request.ttl, e) && !ChildFits(ContextOf(p), ChildContext(p, request, e))
      case _ => false
  {
    var p := s.leases[request.parent];
    var e := ExpirationOf(config, now, request.expiration, request.ttl);
    ExpirationRefused(config, now, request.expiration, request.ttl);
    ParentShape(config, s, request.parent);
    if e.Ok? && request.actions != [] && request.resources != [] {
      ChildFitsExactly(ContextOf(p), ChildContext(p, request, e.value));
    }
  }

  /** A delegation is refused with an error that names what is wrong with it. */
  lemma DelegateRefusedForItsFault(config: Config, s: Store, request: DelegateRequest, clock: Time, tokenNow: Time, id: Id, tokenId: Id)
    requires NfcLaws() && ConfigOk(config) && AllAuthorized(config, s) && HoldersEnabled(s) && id != "" && tokenId != ""
    requires forall w | w in s.workloads :: s.workloads[w].id == w
    requires Delegate(config, s, request, clock, tokenNow, id, tokenId).1.Err?
    ensures var now, stored, known := WholeSecond(clock), request.parent in s.leases, request.recipient in s.workloads;
      match Delegate(config, s, request, clock, tokenNow, id, tokenId).1.error
      case LeaseNotFound => !stored
      case WorkloadNotFound => !known
      case LeaseRevoked => stored && s.leases[request.parent].revokedAt.Some?
      case InvalidLease => (stored && s.leases[request.parent].expiration <= now) || !HasExpiration(config, now, request.expiration, request.ttl)
      case InvalidAttenuation =>
        || request.actions == [] || request.resources == []
        || (stored && exists e :: AskedFor(config, now, request.expiration, request.ttl, e)
                                  && !ChildFits(ContextOf(s.leases[request.parent]), ChildContext(s.leases[request.parent], request, e)))
      case Unauthenticated =>
        || !ProperDelegation(request) || (known && s.workloads[request.recipient].disabledAt.Some?)
        || (stored && !ShowsParent(config, s.leases[request.parent], request, tokenNow))
        || (stored && request.delegator in s.workloads && !GoodKey(s.workloads[request.delegator], request.thumbprint, now))
      case Internal => !FreshIds(s, id, tokenId) || request.actions == [] || !(1 <= |request.resources| <= 64)
      case _ => false
  {
    var now := WholeSecond(clock);
    if DelegateRequestOk(request) && request.parent in s.leases {
      if CheckParent(config, s.leases[request.parent], request, now, tokenNow).Err? {
        ParentRefused(config, s, request, now, tokenNow);
      } else if request.recipient in s.workloads {
        if PlanDelegate(config, s.leases[request.parent], s.workloads[request.recipient], request, now, id, tokenId).Err? {
          PlanDelegateRefused(config, s, request, now, id, tokenId);
        } else {
          ChildCommitRefused(config, s, request, clock, tokenNow, id, tokenId);
        }
      }
    }
  }

  /** A planned delegation is refused for the delegator's key, the lengths of its lists or a used identifier. */
  lemma ChildCommitRefused(config: Config, s: Store, request: DelegateRequest, clock: Time, tokenNow: Time, id: Id, tokenId: Id)
    requires ConfigOk(config) && AllAuthorized(config, s) && HoldersEnabled(s) && id != "" && tokenId != "" && DelegateRequestOk(request)
    requires request.parent in s.leases && request.recipient in s.workloads && s.workloads[request.recipient].id == request.recipient
    requires CheckParent(config, s.leases[request.parent], request, WholeSecond(clock), tokenNow).Ok?
    requires PlanDelegate(config, s.leases[request.parent], s.workloads[request.recipient], request, WholeSecond(clock), id, tokenId).Ok?
    requires Delegate(config, s, request, clock, tokenNow, id, tokenId).1.Err?
    ensures var now, error := WholeSecond(clock), Delegate(config, s, request, clock, tokenNow, id, tokenId).1.error;
            || (error == Unauthenticated && request.delegator in s.workloads && !GoodKey(s.workloads[request.delegator], request.thumbprint, now))
            || (error == Internal && (!FreshIds(s, id, tokenId) || request.actions == [] || !(1 <= |request.resources| <= 64)))
  {
    var p, now := s.leases[request.parent], WholeSecond(clock);
    var recipient := s.workloads[request.recipient];
    var l := PlanDelegate(config, p, recipient, request, now, id, tokenId).value;
    ChildFields(config, p, recipient, request, now, id, tokenId);
    RootNamed(config, s, request.parent);
    ParentShape(config, s, request.parent);
    ChildRowOk(config, p, recipient, request, now, l);
    ChildCommitExactly(config, s, p, request, now, l);
  }

  // ---- Consuming ----

  /** A use is refused by the store with an error that names what is wrong with it, whatever token hash it is shown. */
  lemma SpendRefusedForItsFault(s: Store, id: Id, hash: Digest, key: string, at: Time)
    requires UsesSound(s) && 16 <= |key| <= 128 && ConsumeLeaseUse(s, id, hash, key, at).1.Err?
    ensures var held := id in s.leases && s.leases[id].workload in s.workloads;
      match ConsumeLeaseUse(s, id, hash, key, at).1.error
      case LeaseNotFound => !held
      case Unauthenticated => held && hash != s.leases[id].tokenHash
      case LeaseRevoked => held && (s.leases[id].revokedAt.Some? || s.workloads[s.leases[id].workload].disabledAt.Some?)
      case InvalidLease => held && (s.leases[id].expiration <= at || s.leases[id].maxUses == 0)
      case MaxUsesExceeded => held && key !in AcceptedKeys(s.uses, id) && |AcceptedKeys(s.uses, id)| >= s.leases[id].maxUses
      case _ => false
  {
    if id in s.leases {
      assert LeaseUses(s, id);
      if Usable(s, id, hash, at) {
        SpendExact(s, id, hash, key, at);
      }
    }
  }

  /** A consumption is refused with an error that names what is wrong with it; the store never fails it. */
  lemma ConsumeRefusedForItsFault(config: Config, s: Store, id: Id, token: Token, key: string, clock: Time, tokenNow: Time)
    requires ConfigOk(config) && AllAuthorized(config, s) && UsesSound(s)
    requires Consume(config, s, id, token, key, clock, tokenNow).1.Err?
    ensures var now, stored := WholeSecond(clock), id in s.leases;
      match Consume(config, s, id, token, key, clock, tokenNow).1.error
      case LeaseNotFound => !stored
      case Unauthenticated =>
        stored && (token != Signed(ClaimsFor(config, s.leases[id])) || EncodedSize(ClaimsFor(config, s.leases[id])) > 16384
                   || !(s.leases[id].issuedAt - config.clockSkew <= tokenNow < s.leases[id].expiration + config.clockSkew))
      case LeaseRevoked =>
        stored && (s.leases[id].revokedAt.Some? || (s.leases[id].workload in s.workloads && s.workloads[s.leases[id].workload].disabledAt.Some?))
      case InvalidLease =>
        || id == "" || token == Forged("") || !(16 <= |key| <= 128) || (exists c :: c in key && !('!' <= c <= '~'))
        || (stored && (s.leases[id].expiration <= now || s.leases[id].maxUses == 0))
      case MaxUsesExceeded => stored && key !in AcceptedKeys(s.uses, id) && |AcceptedKeys(s.uses, id)| >= s.leases[id].maxUses
      case _ => false
  {
    if KeyTextOk(key) && id in s.leases {
      StoredId(config, s, id);
      OwnTokenExactly(config, s, id, token, tokenNow);
      StoredHash(config, s, id);
      assert LeaseUses(s, id);
      if Usable(s, id, Sha256(token), WholeSecond(clock)) {
        SpendExact(s, id, Sha256(token), key, WholeSecond(clock));
      }
    }
  }

  // ---- Registering and rotating ----

  lemma PlanWorkloadRefused(config: Config, id: Id, name: string, key: Key, grant: Grant, now: Time)
    requires ConfigOk(config)
    ensures var plan := PlanWorkload(config, id, name, key, grant, now);
            if plan.Ok? then plan.value == Workload(id, name, key, None, now, now, None, grant.(version := 1))
            else plan.error == InvalidWorkload && (!Trimmed(name) || !(3 <= ByteLen(name) <= 128) || !GrantLimits(config, grant))
  {
    ValidateGrantExact(config, grant);
  }

  lemma RegistrationRefused(s: Store, w: Workload, event: AuditEvent)
    requires w.previous.None?
    ensures var r := CreateWorkload(s, w, event).1;
            && (r == Err(Internal) ==> !WorkloadRowOk(StoredWorkload(w)))
            && (r == Err(Conflict) ==>
                  w.id in s.workloads || exists k :: k in s.workloads && (s.workloads[k].name == w.name || GoodKey(s.workloads[k], w.publicKey, w.createdAt)))
            && (r.Err? ==> r.error in {Internal, Conflict})
  {
    RegistrationClash(s.workloads, w, w.createdAt);
  }

  /** A registration is refused with an error that names what is wrong with it. */
  lemma EnrollRefusedForItsFault(config: Config, s: Store, id: Id, name: string, key: Key, grant: Grant, actor: string, clock: Time)
    requires ConfigOk(config) && Enroll(config, s, id, name, key, grant, actor, clock).1.Err?
    ensures match Enroll(config, s, id, name, key, grant, actor, clock).1.error
      case InvalidWorkload => AllSpace(actor) || !Trimmed(name) || !(3 <= ByteLen(name) <= 128) || !GrantLimits(config, grant)
      case Internal => grant.maxTtl < SECOND || |name| < 3
      case Conflict => id in s.workloads || exists w :: w in s.workloads && (s.workloads[w].name == name || GoodKey(s.workloads[w], key, WholeSecond(clock)))
      case _ => false
  {
    var now := WholeSecond(clock);
    PlanWorkloadRefused(config, id, name, key, grant, now);
    var plan := PlanWorkload(config, id, name, key, grant, now);
    if plan.Ok? {
      RegisteredRowFits(config, id, name, key, grant, now);
      RegistrationRefused(s, plan.value, RegisteredEvent(plan.value, actor));
    }
  }

  /** And so is a rotation. */
  lemma RotationRefusedForItsFault(s: Store, r: Rotation, at: Time)
    requires Forest(s.leases) && Transactions.RotateWorkloadKey(s, r, at).1.Err?
    ensures match Transactions.RotateWorkloadKey(s, r, at).1.error
      case WorkloadNotFound => r.workload !in s.workloads
      case InvalidWorkload => r.workload in s.workloads && s.workloads[r.workload].disabledAt.Some?
      case Conflict => !MayRotate(s, r, at) && r.workload in s.workloads && s.workloads[r.workload].disabledAt.None?
      case _ => false
  {
    MayRotateExactly(s, r, at);
  }
}
