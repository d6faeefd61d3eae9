/** internal/usecase: the object the handlers call, over the repository. */
module Service {
  import opened Wrappers
  import opened Text
  import opened Attenuation
  import opened Domain
  import opened LeaseToken
  import opened Repository
  import opened Usecase
  import opened ControlPlane
  import opened Operations
  import T = Transactions

  class LeaseUsecase {
    const config: Config
    const repository: LeaseRepository

    /** The whole invariant of the control plane, at a moment of the clock. */
    ghost predicate Valid(clock: Time)
      reads this, repository
    {
      StoreSound(config, repository.Tables(), clock)
    }

    constructor (config: Config, repository: LeaseRepository)
      requires ConfigOk(config)
      ensures this.config == config && this.repository == repository
      ensures repository.Tables() == T.EMPTY_STORE ==> forall clock :: Valid(clock)
    {
      this.config := config;
      this.repository := repository;
      new;
      forall clock ensures StoreSound(config, T.EMPTY_STORE, clock) {
        EmptyStoreSound(config, clock);
      }
    }

    /** What one call leaves valid is valid for a later one. */
    lemma ValidLater(clock: Time, later: Time)
      requires Valid(clock) && clock <= later
      ensures Valid(later)
    {
      StoreSoundLater(config, repository.Tables(), clock, later);
    }

    method RegisterWorkload(id: Id, name: string, key: Key, grant: Grant, actor: string, clock: Time) returns (r: Result<Workload, DomainError>)
      requires Valid(clock)
      modifies repository
      ensures Valid(clock)
      ensures (repository.Tables(), r) == Enroll(config, old(repository.Tables()), id, name, key, grant, actor, clock)
    {
      EnrollKeepsSound(config, repository.Tables(), id, name, key, grant, actor, clock);
      if AllSpace(actor) {
        return Err(InvalidWorkload);
      }
      var plan := PlanWorkload(config, id, name, key, grant, WholeSecond(clock));
      if plan.Err? {
        return plan;
      }
      var outcome := repository.CreateWorkload(plan.value, RegisteredEvent(plan.value, actor));
      if outcome.Err? {
        return Err(outcome.error);
      }
      r := Ok(plan.value);
    }

    method IssueLease(l: Lease, thumbprint: string, event: AuditEvent) returns (r: Result<IssuedLease, DomainError>)
      requires repository.Valid()
      modifies repository
      ensures repository.Valid()
      ensures (repository.Tables(), r) == Issue(config, old(repository.Tables()), l, thumbprint, event)
    {
      if l.tokenId == "" || l.rootLease == "" || l.rootWorkload == "" {
        return Err(InvalidLease);
      }
      var outcome := repository.CreateLease(l, thumbprint, event);
      if outcome.Err? {
        return Err(outcome.error);
      }
      r := Ok(IssuedLease(l, Signed(ClaimsFor(config, l))));
    }

    method MintRootLease(request: MintRequest, clock: Time, id: Id, tokenId: Id) returns (r: Result<IssuedLease, DomainError>)
      requires Valid(clock) && id != "" && tokenId != ""
      modifies repository
      ensures Valid(clock)
      ensures (repository.Tables(), r) == Mint(config, old(repository.Tables()), request, clock, id, tokenId)
    {
      MintKeepsSound(config, repository.Tables(), request, clock, id, tokenId);
      var now := WholeSecond(clock);
      if !MintRequestOk(request) {
        return Err(InvalidLease);
      }
      if request.workload !in repository.workloads {
        return Err(WorkloadNotFound);
      }
      var plan := PlanMint(config, repository.workloads[request.workload], request, now, id, tokenId);
      if plan.Err? {
        return Err(plan.error);
      }
      r := IssueLease(plan.value, request.thumbprint, MintEvent(plan.value));
    }

    method DelegateLease(request: DelegateRequest, clock: Time, tokenNow: Time, id: Id, tokenId: Id) returns (r: Result<IssuedLease, DomainError>)
      requires Valid(clock) && id != "" && tokenId != ""
      modifies repository
      ensures Valid(clock)
      ensures (repository.Tables(), r) == Delegate(config, old(repository.Tables()), request, clock, tokenNow, id, tokenId)
    {
      DelegateKeepsSound(config, repository.Tables(), request, clock, tokenNow, id, tokenId);
      if !DelegateRequestOk(request) {
        return Err(Unauthenticated);
      }
      if request.parent !in repository.leases {
        return Err(LeaseNotFound);
      }
      var parent := repository.leases[request.parent];
      var now := WholeSecond(clock);
      var checked := CheckParent(config, parent, request, now, tokenNow);
      if checked.Err? {
        return Err(checked.error);
      }
      if request.recipient !in repository.workloads {
        return Err(WorkloadNotFound);
      }
      var plan := PlanDelegate(config, parent, repository.workloads[request.recipient], request, now, id, tokenId);
      if plan.Err? {
        return Err(plan.error);
      }
      r := IssueLease(plan.value, request.thumbprint, DelegateEvent(plan.value, parent.workload));
    }

    method ConsumeLease(lease: Id, token: Token, key: string, clock: Time, tokenNow: Time) returns (r: Result<T.Consumption, DomainError>)
      requires Valid(clock)
      modifies repository
      ensures Valid(clock)
      ensures (repository.Tables(), r) == Consume(config, old(repository.Tables()), lease, token, key, clock, tokenNow)
    {
      ConsumeKeepsSound(config, repository.Tables(), lease, token, key, clock, tokenNow);
      var keyOk := ValidIdempotencyKey(key);
      if lease == "" || token == Forged("") || !keyOk {
        return Err(InvalidLease);
      }
      if lease !in repository.leases {
        return Err(LeaseNotFound);
      }
      var row := repository.leases[lease];
      var claims := VerifyLeaseToken(token, config.issuer, row.audience, config.clockSkew, tokenNow);
      if claims.Err? || !ParentTokenMatches(row, token, claims.value) {
        return Err(Unauthenticated);
      }
      r := repository.ConsumeLeaseUse(lease, Sha256(token), key, WholeSecond(clock));
    }

    method AuthenticateWorkload(workload: Id, timestamp: Time, nonce: string, signer: Key, clock: Time, databaseNow: Time)
      returns (r: Result<Key, DomainError>)
      requires Valid(clock)
      modifies repository
      ensures Valid(clock)
      ensures (repository.Tables(), r) == Authenticate(config, old(repository.Tables()), workload, timestamp, nonce, signer, clock, databaseNow)
    {
      AuthenticateKeepsSound(config, repository.Tables(), workload, timestamp, nonce, signer, clock, databaseNow);
      r := CheckSignedRequest(workload, timestamp, nonce, signer, clock, databaseNow);
    }

    /** The checks of a signed request, which need no more than well-formed tables. */
    method CheckSignedRequest(workload: Id, timestamp: Time, nonce: string, signer: Key, clock: Time, databaseNow: Time)
      returns (r: Result<Key, DomainError>)
      requires repository.Valid()
      modifies repository
      ensures (repository.Tables(), r) == Authenticate(config, old(repository.Tables()), workload, timestamp, nonce, signer, clock, databaseNow)
    {
      var nonceOk := ValidNonce(nonce);
      if workload == "" || timestamp == 0 || !nonceOk || !InWindow(timestamp, clock, config.requestWindow) {
        return Err(Unauthenticated);
      }
      if workload !in repository.workloads || repository.workloads[workload].disabledAt.Some? {
        return Err(Unauthenticated);
      }
      var key := AuthenticatedKey(repository.workloads[workload], signer, WholeSecond(clock));
      if key.None? {
        return Err(Unauthenticated);
      }
      var outcome := repository.ConsumeWorkloadNonce(workload, nonce, timestamp + config.requestWindow, databaseNow);
      if outcome.Err? {
        return Err(outcome.error);
      }
      r := Ok(key.value);
    }
  }
}
