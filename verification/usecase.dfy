/** internal/usecase: issuing, delegating, authenticating and consuming. */
module Usecase {
  import opened Wrappers
  import opened Text
  import opened Resource
  import opened Constraints
  import opened Attenuation
  import opened Domain
  import opened LeaseToken
  import opened Lineage
  import T = Transactions

  const MAX_VALUE_LENGTH := 256
  const MAX_DELEGATION_DEPTH := 16
  const MAX_USES_LIMIT := 1_000_000
  const UNIX_EPOCH: Time := 62_135_596_800 * SECOND

  datatype Config = Config(issuer: string, maxTtl: Duration, clockSkew: Duration, requestWindow: Duration)

  /** What NewLeaseUsecase accepts. */
  predicate ConfigOk(c: Config) {
    && c.issuer != "" && 0 < c.maxTtl <= 24 * 60 * MINUTE && 0 <= c.clockSkew <= MINUTE
    && 0 < c.requestWindow <= 5 * MINUTE
  }

  datatype MintRequest = MintRequest(
    workload: Id, audience: string, actions: seq<string>, resources: seq<string>, expiration: Time, ttl: Duration,
    maxDepth: int, proofOfPossession: bool, maxUses: int, constraints: ConstraintMap, thumbprint: string)

  datatype DelegateRequest = DelegateRequest(
    parent: Id, parentToken: Token, delegator: Id, recipient: Id, actions: seq<string>, resources: seq<string>,
    expiration: Time, ttl: Duration, proofOfPossession: bool, maxUses: int, constraints: ConstraintMap, thumbprint: string)

  datatype IssuedLease = IssuedLease(lease: Lease, token: Token)

  /** The whole second an asked moment falls in, if it is in the future and within the configured maximum. */
  predicate FitsExpiration(config: Config, now: Time, asked: Time, e: Time) {
    e % SECOND == 0 && e <= asked < e + SECOND && now < e <= now + config.maxTtl
  }

  /** The expiration of a new lease: whole seconds, in the future, within the configured maximum. */
  function ExpirationOf(config: Config, now: Time, explicit: Time, ttl: Duration): (r: Result<Time, DomainError>)
    ensures r.Ok? ==> (explicit == 0) != (ttl == 0) && FitsExpiration(config, now, if explicit == 0 then now + ttl else explicit, r.value)
    ensures r.Err? ==> (explicit == 0 && ttl <= 0) || (explicit != 0 && ttl != 0)
                       || var asked := if explicit == 0 then now + ttl else explicit; forall e :: !FitsExpiration(config, now, asked, e)
  {
    if explicit != 0 && ttl != 0 then Err(InvalidLease)
    else if explicit == 0 && ttl <= 0 then Err(InvalidLease)
    else
      var expiration := WholeSecond(if explicit == 0 then now + ttl else explicit);
      if expiration <= now || expiration > now + config.maxTtl then Err(InvalidLease) else Ok(expiration)
  }

  function ValidateValues(actions: seq<string>, resources: seq<string>): Result<(), DomainError> {
    if actions == [] || resources == [] || |actions| > MAX_VALUES || |resources| > MAX_VALUES then Err(InvalidLease)
    else if exists v | v in actions + resources :: ByteLen(v) > MAX_VALUE_LENGTH then Err(InvalidLease)
    else if !CanonicalList(resources) then Err(InvalidLease)
    else
      var context := AuthorityContext(actions, resources, UNIX_EPOCH + SECOND, 0, 1, 0, map[]);
      var result := Validate(context, context.(depth := 1, expiration := UNIX_EPOCH));
      if result.Ok? || result == Err(NotStrict) then Ok(()) else Err(InvalidLease)
  }

  predicate SameStrings(left: seq<string>, right: seq<string>) {
    |left| == |right| && forall v | v in right :: v in left
  }

  method CompareStrings(left: seq<string>, right: seq<string>) returns (r: bool)
    ensures r == SameStrings(left, right)
  {
    if |left| != |right| {
      return false;
    }
    var values := ToSet(left);
    for i := 0 to |right|
      invariant forall k | 0 <= k < i :: right[k] in left
    {
      if right[i] !in values {
        return false;
      }
    }
    r := true;
  }

  /** The claims issue signs; JWT dates keep whole seconds. */
  function ClaimsFor(config: Config, l: Lease): LeaseClaims {
    LeaseClaims(
      CapabilityClaims(TOKEN_VERSION, l.id, l.rootLease, l.rootWorkload, l.workload, IdText(l.delegatedBy), l.actions,
                       l.resources, l.depth, l.maxDepth, IdText(l.parent), l.maxUses, l.constraints),
      if l.confirmation.Some? then Some(l.confirmation.value) else None,
      config.issuer, l.workload, [l.audience], Some(WholeSecond(l.expiration)), Some(WholeSecond(l.issuedAt)),
      Some(WholeSecond(l.issuedAt)), l.tokenId)
  }

  function Sealed(config: Config, l: Lease): Lease {
    l.(tokenHash := Sha256(Signed(ClaimsFor(config, l))))
  }

  predicate ParentTokenMatches(parent: Lease, token: Token, claims: LeaseClaims) {
    && claims.id == parent.tokenId && claims.subject == parent.workload && claims.ups.leaseId == parent.id
    && claims.ups.rootLeaseId == parent.rootLease && claims.ups.rootWorkloadId == parent.rootWorkload
    && claims.ups.workloadId == parent.workload && claims.ups.delegatedByWorkloadId == IdText(parent.delegatedBy)
    && claims.ups.depth == parent.depth && claims.ups.maxDepth == parent.maxDepth && claims.ups.maxUses == parent.maxUses
    && (match claims.confirmation case None => "" case Some(t) => t) == (match parent.confirmation case None => "" case Some(k) => k)
    && claims.expiresAt == Some(parent.expiration)
    && SameStrings(claims.ups.actions, parent.actions) && SameStrings(claims.ups.resources, parent.resources)
    && Equal(claims.ups.constraints, parent.constraints) && claims.ups.parentLeaseId == IdText(parent.parent)
    && Sha256(token) == parent.tokenHash
  }

  // ---- Registering ----

  predicate UniqueValues(values: seq<string>, maximum: nat) {
    1 <= |values| <= maximum && PlainDistinct(values) && forall v | v in values :: ByteLen(v) <= MAX_VALUE_LENGTH
  }

  method ValidateUniqueValues(values: seq<string>, maximum: nat) returns (r: bool)
    ensures r == UniqueValues(values, maximum)
  {
    if |values| == 0 || |values| > maximum {
      return false;
    }
    var seen: set<string> := {};
    for i := 0 to |values|
      invariant seen == Elements(values[..i])
      invariant PlainDistinct(values[..i])
      invariant forall k | 0 <= k < i :: ByteLen(values[k]) <= MAX_VALUE_LENGTH
    {
      var value := values[i];
      if value == "" || ByteLen(value) > MAX_VALUE_LENGTH || !Trimmed(value) {
        assert value in values;
        return false;
      }
      if value in seen {
        var j :| 0 <= j < i && values[..i][j] == value;
        assert values[j] == values[i];
        return false;
      }
      ElementsOfPrefix(values, i);
      PlainDistinctExtends(values, i);
      seen := seen + {value};
    }
    assert values[..|values|] == values;
    r := true;
  }

  function ValidateGrant(config: Config, grant: Grant): Result<Grant, DomainError> {
    if grant.audiences == [] || |grant.audiences| > 16 || grant.maxTtl <= 0 || grant.maxTtl > config.maxTtl
       || grant.maxDelegationDepth < 0 || grant.maxDelegationDepth > MAX_DELEGATION_DEPTH
       || grant.maxUses < 0 || grant.maxUses > MAX_USES_LIMIT then Err(InvalidWorkload)
    else if !grant.canDelegate && grant.maxDelegationDepth != 0 then Err(InvalidWorkload)
    else if grant.maxUses > 0 && (grant.canDelegate || grant.maxDelegationDepth != 0) then Err(InvalidWorkload)
    else if !UniqueValues(grant.audiences, 16) then Err(InvalidWorkload)
    else if ValidateValues(grant.actions, grant.resources).Err? || !CanonicalList(grant.resources) then Err(InvalidWorkload)
    else
      var at := UNIX_EPOCH + SECOND;
      var whole := AuthorityContext(grant.actions, grant.resources, at + grant.maxTtl, 0, grant.maxDelegationDepth, grant.maxUses, grant.constraints);
      if ValidateRoot(GrantContextOf(grant), grant.audiences[0], whole, at).Err? then Err(InvalidWorkload)
      else Ok(grant.(version := 1))
  }

  function PlanWorkload(config: Config, id: Id, name: string, key: Key, grant: Grant, now: Time): Result<Workload, DomainError> {
    if !Trimmed(name) || !(3 <= ByteLen(name) <= 128) then Err(InvalidWorkload)
    else
      var checked := ValidateGrant(config, grant);
      if checked.Err? then Err(checked.error) else Ok(Workload(id, name, key, None, now, now, None, checked.value))
  }

  function RegisteredEvent(w: Workload, actor: string): AuditEvent {
    AuditEvent(Registered, Some(w.id), None, actor, 0, w.createdAt)
  }

  function Enroll(config: Config, s: T.Store, id: Id, name: string, key: Key, grant: Grant, actor: string, clock: Time):
    (T.Store, Result<Workload, DomainError>)
  {
    if AllSpace(actor) then (s, Err(InvalidWorkload))
    else
      var plan := PlanWorkload(config, id, name, key, grant, WholeSecond(clock));
      if plan.Err? then (s, Err(plan.error))
      else
        var (after, outcome) := T.CreateWorkload(s, plan.value, RegisteredEvent(plan.value, actor));
        (after, if outcome.Err? then Err(outcome.error) else Ok(plan.value))
  }

  // ---- Minting ----

  predicate MintRequestOk(request: MintRequest) {
    && request.workload != "" && request.audience != "" && Trimmed(request.audience) && ByteLen(request.audience) <= 256
    && 0 <= request.maxDepth <= MAX_DELEGATION_DEPTH && 0 <= request.maxUses <= MAX_USES_LIMIT && ByteLen(request.thumbprint) == 43
  }

  /** Everything MintRootLease decides from the workload row it read, before its transaction. */
  function PlanMint(config: Config, w: Workload, request: MintRequest, now: Time, id: Id, tokenId: Id): Result<Lease, DomainError> {
    if w.disabledAt.Some? || !T.Accepts(w, request.thumbprint, now) then Err(Unauthenticated)
    else
      var expiration := ExpirationOf(config, now, request.expiration, request.ttl);
      if expiration.Err? then Err(expiration.error)
      else if ValidateValues(request.actions, request.resources).Err? then Err(InvalidLease)
      else
        var context := AuthorityContext(request.actions, request.resources, expiration.value, 0, request.maxDepth,
                                        request.maxUses, request.constraints);
        if ValidateRoot(GrantContextOf(w.grant), request.audience, context, now).Err? then Err(AuthorityEscalation)
        else
          var confirmation := if request.proofOfPossession || w.grant.requireProof then Some(w.publicKey) else None;
          Ok(Sealed(config, Lease(
            id, tokenId, request.workload, request.workload, request.audience, None, id, None, request.actions,
            request.resources, expiration.value, 0, request.maxDepth, Sha256(Forged("")), now, None, w.grant.version,
            confirmation, request.maxUses, 0, request.constraints)))
  }

  function MintEvent(l: Lease): AuditEvent {
    AuditEvent(RootMinted, Some(l.workload), Some(l.id), l.workload, 0, l.issuedAt)
  }

  // ---- Delegating ----

  predicate DelegateRequestOk(request: DelegateRequest) {
    && request.parent != "" && request.parentToken != Forged("") && request.delegator != "" && request.recipient != ""
    && 0 <= request.maxUses <= MAX_USES_LIMIT && ByteLen(request.thumbprint) == 43
  }

  /** The checks of DelegateLease on the parent row it read. */
  function CheckParent(config: Config, parent: Lease, request: DelegateRequest, now: Time, tokenNow: Time): Result<(), DomainError> {
    if parent.revokedAt.Some? then Err(LeaseRevoked)
    else if request.delegator != parent.workload then Err(Unauthenticated)
    else if parent.expiration <= now then Err(InvalidLease)
    else
      var claims := VerifyLeaseToken(request.parentToken, config.issuer, parent.audience, config.clockSkew, tokenNow);
      if claims.Err? || !ParentTokenMatches(parent, request.parentToken, claims.value) then Err(Unauthenticated)
      else if parent.confirmation.Some? && parent.confirmation.value != request.thumbprint then Err(Unauthenticated)
      else Ok(())
  }

  /** The rest of DelegateLease, from the parent row and the recipient row it read. */
  function PlanDelegate(config: Config, parent: Lease, recipient: Workload, request: DelegateRequest, now: Time, id: Id, tokenId: Id):
    Result<Lease, DomainError>
  {
    if recipient.disabledAt.Some? then Err(Unauthenticated)
    else
      var expiration := ExpirationOf(config, now, request.expiration, request.ttl);
      if expiration.Err? then Err(expiration.error)
      else
        var childMaxDepth := if request.maxUses > 0 then parent.depth + 1 else parent.maxDepth;
        var context := AuthorityContext(request.actions, request.resources, expiration.value, parent.depth + 1,
                                        childMaxDepth, request.maxUses, request.constraints);
        if Validate(ContextOf(parent), context).Err? then Err(InvalidAttenuation)
        else
          var confirmation := if request.proofOfPossession || parent.confirmation.Some? then Some(recipient.publicKey) else None;
          Ok(Sealed(config, Lease(
            id, tokenId, recipient.id, parent.rootWorkload, parent.audience, Some(parent.id), parent.rootLease,
            Some(parent.workload), request.actions, request.resources, expiration.value, parent.depth + 1, childMaxDepth,
            Sha256(Forged("")), now, None, parent.grantVersion, confirmation, request.maxUses, 0, request.constraints)))
  }

  function DelegateEvent(l: Lease, actor: string): AuditEvent {
    AuditEvent(Delegated, Some(l.workload), Some(l.id), actor, 0, l.issuedAt)
  }

  // ---- Authenticating ----

  predicate NonceCharacter(c: char) {
    'a' <= c <= 'z' || 'A' <= c <= 'Z' || '0' <= c <= '9' || c == '-' || c == '_'
  }

  method ValidNonce(value: string) returns (r: bool)
    ensures r <==> NonceOk(value)
  {
    if ByteLen(value) < 32 || ByteLen(value) > 128 {
      return false;
    }
    for i := 0 to |value|
      invariant forall k | 0 <= k < i :: NonceCharacter(value[k])
    {
      if !NonceCharacter(value[i]) {
        return false;
      }
    }
    r := true;
  }

  /** The timestamp window, measured from the clock cut to whole seconds. */
  predicate InWindow(timestamp: Time, clock: Time, window: Duration) {
    -window <= WholeSecond(clock) - timestamp <= window
  }

  predicate NonceOk(nonce: string) {
    32 <= ByteLen(nonce) <= 128 && forall c | c in nonce :: NonceCharacter(c)
  }

  // ---- The operations on the tables, when nothing else commits in between ----

  function Issue(config: Config, s: T.Store, l: Lease, thumbprint: string, event: AuditEvent): (T.Store, Result<IssuedLease, DomainError>) {
    if l.tokenId == "" || l.rootLease == "" || l.rootWorkload == "" then (s, Err(InvalidLease))
    else
      var (after, outcome) := T.CreateLease(s, l, thumbprint, event);
      (after, if outcome.Err? then Err(outcome.error) else Ok(IssuedLease(l, Signed(ClaimsFor(config, l)))))
  }

  function Mint(config: Config, s: T.Store, request: MintRequest, clock: Time, id: Id, tokenId: Id): (T.Store, Result<IssuedLease, DomainError>) {
    if !MintRequestOk(request) then (s, Err(InvalidLease))
    else if request.workload !in s.workloads then (s, Err(WorkloadNotFound))
    else
      var plan := PlanMint(config, s.workloads[request.workload], request, WholeSecond(clock), id, tokenId);
      if plan.Err? then (s, Err(plan.error)) else Issue(config, s, plan.value, request.thumbprint, MintEvent(plan.value))
  }

  function Delegate(config: Config, s: T.Store, request: DelegateRequest, clock: Time, tokenNow: Time, id: Id, tokenId: Id):
    (T.Store, Result<IssuedLease, DomainError>)
  {
    if !DelegateRequestOk(request) then (s, Err(Unauthenticated))
    else if request.parent !in s.leases then (s, Err(LeaseNotFound))
    else
      var parent, now := s.leases[request.parent], WholeSecond(clock);
      var checked := CheckParent(config, parent, request, now, tokenNow);
      if checked.Err? then (s, Err(checked.error))
      else if request.recipient !in s.workloads then (s, Err(WorkloadNotFound))
      else
        var plan := PlanDelegate(config, parent, s.workloads[request.recipient], request, now, id, tokenId);
        if plan.Err? then (s, Err(plan.error))
        else Issue(config, s, plan.value, request.thumbprint, DelegateEvent(plan.value, parent.workload))
  }

  /** validIdempotencyKey */
  predicate KeyTextOk(key: string) {
    16 <= |key| <= 128 && forall c | c in key :: '!' <= c <= '~'
  }

  method ValidIdempotencyKey(key: string) returns (ok: bool)
    ensures ok <==> KeyTextOk(key)
  {
    if |key| < 16 || |key| > 128 {
      return false;
    }
    for i := 0 to |key|
      invariant forall k | 0 <= k < i :: '!' <= key[k] <= '~'
    {
      if key[i] < '!' || key[i] > '~' {
        assert key[i] in key;
        return false;
      }
    }
    ok := true;
  }

  function Consume(config: Config, s: T.Store, lease: Id, token: Token, key: string, clock: Time, tokenNow: Time):
    (T.Store, Result<T.Consumption, DomainError>)
  {
    if lease == "" || token == Forged("") || !KeyTextOk(key) then (s, Err(InvalidLease))
    else if lease !in s.leases then (s, Err(LeaseNotFound))
    else
      var claims := VerifyLeaseToken(token, config.issuer, s.leases[lease].audience, config.clockSkew, tokenNow);
      if claims.Err? || !ParentTokenMatches(s.leases[lease], token, claims.value) then (s, Err(Unauthenticated))
      else T.ConsumeLeaseUse(s, lease, Sha256(token), key, WholeSecond(clock))
  }

  /** authenticatedWorkloadKey: the current key, else the previous one while it lasts; signer is the one key under which
      the signature verifies. */
  function AuthenticatedKey(w: Workload, signer: Key, now: Time): Option<Key> {
    if w.publicKey == signer then Some(w.publicKey)
    else if w.previous.Some? && now < w.previous.value.expiresAt && w.previous.value.key == signer then Some(w.previous.value.key)
    else None
  }

  function Authenticate(config: Config, s: T.Store, workload: Id, timestamp: Time, nonce: string, signer: Key, clock: Time, databaseNow: Time):
    (T.Store, Result<Key, DomainError>)
  {
    if workload == "" || timestamp == 0 || !NonceOk(nonce) || !InWindow(timestamp, clock, config.requestWindow) then (s, Err(Unauthenticated))
    else if workload !in s.workloads || s.workloads[workload].disabledAt.Some? then (s, Err(Unauthenticated))
    else
      var key := AuthenticatedKey(s.workloads[workload], signer, WholeSecond(clock));
      if key.None? then (s, Err(Unauthenticated))
      else
        var (after, outcome) := T.ConsumeWorkloadNonce(s, workload, nonce, timestamp + config.requestWindow, databaseNow);
        (after, if outcome.Err? then Err(outcome.error) else Ok(key.value))
  }
}
