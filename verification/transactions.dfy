/**
 internal/repository as functions from tables to tables: what each committed transaction does. The class in
 repository.dfy runs the statements and is proved to compute these functions.
 */
module Transactions {
  import opened Wrappers
  import opened Text
  import opened Attenuation
  import opened Domain
  import opened Lineage

  type UseKey = (Id, string)

  datatype Store = Store(
    workloads: map<Id, Workload>, leases: Leases, uses: map<UseKey, nat>,
    nonces: map<(Id, string), Time>, audit: seq<AuditEvent>)

  datatype Rotation = Rotation(workload: Id, publicKey: Key, overlap: Duration, revokeOutstanding: bool, actor: string)

  datatype Consumption = Consumption(lease: Id, idempotencyKey: string, useNumber: nat, maxUses: int, replayed: bool)

  const EMPTY_STORE := Store(map[], map[], map[], map[], [])

  // ---- Workloads ----

  /** The key is current, or previous and unexpired: who may authenticate with it at a time. */
  predicate Accepts(w: Workload, key: string, at: Time) {
    w.publicKey == key || (w.previous.Some? && at < w.previous.value.expiresAt && w.previous.value.key == key)
  }

  /** acceptedWorkloadKey: only a 43-byte thumbprint can match. */
  predicate AcceptedWorkloadKey(w: Workload, thumbprint: string, at: Time) {
    ByteLen(thumbprint) == 43 && Accepts(w, thumbprint, at)
  }

  predicate KeyTaken(workloads: map<Id, Workload>, key: Key, at: Time, except: Option<Id>) {
    exists id | id in workloads :: except != Some(id) && Accepts(workloads[id], key, at)
  }

  /** The CHECK constraints on a workload row. */
  predicate WorkloadRowOk(w: Workload) {
    && 3 <= |w.name| <= 128 && 1 <= |w.grant.audiences| <= 16 && 1 <= |w.grant.actions| <= 64
    && 1 <= |w.grant.resources| <= 64 && SECOND <= w.grant.maxTtl <= 86400 * SECOND
    && 0 <= w.grant.maxDelegationDepth <= 16 && (w.grant.canDelegate || w.grant.maxDelegationDepth == 0)
    && w.grant.version > 0 && 0 <= w.grant.maxUses <= 1_000_000
  }

  predicate PreviousTaken(workloads: map<Id, Workload>, key: Key, except: Option<Id>) {
    exists id | id in workloads :: except != Some(id) && workloads[id].previous.Some? && workloads[id].previous.value.key == key
  }

  /** The unique columns: id, name, public_key and previous_public_key. */
  predicate WorkloadRowClashes(workloads: map<Id, Workload>, w: Workload) {
    || w.id in workloads
    || (exists id | id in workloads :: workloads[id].name == w.name || workloads[id].publicKey == w.publicKey)
    || (w.previous.Some? && PreviousTaken(workloads, w.previous.value.key, None))
  }

  /** The row as stored: the grant's lifetime limit keeps whole seconds only. */
  function StoredWorkload(w: Workload): Workload {
    w.(grant := w.grant.(maxTtl := WholeSecond(w.grant.maxTtl)))
  }

  function CreateWorkload(s: Store, w: Workload, event: AuditEvent): (Store, Result<(), DomainError>) {
    if KeyTaken(s.workloads, w.publicKey, w.createdAt, None) then (s, Err(Conflict))
    else if !WorkloadRowOk(StoredWorkload(w)) then (s, Err(Internal))
    else if WorkloadRowClashes(s.workloads, w) then (s, Err(Conflict))
    else (s.(workloads := s.workloads[w.id := StoredWorkload(w)], audit := s.audit + [event]), Ok(()))
  }

  /** The leases a workload holds. */
  function HeldBy(leases: Leases, workload: Id): set<Id> {
    set id | id in leases && leases[id].workload == workload
  }

  ghost function RevokeSet(s: Store, seeds: set<Id>, at: Time): (Store, nat)
    requires Forest(s.leases)
  {
    var affected := Affected(s.leases, seeds);
    (s.(leases := MarkRevoked(s.leases, affected, at)), |Unrevoked(s.leases, affected)|)
  }

  function Rotated(w: Workload, r: Rotation, at: Time): Workload {
    w.(publicKey := r.publicKey, updatedAt := at,
       previous := if r.overlap > 0 then Some(PreviousKey(w.publicKey, at + r.overlap)) else None)
  }

  ghost function RotateWorkloadKey(s: Store, r: Rotation, at: Time): (Store, Result<(Workload, nat), DomainError>)
    requires Forest(s.leases)
  {
    if r.workload !in s.workloads then (s, Err(WorkloadNotFound))
    else
      var w := s.workloads[r.workload];
      if w.disabledAt.Some? then (s, Err(InvalidWorkload))
      else if KeyTaken(s.workloads, r.publicKey, at, Some(r.workload)) then (s, Err(Conflict))
      else if r.overlap > 0 && PreviousTaken(s.workloads, w.publicKey, Some(r.workload)) then (s, Err(Conflict))
      else
        var rotated := Rotated(w, r, at);
        var (revokedStore, count) := if r.revokeOutstanding then RevokeSet(s, HeldBy(s.leases, r.workload), at) else (s, 0);
        var event := AuditEvent(KeyRotated, Some(r.workload), None, r.actor, count, at);
        (revokedStore.(workloads := s.workloads[r.workload := rotated], audit := s.audit + [event]), Ok((rotated, count)))
  }

  ghost function DisableWorkload(s: Store, workload: Id, actor: string, at: Time): (Store, Result<nat, DomainError>)
    requires Forest(s.leases)
  {
    if workload !in s.workloads then (s, Err(WorkloadNotFound))
    else
      var w := s.workloads[workload];
      var disabled := w.(disabledAt := if w.disabledAt.Some? then w.disabledAt else Some(at), updatedAt := at);
      var (revokedStore, count) := RevokeSet(s, HeldBy(s.leases, workload), at);
      var event := AuditEvent(Disabled, Some(workload), None, actor, count, at);
      (revokedStore.(workloads := s.workloads[workload := disabled], audit := s.audit + [event]), Ok(count))
  }

  function ConsumeWorkloadNonce(s: Store, workload: Id, nonce: string, expiresAt: Time, databaseNow: Time):
    (Store, Result<(), DomainError>)
  {
    if (workload, nonce) in s.nonces && s.nonces[(workload, nonce)] > databaseNow then (s, Err(ReplayDetected))
    else (s.(nonces := s.nonces[(workload, nonce) := expiresAt]), Ok(()))
  }

  // ---- Leases ----

  /** The CHECK constraints on a lease row. */
  predicate LeaseRowOk(l: Lease) {
    && l.expiration > l.issuedAt && 1 <= |l.audience| <= 256 && 1 <= |l.actions| <= 64 && 1 <= |l.resources| <= 64
    && 0 <= l.depth <= l.maxDepth <= 16 && l.grantVersion > 0 && 0 <= l.maxUses <= 1_000_000
    && 0 <= l.usesConsumed <= l.maxUses && (l.maxUses == 0 || l.maxDepth == l.depth)
    && (if l.parent.None? then l.depth == 0 && l.rootLease == l.id && l.rootWorkload == l.workload && l.delegatedBy.None?
        else l.depth > 0 && l.delegatedBy.Some?)
  }

  /** The unique columns: id, token_id and token_hash. */
  predicate LeaseRowClashes(leases: Leases, l: Lease) {
    l.id in leases || exists id | id in leases :: leases[id].tokenId == l.tokenId || leases[id].tokenHash == l.tokenHash
  }

  /** The foreign keys of a lease row. */
  predicate LeaseReferencesExist(s: Store, l: Lease) {
    && l.workload in s.workloads && l.rootWorkload in s.workloads
    && (l.parent.Some? ==> l.parent.value in s.leases) && (l.rootLease == l.id || l.rootLease in s.leases)
    && (l.delegatedBy.Some? ==> l.delegatedBy.value in s.workloads)
  }

  /** The checks of a delegation inside its transaction, against the parent row read under the lineage lock. */
  function CheckDelegation(s: Store, l: Lease, thumbprint: string): Result<(), DomainError>
    requires l.parent.Some?
  {
    if l.delegatedBy.None? then Err(InvalidLease)
    else if l.delegatedBy.value !in s.workloads then Err(WorkloadNotFound)
    else
      var delegator := s.workloads[l.delegatedBy.value];
      if delegator.disabledAt.Some? then Err(Unauthenticated)
      else if !AcceptedWorkloadKey(delegator, thumbprint, l.issuedAt) then Err(Unauthenticated)
      else if l.parent.value !in s.leases then Err(LeaseNotFound)
      else
        var p := s.leases[l.parent.value];
        if p.revokedAt.Some? then Err(LeaseRevoked)
        else if p.expiration <= l.issuedAt then Err(InvalidLease)
        else if p.maxUses > 0 then Err(AuthorityEscalation)
        else if Some(p.workload) != l.delegatedBy || p.rootLease != l.rootLease || p.rootWorkload != l.rootWorkload
                || l.depth != p.depth + 1 || l.maxDepth > p.maxDepth then Err(InvalidLease)
        else Ok(())
  }

  function CheckIssue(s: Store, l: Lease, thumbprint: string): Result<(), DomainError> {
    if l.workload !in s.workloads then Err(WorkloadNotFound)
    else
      var w := s.workloads[l.workload];
      if w.disabledAt.Some? then Err(Unauthenticated)
      else if l.parent.None? && !AcceptedWorkloadKey(w, thumbprint, l.issuedAt) then Err(Unauthenticated)
      else if l.parent.None? && w.grant.version != l.grantVersion then Err(AuthorityEscalation)
      else if l.parent.Some? then CheckDelegation(s, l, thumbprint)
      else if l.rootLease != l.id || l.rootWorkload != l.workload || l.delegatedBy.Some? || l.depth != 0 then Err(InvalidLease)
      else Ok(())
  }

  function CreateLease(s: Store, l: Lease, thumbprint: string, event: AuditEvent): (Store, Result<(), DomainError>) {
    var check := CheckIssue(s, l, thumbprint);
    if check.Err? then (s, check)
    else if !LeaseRowOk(l) || LeaseRowClashes(s.leases, l) then (s, Err(Internal))
    else if !LeaseReferencesExist(s, l) then (s, Err(InvalidLease))
    else (s.(leases := s.leases[l.id := l], audit := s.audit + [event]), Ok(()))
  }

  function ConsumeLeaseUse(s: Store, lease: Id, tokenHash: Digest, key: string, at: Time): (Store, Result<Consumption, DomainError>) {
    if lease !in s.leases || s.leases[lease].workload !in s.workloads then (s, Err(LeaseNotFound))
    else
      var l := s.leases[lease];
      if tokenHash != l.tokenHash then (s, Err(Unauthenticated))
      else if l.revokedAt.Some? || s.workloads[l.workload].disabledAt.Some? then (s, Err(LeaseRevoked))
      else if l.expiration <= at || l.maxUses <= 0 then (s, Err(InvalidLease))
      else if (lease, key) in s.uses then (s, Ok(Consumption(lease, key, s.uses[(lease, key)], l.maxUses, true)))
      else if l.usesConsumed >= l.maxUses then (s, Err(MaxUsesExceeded))
      else if l.usesConsumed < 0 || !(16 <= |key| <= 128) || UseNumberTaken(s.uses, lease, l.usesConsumed + 1) then (s, Err(Internal))
      else
        var number := l.usesConsumed + 1;
        (s.(uses := s.uses[(lease, key) := number], leases := s.leases[lease := l.(usesConsumed := number)]),
         Ok(Consumption(lease, key, number, l.maxUses, false)))
  }

  predicate UseNumberTaken(uses: map<UseKey, nat>, lease: Id, number: int) {
    exists u | u in uses :: u.0 == lease && uses[u] == number
  }

  ghost function RevokeLeaseLineage(s: Store, lease: Id, actor: string, at: Time): (Store, Result<nat, DomainError>)
    requires Forest(s.leases)
  {
    if lease !in s.leases then (s, Err(LeaseNotFound))
    else
      var (revokedStore, count) := RevokeSet(s, {lease}, at);
      var event := AuditEvent(LineageRevoked, None, Some(lease), actor, count, at);
      (revokedStore.(audit := s.audit + [event]), Ok(count))
  }

  function ListActiveRevocations(s: Store, now: Time): set<Id> {
    set id | id in s.leases && s.leases[id].revokedAt.Some? && s.leases[id].expiration > now
  }
}
