/** internal/repository: the tables and the statements each transaction runs against them. */
module Repository {
  import opened Wrappers
  import opened Attenuation
  import opened Domain
  import opened Lineage
  import E = Evolution
  import T = Transactions

  class LeaseRepository {
    var workloads: map<Id, Workload>
    var leases: Leases
    var uses: map<T.UseKey, nat>
    var nonces: map<(Id, string), Time>
    var audit: seq<AuditEvent>

    function Tables(): T.Store
      reads this
    {
      T.Store(workloads, leases, uses, nonces, audit)
    }

    /** Every row hangs below a stored parent; what the recursive queries need to end. */
    ghost predicate Valid()
      reads this
    {
      Forest(leases)
    }

    constructor ()
      ensures Tables() == T.EMPTY_STORE && Valid()
    {
      workloads, leases, uses, nonces, audit := map[], map[], map[], map[], [];
    }

    method CreateWorkload(w: Workload, event: AuditEvent) returns (r: Result<(), DomainError>)
      requires Valid()
      modifies this
      ensures Valid()
      ensures (Tables(), r) == T.CreateWorkload(old(Tables()), w, event)
    {
      E.ApplyKeepsForest(Tables(), E.Register(w, event));
      if T.KeyTaken(workloads, w.publicKey, w.createdAt, None) {
        return Err(Conflict);
      }
      var row := w.(grant := w.grant.(maxTtl := WholeSecond(w.grant.maxTtl)));
      if !T.WorkloadRowOk(row) {
        return Err(Internal);
      }
      if T.WorkloadRowClashes(workloads, w) {
        return Err(Conflict);
      }
      workloads := workloads[w.id := row];
      audit := audit + [event];
      r := Ok(());
    }

    /** The recursive selection and UPDATE that rotation, disablement and revocation share. */
    method RevokeRows(seeds: set<Id>, at: Time) returns (count: nat)
      requires Valid()
      modifies this`leases
      ensures Valid()
      ensures (Tables(), count) == T.RevokeSet(old(Tables()), seeds, at)
    {
      var affected := AffectedQuery(leases, seeds);
      count := |Unrevoked(leases, affected)|;
      MarkingKeepsForest(leases, affected, at);
      leases := MarkRevoked(leases, affected, at);
    }

    method RotateWorkloadKey(request: T.Rotation, at: Time) returns (r: Result<(Workload, nat), DomainError>)
      requires Valid()
      modifies this
      ensures Valid()
      ensures (Tables(), r) == T.RotateWorkloadKey(old(Tables()), request, at)
    {
      E.ApplyKeepsForest(Tables(), E.Rotate(request, at));
      if request.workload !in workloads {
        return Err(WorkloadNotFound);
      }
      var workload := workloads[request.workload];
      if workload.disabledAt.Some? {
        return Err(InvalidWorkload);
      }
      if T.KeyTaken(workloads, request.publicKey, at, Some(request.workload)) {
        return Err(Conflict);
      }
      var previous := None;
      if request.overlap > 0 {
        previous := Some(PreviousKey(workload.publicKey, at + request.overlap));
        if T.PreviousTaken(workloads, workload.publicKey, Some(request.workload)) {
          return Err(Conflict);
        }
      }
      var rotated := workload.(publicKey := request.publicKey, previous := previous, updatedAt := at);
      workloads := workloads[request.workload := rotated];
      var count := 0;
      if request.revokeOutstanding {
        count := RevokeRows(T.HeldBy(leases, request.workload), at);
      }
      audit := audit + [AuditEvent(KeyRotated, Some(request.workload), None, request.actor, count, at)];
      r := Ok((rotated, count));
    }

    method DisableWorkload(workload: Id, actor: string, at: Time) returns (r: Result<nat, DomainError>)
      requires Valid()
      modifies this
      ensures Valid()
      ensures (Tables(), r) == T.DisableWorkload(old(Tables()), workload, actor, at)
    {
      E.ApplyKeepsForest(Tables(), E.Disable(workload, actor, at));
      if workload !in workloads {
        return Err(WorkloadNotFound);
      }
      var row := workloads[workload];
      var disabledAt := if row.disabledAt.Some? then row.disabledAt else Some(at);
      workloads := workloads[workload := row.(disabledAt := disabledAt, updatedAt := at)];
      var count := RevokeRows(T.HeldBy(leases, workload), at);
      audit := audit + [AuditEvent(Disabled, Some(workload), None, actor, count, at)];
      r := Ok(count);
    }

    method ConsumeWorkloadNonce(workload: Id, nonce: string, expiresAt: Time, databaseNow: Time) returns (r: Result<(), DomainError>)
      requires Valid()
      modifies this
      ensures Valid()
      ensures (Tables(), r) == T.ConsumeWorkloadNonce(old(Tables()), workload, nonce, expiresAt, databaseNow)
    {
      E.ApplyKeepsForest(Tables(), E.SpendNonce(workload, nonce, expiresAt, databaseNow));
      var key := (workload, nonce);
      if key in nonces && !(nonces[key] <= databaseNow) {
        return Err(ReplayDetected);
      }
      nonces := nonces[key := expiresAt];
      r := Ok(());
    }

    method CreateLease(l: Lease, thumbprint: string, event: AuditEvent) returns (r: Result<(), DomainError>)
      requires Valid()
      modifies this
      ensures Valid()
      ensures (Tables(), r) == T.CreateLease(old(Tables()), l, thumbprint, event)
    {
      E.ApplyKeepsForest(Tables(), E.Create(l, thumbprint, event));
      if l.workload !in workloads {
        return Err(WorkloadNotFound);
      }
      var holder := workloads[l.workload];
      if holder.disabledAt.Some? {
        return Err(Unauthenticated);
      }
      if l.parent.None? && !T.AcceptedWorkloadKey(holder, thumbprint, l.issuedAt) {
        return Err(Unauthenticated);
      }
      if l.parent.None? && holder.grant.version != l.grantVersion {
        return Err(AuthorityEscalation);
      }
      if l.parent.Some? {
        if l.delegatedBy.None? {
          return Err(InvalidLease);
        }
        if l.delegatedBy.value !in workloads {
          return Err(WorkloadNotFound);
        }
        var delegator := workloads[l.delegatedBy.value];
        if delegator.disabledAt.Some? || !T.AcceptedWorkloadKey(delegator, thumbprint, l.issuedAt) {
          return Err(Unauthenticated);
        }
        var root := RootQuery(leases, l.parent.value);
        if root.None? {
          return Err(LeaseNotFound);
        }
        var p := leases[l.parent.value];
        if p.revokedAt.Some? {
          return Err(LeaseRevoked);
        }
        if p.expiration <= l.issuedAt {
          return Err(InvalidLease);
        }
        if p.maxUses > 0 {
          return Err(AuthorityEscalation);
        }
        if p.workload != l.delegatedBy.value || p.rootLease != l.rootLease || p.rootWorkload != l.rootWorkload
           || l.depth != p.depth + 1 || l.maxDepth > p.maxDepth {
          return Err(InvalidLease);
        }
      } else if l.rootLease != l.id || l.rootWorkload != l.workload || l.delegatedBy.Some? || l.depth != 0 {
        return Err(InvalidLease);
      }
      if !T.LeaseRowOk(l) || T.LeaseRowClashes(leases, l) {
        return Err(Internal);
      }
      if !T.LeaseReferencesExist(Tables(), l) {
        return Err(InvalidLease);
      }
      leases := leases[l.id := l];
      audit := audit + [event];
      r := Ok(());
    }

    method TraceLease(id: Id) returns (r: Result<seq<Lease>, DomainError>)
      requires Valid()
      ensures r == if id in leases then Ok(Trace(leases, id)) else Err(LeaseNotFound)
    {
      r := TraceQuery(leases, id);
    }

    method ConsumeLeaseUse(lease: Id, tokenHash: Digest, key: string, at: Time) returns (r: Result<T.Consumption, DomainError>)
      requires Valid()
      modifies this
      ensures Valid()
      ensures (Tables(), r) == T.ConsumeLeaseUse(old(Tables()), lease, tokenHash, key, at)
    {
      E.ApplyKeepsForest(Tables(), E.Spend(lease, tokenHash, key, at));
      if lease !in leases || leases[lease].workload !in workloads {
        return Err(LeaseNotFound);
      }
      var row := leases[lease];
      if tokenHash != row.tokenHash {
        return Err(Unauthenticated);
      }
      if row.revokedAt.Some? || workloads[row.workload].disabledAt.Some? {
        return Err(LeaseRevoked);
      }
      if row.expiration <= at || row.maxUses <= 0 {
        return Err(InvalidLease);
      }
      if (lease, key) in uses {
        return Ok(T.Consumption(lease, key, uses[(lease, key)], row.maxUses, true));
      }
      if row.usesConsumed >= row.maxUses {
        return Err(MaxUsesExceeded);
      }
      var number := row.usesConsumed + 1;
      if number < 1 || |key| < 16 || |key| > 128 || T.UseNumberTaken(uses, lease, number) {
        return Err(Internal);
      }
      uses := uses[(lease, key) := number];
      leases := leases[lease := row.(usesConsumed := number)];
      r := Ok(T.Consumption(lease, key, number, row.maxUses, false));
    }

    method RevokeLeaseLineage(lease: Id, actor: string, at: Time) returns (r: Result<nat, DomainError>)
      requires Valid()
      modifies this
      ensures Valid()
      ensures (Tables(), r) == T.RevokeLeaseLineage(old(Tables()), lease, actor, at)
    {
      E.ApplyKeepsForest(Tables(), E.Revoke(lease, actor, at));
      var root := RootQuery(leases, lease);
      if root.None? {
        return Err(LeaseNotFound);
      }
      var count := RevokeRows({lease}, at);
      audit := audit + [AuditEvent(LineageRevoked, None, Some(lease), actor, count, at)];
      r := Ok(count);
    }

    method ListActiveRevocations(now: Time) returns (ids: set<Id>)
      ensures ids == T.ListActiveRevocations(Tables(), now)
    {
      ids := set id | id in leases && leases[id].revokedAt.Some? && leases[id].expiration > now;
    }
  }
}
