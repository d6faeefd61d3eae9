/** The committed transactions as one type, the form of each change, and what no transaction ever changes. */
module Evolution {
  import opened Wrappers
  import opened Attenuation
  import opened Domain
  import opened Lineage
  import opened Transactions

  datatype Txn =
    | Register(workload: Workload, event: AuditEvent)
    | Rotate(rotation: Rotation, at: Time)
    | Disable(id: Id, actor: string, at: Time)
    | SpendNonce(id: Id, nonce: string, expiresAt: Time, databaseNow: Time)
    | Create(lease: Lease, thumbprint: string, event: AuditEvent)
    | Spend(id: Id, tokenHash: Digest, key: string, at: Time)
    | Revoke(id: Id, actor: string, at: Time)

  ghost function Apply(s: Store, t: Txn): Store
    requires Forest(s.leases)
  {
    match t
    case Register(w, e) => CreateWorkload(s, w, e).0
    case Rotate(r, at) => RotateWorkloadKey(s, r, at).0
    case Disable(id, actor, at) => DisableWorkload(s, id, actor, at).0
    case SpendNonce(id, nonce, expiresAt, now) => ConsumeWorkloadNonce(s, id, nonce, expiresAt, now).0
    case Create(l, thumbprint, e) => CreateLease(s, l, thumbprint, e).0
    case Spend(id, hash, key, at) => ConsumeLeaseUse(s, id, hash, key, at).0
    case Revoke(id, actor, at) => RevokeLeaseLineage(s, id, actor, at).0
  }

  // ---- The form of each change ----

  ghost predicate Registering(s: Store, t: Store, w: Workload, event: AuditEvent) {
    && !KeyTaken(s.workloads, w.publicKey, w.createdAt, None) && !WorkloadRowClashes(s.workloads, w)
    && t == Store(s.workloads[w.id := StoredWorkload(w)], s.leases, s.uses, s.nonces, s.audit + [event])
  }

  /** The lease rows under the seeds are revoked and counted in one event; the lease columns change no other way. */
  ghost predicate Revoking(s: Store, t: Store, seeds: set<Id>, at: Time, event: AuditEvent)
    requires Forest(s.leases)
  {
    && t.leases == MarkRevoked(s.leases, Affected(s.leases, seeds), at)
    && t.uses == s.uses && t.nonces == s.nonces && t.audit == s.audit + [event]
    && event.revokedCount == |Unrevoked(s.leases, Affected(s.leases, seeds))| && !event.kind.RootMinted? && !event.kind.Delegated?
  }

  ghost predicate Rotating(s: Store, t: Store, r: Rotation, at: Time)
    requires Forest(s.leases)
  {
    && r.workload in s.workloads && s.workloads[r.workload].disabledAt.None?
    && !KeyTaken(s.workloads, r.publicKey, at, Some(r.workload))
    && (r.overlap > 0 ==> !PreviousTaken(s.workloads, s.workloads[r.workload].publicKey, Some(r.workload)))
    && t.workloads == s.workloads[r.workload := Rotated(s.workloads[r.workload], r, at)]
    && t.audit != []
    && Revoking(s, t, if r.revokeOutstanding then HeldBy(s.leases, r.workload) else {}, at, t.audit[|t.audit| - 1])
  }

  ghost predicate Disabling(s: Store, t: Store, id: Id, at: Time)
    requires Forest(s.leases)
  {
    && id in s.workloads && id in t.workloads && t.workloads[id].disabledAt.Some?
    && SameGrant(s.workloads[id], t.workloads[id])
    && t.workloads == s.workloads[id := s.workloads[id].(disabledAt := t.workloads[id].disabledAt, updatedAt := at)]
    && t.audit != [] && Revoking(s, t, HeldBy(s.leases, id), at, t.audit[|t.audit| - 1])
  }

  ghost predicate Spending(s: Store, t: Store, id: Id, key: string) {
    && id in s.leases && (id, key) !in s.uses && 0 <= s.leases[id].usesConsumed < s.leases[id].maxUses
    && t == Store(s.workloads, s.leases[id := s.leases[id].(usesConsumed := s.leases[id].usesConsumed + 1)],
                  s.uses[(id, key) := s.leases[id].usesConsumed + 1], s.nonces, s.audit)
  }

  ghost predicate Creating(s: Store, t: Store, l: Lease, thumbprint: string, event: AuditEvent) {
    && CheckIssue(s, l, thumbprint).Ok? && LeaseRowOk(l) && !LeaseRowClashes(s.leases, l) && LeaseReferencesExist(s, l)
    && t == Store(s.workloads, s.leases[l.id := l], s.uses, s.nonces, s.audit + [event])
  }

  ghost predicate Changes(s: Store, t: Store, x: Txn)
    requires Forest(s.leases)
  {
    match x
    case Register(w, e) => Registering(s, t, w, e)
    case Rotate(r, at) => Rotating(s, t, r, at)
    case Disable(id, actor, at) => Disabling(s, t, id, at)
    case SpendNonce(id, nonce, expiresAt, now) => t == s.(nonces := t.nonces)
    case Create(l, thumbprint, e) => Creating(s, t, l, thumbprint, e)
    case Spend(id, hash, key, at) => Spending(s, t, id, key)
    case Revoke(id, actor, at) => t.workloads == s.workloads && t.audit != [] && Revoking(s, t, {id}, at, t.audit[|t.audit| - 1])
  }

  /** A transaction fails and changes nothing, or its change has its form. */
  lemma ApplyForm(s: Store, x: Txn)
    requires Forest(s.leases)
    ensures Apply(s, x) == s || Changes(s, Apply(s, x), x)
  {
    match x {
      case Rotate(r, at) => RotateForm(s, r, at);
      case _ =>
    }
  }

  lemma RotateForm(s: Store, r: Rotation, at: Time)
    requires Forest(s.leases)
    ensures RotateWorkloadKey(s, r, at).0 == s || Rotating(s, RotateWorkloadKey(s, r, at).0, r, at)
  {
    assert Affected(s.leases, {}) == {};
    assert MarkRevoked(s.leases, {}, at) == s.leases;
    assert Unrevoked(s.leases, {}) == {};
  }

  // ---- What never changes ----

  /** Later is the same issued lease: only the revocation time, once, and the use counter, upward, move. */
  ghost predicate SameIssue(earlier: Lease, later: Lease) {
    && later == earlier.(revokedAt := later.revokedAt, usesConsumed := later.usesConsumed)
    && (earlier.revokedAt.Some? ==> later.revokedAt == earlier.revokedAt)
    && earlier.usesConsumed <= later.usesConsumed
  }

  /** Grants are immutable and a disabled workload stays disabled since the same moment. */
  ghost predicate SameGrant(earlier: Workload, later: Workload) {
    && later.id == earlier.id && later.name == earlier.name && later.grant == earlier.grant
    && (earlier.disabledAt.Some? ==> later.disabledAt == earlier.disabledAt)
  }

  ghost predicate Evolves(s: Store, t: Store) {
    && (forall id | id in s.workloads :: id in t.workloads && SameGrant(s.workloads[id], t.workloads[id]))
    && (forall id | id in s.leases :: id in t.leases && SameIssue(s.leases[id], t.leases[id]))
    && (forall u | u in s.uses :: u in t.uses && t.uses[u] == s.uses[u])
    && s.audit <= t.audit
  }

  lemma ChangesEvolves(s: Store, t: Store, x: Txn)
    requires Forest(s.leases) && Changes(s, t, x)
    ensures Evolves(s, t)
    ensures !x.Create? ==> t.leases.Keys == s.leases.Keys
  {
    match x {
      case Rotate(r, at) => RevokingSame(s, t, if r.revokeOutstanding then HeldBy(s.leases, r.workload) else {}, at, t.audit[|t.audit| - 1]);
      case Disable(id, actor, at) => RevokingSame(s, t, HeldBy(s.leases, id), at, t.audit[|t.audit| - 1]);
      case Revoke(id, actor, at) => RevokingSame(s, t, {id}, at, t.audit[|t.audit| - 1]);
      case Spend(id, hash, key, at) => SpendingEvolves(s, t, id, key);
      case Create(l, thumbprint, e) => CreatingEvolves(s, t, l, thumbprint, e);
      case _ =>
    }
  }

  lemma SpendingEvolves(s: Store, t: Store, id: Id, key: string)
    requires Spending(s, t, id, key)
    ensures Evolves(s, t) && t.leases.Keys == s.leases.Keys
  {
  }

  lemma CreatingEvolves(s: Store, t: Store, l: Lease, thumbprint: string, event: AuditEvent)
    requires Creating(s, t, l, thumbprint, event)
    ensures Evolves(s, t)
  {
  }

  lemma RevokingSame(s: Store, t: Store, seeds: set<Id>, at: Time, event: AuditEvent)
    requires Forest(s.leases) && Revoking(s, t, seeds, at, event)
    ensures t.leases.Keys == s.leases.Keys && forall id | id in s.leases :: SameIssue(s.leases[id], t.leases[id])
  {
  }

  /** No transaction deletes a row, changes a grant, issued authority or an accepted use, clears a revocation, or
      rewrites the audit log. */
  lemma ApplyEvolves(s: Store, x: Txn)
    requires Forest(s.leases)
    ensures Evolves(s, Apply(s, x))
  {
    ApplyForm(s, x);
    if Apply(s, x) != s {
      ChangesEvolves(s, Apply(s, x), x);
    }
  }

  lemma EvolvesItself(s: Store)
    ensures Evolves(s, s)
  {
  }

  lemma EvolvesTransitive(s: Store, t: Store, u: Store)
    requires Evolves(s, t) && Evolves(t, u)
    ensures Evolves(s, u)
  {
    forall id | id in s.leases ensures id in u.leases && SameIssue(s.leases[id], u.leases[id]) {
      assert SameIssue(s.leases[id], t.leases[id]) && SameIssue(t.leases[id], u.leases[id]);
    }
    forall id | id in s.workloads ensures id in u.workloads && SameGrant(s.workloads[id], u.workloads[id]) {
      assert SameGrant(s.workloads[id], t.workloads[id]) && SameGrant(t.workloads[id], u.workloads[id]);
    }
  }

  lemma RevocationEvolves(s: Store, lease: Id, actor: string, at: Time)
    requires Forest(s.leases)
    ensures Evolves(s, RevokeLeaseLineage(s, lease, actor, at).0)
  {
    ApplyEvolves(s, Revoke(lease, actor, at));
  }

  ghost predicate EvolvesInto(stores: seq<Store>, k: nat)
    requires 0 < k < |stores|
  {
    Evolves(stores[k - 1], stores[k])
  }

  /** Along a sequence of tables that evolve one into the next, each evolves into every later one. */
  lemma {:induction false} SequenceEvolves(stores: seq<Store>, i: nat, j: nat)
    requires i <= j < |stores| && forall k: nat | 0 < k < |stores| :: EvolvesInto(stores, k)
    ensures Evolves(stores[i], stores[j])
    decreases j
  {
    if i < j {
      SequenceEvolves(stores, i, j - 1);
      assert EvolvesInto(stores, j);
      EvolvesTransitive(stores[i], stores[j - 1], stores[j]);
    } else {
      EvolvesItself(stores[i]);
    }
  }

  lemma ForestKept(s: Store, t: Store, x: Txn)
    requires Forest(s.leases) && Changes(s, t, x)
    ensures Forest(t.leases)
  {
    ChangesEvolves(s, t, x);
    if x.Create? {
      CreationKeepsForest(s, t, x.lease, x.thumbprint, x.event);
    } else {
      ForestStays(s, t);
    }
  }

  lemma ApplyKeepsForest(s: Store, x: Txn)
    requires Forest(s.leases)
    ensures Forest(Apply(s, x).leases)
  {
    ApplyForm(s, x);
    if Apply(s, x) != s {
      ForestKept(s, Apply(s, x), x);
    }
  }

  lemma ForestStays(s: Store, t: Store)
    requires Forest(s.leases) && Evolves(s, t) && t.leases.Keys == s.leases.Keys
    ensures Forest(t.leases)
  {
    forall id | id in t.leases ensures Placed(t.leases, t.leases[id]) {
      assert SameIssue(s.leases[id], t.leases[id]) && Placed(s.leases, s.leases[id]);
      if s.leases[id].parent.Some? {
        assert SameIssue(s.leases[s.leases[id].parent.value], t.leases[s.leases[id].parent.value]);
      }
    }
  }

  /** The checks at issuance put a new lease one below a stored parent, under the same root. */
  lemma CreationKeepsForest(s: Store, t: Store, l: Lease, thumbprint: string, event: AuditEvent)
    requires Forest(s.leases) && Creating(s, t, l, thumbprint, event)
    ensures Forest(t.leases)
  {
    forall id | id in t.leases ensures Placed(t.leases, t.leases[id]) {
      if id != l.id {
        assert Placed(s.leases, s.leases[id]);
      }
    }
  }
}
