/** Revocation over whole transactions: closure downward, enabled holders, and the counts in the audit log. */
module Revocation {
  import opened Wrappers
  import opened Attenuation
  import opened Domain
  import opened Lineage
  import opened Transactions
  import opened Evolution

  function RevokedIds(leases: Leases): set<Id> {
    set id | id in leases && leases[id].revokedAt.Some?
  }

  /** If the parent is revoked, so is the lease. */
  ghost predicate FollowsParent(leases: Leases, id: Id)
    requires id in leases
  {
    leases[id].parent.Some? && leases[id].parent.value in leases && leases[leases[id].parent.value].revokedAt.Some? ==>
      leases[id].revokedAt.Some?
  }

  /** The children of a revoked lease are revoked. */
  ghost predicate DownwardClosed(leases: Leases) {
    forall id {:trigger FollowsParent(leases, id)} | id in leases :: FollowsParent(leases, id)
  }

  /** Every holder exists, and an unrevoked lease is held by an enabled workload. */
  ghost predicate HoldersEnabled(s: Store) {
    forall id | id in s.leases ::
      && s.leases[id].workload in s.workloads
      && (s.leases[id].revokedAt.None? ==> s.workloads[s.leases[id].workload].disabledAt.None?)
  }

  function RevokedSum(audit: seq<AuditEvent>): nat {
    if audit == [] then 0 else RevokedSum(audit[..|audit| - 1]) + audit[|audit| - 1].revokedCount
  }

  predicate IsIssue(e: AuditEvent) {
    e.kind == RootMinted || e.kind == Delegated
  }

  function IssueCount(audit: seq<AuditEvent>): nat {
    if audit == [] then 0 else IssueCount(audit[..|audit| - 1]) + (if IsIssue(audit[|audit| - 1]) then 1 else 0)
  }

  /** The audit log accounts for every revoked lease and for every lease. */
  ghost predicate Accounted(s: Store) {
    |RevokedIds(s.leases)| == RevokedSum(s.audit) && |s.leases| == IssueCount(s.audit)
  }

  ghost predicate RevocationSound(s: Store) {
    Forest(s.leases) && DownwardClosed(s.leases) && HoldersEnabled(s) && Accounted(s)
  }

  /** The events the use cases hand to the repository fit what they record; new leases start unrevoked. */
  ghost predicate Fits(t: Txn) {
    && (t.Register? ==> t.event.kind == Registered && t.event.revokedCount == 0)
    && (t.Create? ==> IsIssue(t.event) && t.event.revokedCount == 0 && t.lease.revokedAt.None?)
  }

  /** A revocation marks exactly the unrevoked descendants-or-self of its seeds, counts them in its event, and
      leaves every earlier revocation time alone. */
  lemma RevokingExact(s: Store, t: Store, seeds: set<Id>, at: Time, event: AuditEvent)
    requires Forest(s.leases) && Revoking(s, t, seeds, at, event)
    ensures t.leases.Keys == s.leases.Keys
    ensures forall id | id in s.leases ::
              t.leases[id].revokedAt == if s.leases[id].revokedAt.None? && Under(s.leases, id, seeds) then Some(at) else s.leases[id].revokedAt
    ensures |RevokedIds(t.leases)| == |RevokedIds(s.leases)| + event.revokedCount
  {
    forall id | id in s.leases ensures id in Affected(s.leases, seeds) <==> Under(s.leases, id, seeds) {
    }
    MarkedCount(s.leases, Affected(s.leases, seeds), at);
  }

  lemma MarkedCount(leases: Leases, ids: set<Id>, at: Time)
    ensures |RevokedIds(MarkRevoked(leases, ids, at))| == |RevokedIds(leases)| + |Unrevoked(leases, ids)|
  {
    var marked := Unrevoked(leases, ids);
    assert RevokedIds(MarkRevoked(leases, ids, at)) == RevokedIds(leases) + marked;
    assert RevokedIds(leases) !! marked;
  }

  lemma RevokingClosed(s: Store, t: Store, seeds: set<Id>, at: Time, event: AuditEvent)
    requires Forest(s.leases) && DownwardClosed(s.leases) && Revoking(s, t, seeds, at, event)
    ensures DownwardClosed(t.leases)
  {
    forall id | id in t.leases ensures FollowsParent(t.leases, id) {
      assert FollowsParent(s.leases, id);
      AffectedChild(s.leases, seeds, id);
    }
  }

  lemma SeedsAffected(leases: Leases, seeds: set<Id>, id: Id)
    requires Forest(leases) && id in leases && id in seeds
    ensures id in Affected(leases, seeds)
  {
    AffectedChild(leases, seeds, id);
  }

  /** Closure along parent links reaches every descendant. */
  lemma {:induction false} DescendantsRevoked(leases: Leases, id: Id, a: Id)
    requires Forest(leases) && DownwardClosed(leases)
    requires id in leases && a in Chain(leases, id) && a in leases && leases[a].revokedAt.Some?
    ensures leases[id].revokedAt.Some?
    decreases leases[id].depth
  {
    assert Placed(leases, leases[id]) && FollowsParent(leases, id);
    if a != id {
      DescendantsRevoked(leases, leases[id].parent.value, a);
    }
  }

  lemma AuditAppend(audit: seq<AuditEvent>, e: AuditEvent)
    ensures RevokedSum(audit + [e]) == RevokedSum(audit) + e.revokedCount
    ensures IssueCount(audit + [e]) == IssueCount(audit) + (if IsIssue(e) then 1 else 0)
  {
    assert (audit + [e])[..|audit + [e]| - 1] == audit;
  }

  lemma KeyCount(leases: Leases, more: Leases)
    requires more.Keys == leases.Keys
    ensures |more| == |leases|
  {
    assert |more| == |more.Keys| && |leases| == |leases.Keys|;
  }

  lemma RevokingKept(s: Store, t: Store, seeds: set<Id>, at: Time, event: AuditEvent)
    requires RevocationSound(s) && Revoking(s, t, seeds, at, event)
    ensures DownwardClosed(t.leases) && Accounted(t)
  {
    RevokingExact(s, t, seeds, at, event);
    RevokingClosed(s, t, seeds, at, event);
    AuditAppend(s.audit, event);
    KeyCount(s.leases, t.leases);
  }

  lemma HoldersStay(s: Store, t: Store)
    requires HoldersEnabled(s) && Evolves(s, t) && t.leases.Keys == s.leases.Keys
    requires forall w | w in s.workloads :: w in t.workloads && t.workloads[w].disabledAt == s.workloads[w].disabledAt
    ensures HoldersEnabled(t)
  {
    forall id | id in t.leases ensures t.leases[id].workload in t.workloads
              && (t.leases[id].revokedAt.None? ==> t.workloads[t.leases[id].workload].disabledAt.None?) {
      assert SameIssue(s.leases[id], t.leases[id]);
    }
  }

  lemma RotatingKept(s: Store, t: Store, r: Rotation, at: Time)
    requires RevocationSound(s) && Rotating(s, t, r, at)
    ensures DownwardClosed(t.leases) && HoldersEnabled(t) && Accounted(t)
  {
    ChangesEvolves(s, t, Rotate(r, at));
    HoldersStay(s, t);
    RevokingKept(s, t, if r.revokeOutstanding then HeldBy(s.leases, r.workload) else {}, at, t.audit[|t.audit| - 1]);
  }

  lemma DisablingKept(s: Store, t: Store, id: Id, at: Time)
    requires RevocationSound(s) && Disabling(s, t, id, at)
    ensures DownwardClosed(t.leases) && HoldersEnabled(t) && Accounted(t)
  {
    RevokingKept(s, t, HeldBy(s.leases, id), at, t.audit[|t.audit| - 1]);
    RevokingExact(s, t, HeldBy(s.leases, id), at, t.audit[|t.audit| - 1]);
    forall k | k in t.leases ensures t.leases[k].workload in t.workloads
              && (t.leases[k].revokedAt.None? ==> t.workloads[t.leases[k].workload].disabledAt.None?) {
      if s.leases[k].workload == id {
        SeedsAffected(s.leases, HeldBy(s.leases, id), k);
      }
    }
  }

  lemma SpendingKept(s: Store, t: Store, id: Id, key: string)
    requires RevocationSound(s) && Spending(s, t, id, key)
    ensures DownwardClosed(t.leases) && HoldersEnabled(t) && Accounted(t)
  {
    KeyCount(s.leases, t.leases);
    assert RevokedIds(t.leases) == RevokedIds(s.leases);
    forall k | k in t.leases ensures FollowsParent(t.leases, k) {
      assert FollowsParent(s.leases, k);
    }
  }

  /** A new lease hangs under an unrevoked parent, found so inside the transaction, and starts unrevoked. */
  lemma CreatingKept(s: Store, t: Store, l: Lease, thumbprint: string, event: AuditEvent)
    requires RevocationSound(s) && Creating(s, t, l, thumbprint, event) && Fits(Create(l, thumbprint, event))
    ensures DownwardClosed(t.leases) && HoldersEnabled(t) && Accounted(t)
  {
    CreatingAccounts(s, t, l, event);
    forall k | k in t.leases ensures FollowsParent(t.leases, k) {
      if k != l.id {
        assert Placed(s.leases, s.leases[k]) && FollowsParent(s.leases, k);
      }
    }
  }

  lemma CreatingAccounts(s: Store, t: Store, l: Lease, event: AuditEvent)
    requires Accounted(s) && l.id !in s.leases && l.revokedAt.None? && IsIssue(event) && event.revokedCount == 0
    requires t.leases == s.leases[l.id := l] && t.audit == s.audit + [event]
    ensures Accounted(t)
  {
    AuditAppend(s.audit, event);
    assert RevokedIds(t.leases) == RevokedIds(s.leases);
    OneMoreLease(s.leases, l);
  }

  lemma OneMoreLease(leases: Leases, l: Lease)
    requires l.id !in leases
    ensures |leases[l.id := l]| == |leases| + 1
  {
    assert leases[l.id := l].Keys == leases.Keys + {l.id};
    assert |leases[l.id := l]| == |leases[l.id := l].Keys| && |leases| == |leases.Keys|;
  }

  lemma RegisteringKept(s: Store, t: Store, w: Workload, event: AuditEvent)
    requires RevocationSound(s) && Registering(s, t, w, event) && Fits(Register(w, event))
    ensures DownwardClosed(t.leases) && HoldersEnabled(t) && Accounted(t)
  {
    AuditAppend(s.audit, event);
  }

  lemma ChangesKept(s: Store, t: Store, x: Txn)
    requires RevocationSound(s) && Fits(x) && Changes(s, t, x)
    ensures RevocationSound(t)
  {
    ForestKept(s, t, x);
    match x {
      case Rotate(r, at) => RotatingKept(s, t, r, at);
      case Disable(id, actor, at) => DisablingKept(s, t, id, at);
      case Revoke(id, actor, at) =>
        ChangesEvolves(s, t, x);
        HoldersStay(s, t);
        RevokingKept(s, t, {id}, at, t.audit[|t.audit| - 1]);
      case Spend(id, hash, key, at) => SpendingKept(s, t, id, key);
      case Create(l, thumbprint, event) => CreatingKept(s, t, l, thumbprint, event);
      case Register(w, event) => RegisteringKept(s, t, w, event);
      case SpendNonce(id, nonce, expiresAt, now) =>
    }
  }

  /** Every transaction keeps the closure, the enabled holders and the accounts. */
  lemma RevocationKept(s: Store, x: Txn)
    requires RevocationSound(s) && Fits(x)
    ensures RevocationSound(Apply(s, x))
  {
    ApplyForm(s, x);
    if Apply(s, x) != s {
      ChangesKept(s, Apply(s, x), x);
    }
  }
}
