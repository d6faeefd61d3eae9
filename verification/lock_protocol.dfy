/**
 Delegation and lineage revocation statement by statement, among all other transactions. Each statement sees the rows
 committed when it starts; writes become visible at commit. Rows read FOR SHARE and rows updated stay locked until the
 transaction ends. Delegations and revocations interleave freely. The others, of which two revoke as well, are single
 steps, taken when they would change no locked row. For disablement and rotation that is a simplification: they select
 their rows before they wait for a lock and mark them after it. The end of the module says what that can break, and
 exactly when.
 */
module LockProtocol {
  import opened Wrappers
  import opened Attenuation
  import opened Domain
  import opened Lineage
  import opened Transactions
  import opened Evolution
  import opened Revocation

  /** hashtextextended: roots may share a lock, which only makes the lock coarser. */
  const LockKey: Id -> int

  datatype Phase = Started | HolderRead | DelegatorRead | Rooted | Locked | Checked | Written

  datatype Process =
    | Idle
    | Revoking(lease: Id, actor: string, at: Time, phase: Phase, root: Id, marked: set<Id>)
    | Delegating(child: Lease, thumbprint: string, event: AuditEvent, phase: Phase, root: Id)

  datatype Database = Database(store: Store, locks: map<int, nat>, processes: map<nat, Process>)

  datatype Action =
    | Begin(next: Process) | ReadHolder | ReadDelegator | FindRoot | TakeLock | ReadParent | Write | Commit | Abort
    | Whole(txn: Txn)

  ghost function RootOf(leases: Leases, id: Id): Id
    requires Forest(leases) && id in leases
  {
    Chain(leases, id)[0]
  }

  function InPhase(p: Process, phase: Phase): Process {
    match p
    case Idle => Idle
    case Revoking(lease, actor, at, _, root, marked) => Revoking(lease, actor, at, phase, root, marked)
    case Delegating(child, thumbprint, event, _, root) => Delegating(child, thumbprint, event, phase, root)
  }

  function RootFound(p: Process, root: Id): Process {
    match p
    case Idle => Idle
    case Revoking(lease, actor, at, _, _, marked) => Revoking(lease, actor, at, Rooted, root, marked)
    case Delegating(child, thumbprint, event, _, _) => Delegating(child, thumbprint, event, Rooted, root)
  }

  // ---- Locks ----

  predicate HoldsLock(p: Process) {
    !p.Idle? && (p.phase == Locked || p.phase == Checked || p.phase == Written)
  }

  predicate KnowsRoot(p: Process) {
    !p.Idle? && (p.phase == Rooted || HoldsLock(p))
  }

  /** Workload rows held FOR SHARE. */
  function SharedWorkloads(p: Process): set<Id> {
    if !p.Delegating? || p.phase == Started then {}
    else if p.phase == HolderRead || p.child.delegatedBy.None? then {p.child.workload}
    else {p.child.workload, p.child.delegatedBy.value}
  }

  /** Lease rows held FOR SHARE or updated. */
  function LockedLeases(p: Process): set<Id> {
    match p
    case Idle => {}
    case Revoking(_, _, _, phase, _, marked) => if phase == Written then marked else {}
    case Delegating(child, _, _, phase, _) => if (phase == Checked || phase == Written) && child.parent.Some? then {child.parent.value} else {}
  }

  /** A change of the tables touches no row a process has locked, nor the unique columns of its pending insert. */
  ghost predicate Compatible(s: Store, t: Store, p: Process) {
    && (forall w | w in SharedWorkloads(p) && w in s.workloads :: w in t.workloads && t.workloads[w] == s.workloads[w])
    && (forall id | id in LockedLeases(p) && id in s.leases :: id in t.leases && t.leases[id] == s.leases[id])
    && (p.Delegating? && p.phase == Written ==> !LeaseRowClashes(t.leases, p.child))
  }

  /** Two pending inserts with an id or a token in common: the second waits for the first. */
  predicate Clash(a: Lease, b: Lease) {
    a.id == b.id || a.tokenId == b.tokenId || a.tokenHash == b.tokenHash
  }

  ghost predicate PendingClash(db: Database, pid: nat, child: Lease) {
    exists q | q in db.processes && q != pid ::
      db.processes[q].Delegating? && db.processes[q].phase == Written && Clash(db.processes[q].child, child)
  }

  // ---- The checks of an issue, statement by statement ----

  predicate HolderOk(s: Store, child: Lease) {
    child.workload in s.workloads && s.workloads[child.workload].disabledAt.None?
  }

  predicate DelegatorOk(s: Store, child: Lease, thumbprint: string) {
    && child.delegatedBy.Some? && child.delegatedBy.value in s.workloads
    && s.workloads[child.delegatedBy.value].disabledAt.None?
    && AcceptedWorkloadKey(s.workloads[child.delegatedBy.value], thumbprint, child.issuedAt)
  }

  predicate ParentOk(s: Store, child: Lease) {
    && child.parent.Some? && child.parent.value in s.leases
    && var p := s.leases[child.parent.value];
       && p.revokedAt.None? && p.expiration > child.issuedAt && p.maxUses <= 0 && Some(p.workload) == child.delegatedBy
       && p.rootLease == child.rootLease && p.rootWorkload == child.rootWorkload
       && child.depth == p.depth + 1 && child.maxDepth <= p.maxDepth
  }

  predicate RowOk(s: Store, child: Lease) {
    LeaseRowOk(child) && !LeaseRowClashes(s.leases, child) && LeaseReferencesExist(s, child)
  }

  /** Together they are the checks of the whole transaction. */
  lemma ChecksTogether(s: Store, child: Lease, thumbprint: string)
    requires child.parent.Some?
    ensures CheckIssue(s, child, thumbprint).Ok? <==> HolderOk(s, child) && DelegatorOk(s, child, thumbprint) && ParentOk(s, child)
  {
  }

  // ---- Steps ----

  /** Leaving a transaction releases its locks. */
  function Released(locks: map<int, nat>, pid: nat): map<int, nat> {
    map k | k in locks && locks[k] != pid :: locks[k]
  }

  ghost function Leave(db: Database, pid: nat, store: Store): Database {
    Database(store, Released(db.locks, pid), db.processes[pid := Idle])
  }

  ghost function Become(db: Database, pid: nat, p: Process): Database {
    db.(processes := db.processes[pid := p])
  }

  /** A check that passes moves on; one that fails rolls the transaction back. */
  ghost function Checking(db: Database, pid: nat, ok: bool, next: Process): Database {
    if ok then Become(db, pid, next) else Leave(db, pid, db.store)
  }

  ghost predicate MayBegin(next: Process) {
    && !next.Idle? && next.phase == Started
    && (next.Delegating? ==> next.child.parent.Some? && Fits(Create(next.child, next.thumbprint, next.event)))
  }

  /** Transactions that run as one step: all but delegations and lineage revocations. */
  ghost predicate RunsWhole(db: Database, x: Txn)
    requires Forest(db.store.leases)
  {
    && Fits(x) && !x.Revoke? && (x.Create? ==> x.lease.parent.None?)
    && forall q | q in db.processes :: Compatible(db.store, Apply(db.store, x), db.processes[q])
  }

  function Start(p: Process): Id
    requires !p.Idle?
  {
    if p.Revoking? then p.lease else IdText(p.child.parent)
  }

  /** What a commit writes. */
  ghost function Committed(s: Store, p: Process): Store
    requires !p.Idle?
  {
    if p.Revoking? then
      s.(leases := MarkRevoked(s.leases, p.marked, p.at),
         audit := s.audit + [AuditEvent(LineageRevoked, None, Some(p.lease), p.actor, |p.marked|, p.at)])
    else s.(leases := s.leases[p.child.id := p.child], audit := s.audit + [p.event])
  }

  /** One statement of one process; an action that is not enabled changes nothing. */
  ghost function Do(db: Database, pid: nat, action: Action): Database
    requires Forest(db.store.leases)
  {
    var s := db.store;
    var p := if pid in db.processes then db.processes[pid] else Idle;
    match action
    case Begin(next) => if p.Idle? && MayBegin(next) then Become(db, pid, next) else db
    case Whole(x) => if RunsWhole(db, x) then db.(store := Apply(s, x)) else db
    case Abort => if p.Idle? then db else Leave(db, pid, s)
    case ReadHolder =>
      if p.Delegating? && p.phase == Started then Checking(db, pid, HolderOk(s, p.child), InPhase(p, HolderRead)) else db
    case ReadDelegator =>
      if p.Delegating? && p.phase == HolderRead then
        Checking(db, pid, DelegatorOk(s, p.child, p.thumbprint), InPhase(p, DelegatorRead)) else db
    case FindRoot =>
      if p.Idle? || p.phase != (if p.Revoking? then Started else DelegatorRead) then db
      else if Start(p) in s.leases then Become(db, pid, RootFound(p, RootOf(s.leases, Start(p))))
      else Leave(db, pid, s)
    case TakeLock =>
      if !p.Idle? && p.phase == Rooted && LockKey(p.root) !in db.locks then
        Database(s, db.locks[LockKey(p.root) := pid], db.processes[pid := InPhase(p, Locked)])
      else db
    case ReadParent =>
      if p.Delegating? && p.phase == Locked then Checking(db, pid, ParentOk(s, p.child), InPhase(p, Checked)) else db
    case Write =>
      if p.Revoking? && p.phase == Locked then
        Become(db, pid, Revoking(p.lease, p.actor, p.at, Written, p.root, Unrevoked(s.leases, Affected(s.leases, {p.lease}))))
      else if p.Delegating? && p.phase == Checked && !PendingClash(db, pid, p.child) then
        Checking(db, pid, RowOk(s, p.child), InPhase(p, Written))
      else db
    case Commit => if p.Idle? || p.phase != Written then db else Leave(db, pid, Committed(s, p))
  }

  // ---- The invariant ----

  ghost predicate Anchored(leases: Leases, start: Id, root: Id)
    requires Forest(leases)
  {
    start in leases && RootOf(leases, start) == root
  }

  /** What a process has read or written still agrees with the committed rows. */
  ghost predicate Current(s: Store, p: Process)
    requires Forest(s.leases)
  {
    && (KnowsRoot(p) ==> Anchored(s.leases, Start(p), p.root))
    && match p
       case Idle => true
       case Revoking(lease, _, _, phase, _, marked) =>
         phase == Written ==> marked == Unrevoked(s.leases, Affected(s.leases, {lease}))
       case Delegating(child, thumbprint, event, phase, _) =>
         && child.parent.Some? && Fits(Create(child, thumbprint, event))
         && (phase != Started ==> HolderOk(s, child))
         && (phase != Started && phase != HolderRead ==> DelegatorOk(s, child, thumbprint))
         && (phase == Checked || phase == Written ==> ParentOk(s, child))
         && (phase == Written ==> RowOk(s, child))
  }

  ghost predicate LockHeld(db: Database, pid: nat)
    requires pid in db.processes
  {
    HoldsLock(db.processes[pid]) ==> LockKey(db.processes[pid].root) in db.locks && db.locks[LockKey(db.processes[pid].root)] == pid
  }

  ghost predicate DistinctInserts(db: Database) {
    forall q | q in db.processes && db.processes[q].Delegating? && db.processes[q].phase == Written ::
      !PendingClash(db, q, db.processes[q].child)
  }

  ghost predicate Consistent(db: Database) {
    && RevocationSound(db.store)
    && (forall q {:trigger LockHeld(db, q)} | q in db.processes :: LockHeld(db, q))
    && (forall q {:trigger Current(db.store, db.processes[q])} | q in db.processes :: Current(db.store, db.processes[q]))
    && DistinctInserts(db)
  }

  // ---- What a commit elsewhere leaves current ----

  lemma AffectedShareRoot(leases: Leases, lease: Id, id: Id)
    requires Forest(leases) && lease in leases && id in Affected(leases, {lease})
    ensures RootOf(leases, id) == RootOf(leases, lease)
  {
    assert lease in Chain(leases, id);
    ChainTransitive(leases, id, lease);
  }

  lemma RootStable(s: Store, t: Store, id: Id)
    requires Forest(s.leases) && Forest(t.leases) && Evolves(s, t) && id in s.leases
    ensures id in t.leases && Chain(t.leases, id) == Chain(s.leases, id) && RootOf(t.leases, id) == RootOf(s.leases, id)
  {
    forall k | k in s.leases ensures k in t.leases && t.leases[k].parent == s.leases[k].parent {
      assert SameIssue(s.leases[k], t.leases[k]);
    }
    ChainStable(s.leases, t.leases, id);
  }

  lemma RootIsStored(leases: Leases, id: Id)
    requires Forest(leases) && id in leases
    ensures RootOf(leases, id) in leases
  {
    ChainShape(leases, id);
  }

  ghost predicate NewElsewhere(s: Store, t: Store, root: Id)
    requires Forest(t.leases)
  {
    forall id | id in t.leases && id !in s.leases :: RootOf(t.leases, id) != root
  }

  /** Commits that leave the marked rows alone and insert into other lineages do not change what a revocation marks. */
  lemma MarkedElsewhere(s: Store, t: Store, lease: Id)
    requires Forest(s.leases) && Forest(t.leases) && Evolves(s, t) && lease in s.leases
    requires NewElsewhere(s, t, RootOf(s.leases, lease))
    requires forall id | id in Unrevoked(s.leases, Affected(s.leases, {lease})) :: id in t.leases && t.leases[id] == s.leases[id]
    ensures Unrevoked(t.leases, Affected(t.leases, {lease})) == Unrevoked(s.leases, Affected(s.leases, {lease}))
  {
    RootStable(s, t, lease);
    forall id ensures id in Unrevoked(t.leases, Affected(t.leases, {lease})) <==> id in Unrevoked(s.leases, Affected(s.leases, {lease})) {
      if id in s.leases {
        RootStable(s, t, id);
        assert SameIssue(s.leases[id], t.leases[id]);
        assert id in Affected(t.leases, {lease}) <==> id in Affected(s.leases, {lease}) by {
          assert Under(t.leases, id, {lease}) <==> Under(s.leases, id, {lease});
        }
      } else if id in t.leases && id in Affected(t.leases, {lease}) {
        AffectedShareRoot(t.leases, lease, id);
        assert false;
      }
    }
  }

  lemma CurrentStays(s: Store, t: Store, p: Process)
    requires Forest(s.leases) && Forest(t.leases) && Evolves(s, t) && Current(s, p) && Compatible(s, t, p)
    requires HoldsLock(p) ==> NewElsewhere(s, t, p.root)
    ensures Current(t, p)
  {
    if KnowsRoot(p) {
      RootStable(s, t, Start(p));
    }
    match p {
      case Idle =>
      case Revoking(lease, _, _, phase, _, _) =>
        if phase == Written {
          MarkedElsewhere(s, t, lease);
        }
      case Delegating(child, thumbprint, _, phase, _) =>
        if phase != Started {
          ReadsStay(s, t, p);
        }
    }
  }

  /** Locked rows read the same. */
  lemma ReadsStay(s: Store, t: Store, p: Process)
    requires p.Delegating? && Compatible(s, t, p) && Evolves(s, t) && p.child.parent.Some?
    ensures p.phase != Started && HolderOk(s, p.child) ==> HolderOk(t, p.child)
    ensures p.phase != Started && p.phase != HolderRead && DelegatorOk(s, p.child, p.thumbprint) ==> DelegatorOk(t, p.child, p.thumbprint)
    ensures (p.phase == Checked || p.phase == Written) && ParentOk(s, p.child) ==> ParentOk(t, p.child)
    ensures p.phase == Written && RowOk(s, p.child) ==> RowOk(t, p.child)
  {
  }

  /** Two processes past their locks work in different lineages. */
  lemma LocksSeparate(db: Database, q: nat, r: nat)
    requires Consistent(db) && q in db.processes && r in db.processes && q != r
    requires HoldsLock(db.processes[q]) && HoldsLock(db.processes[r])
    ensures db.processes[q].root != db.processes[r].root
  {
    assert LockHeld(db, q) && LockHeld(db, r);
  }

  lemma OthersStayCurrent(db: Database, pid: nat, t: Store)
    requires Consistent(db) && Forest(t.leases) && Evolves(db.store, t)
    requires forall q | q in db.processes && q != pid :: Compatible(db.store, t, db.processes[q])
    requires forall q | q in db.processes && q != pid && HoldsLock(db.processes[q]) :: NewElsewhere(db.store, t, db.processes[q].root)
    ensures forall q | q in db.processes && q != pid :: Current(t, db.processes[q])
  {
    forall q | q in db.processes && q != pid ensures Current(t, db.processes[q]) {
      assert Current(db.store, db.processes[q]);
      CurrentStays(db.store, t, db.processes[q]);
    }
  }

  // ---- Commits are whole transactions ----

  /** The transaction a step completes. */
  ghost function TxnAt(db: Database, pid: nat, action: Action): Option<Txn>
    requires Forest(db.store.leases)
  {
    match action
    case Whole(x) => if RunsWhole(db, x) then Some(x) else None
    case Commit =>
      if pid !in db.processes || db.processes[pid].Idle? || db.processes[pid].phase != Written then None
      else
        var p := db.processes[pid];
        Some(if p.Revoking? then Revoke(p.lease, p.actor, p.at) else Create(p.child, p.thumbprint, p.event))
    case _ => None
  }

  lemma RevokeCommits(s: Store, p: Process)
    requires Forest(s.leases) && p.Revoking? && p.phase == Written && Current(s, p)
    ensures RevokeLeaseLineage(s, p.lease, p.actor, p.at) == (Committed(s, p), Ok(|p.marked|))
  {
    assert MarkRevoked(s.leases, p.marked, p.at) == MarkRevoked(s.leases, Affected(s.leases, {p.lease}), p.at);
  }

  lemma DelegationCommits(s: Store, p: Process)
    requires Forest(s.leases) && p.Delegating? && p.phase == Written && Current(s, p)
    ensures CreateLease(s, p.child, p.thumbprint, p.event) == (Committed(s, p), Ok(()))
  {
    ChecksTogether(s, p.child, p.thumbprint);
  }

  /** Every step of every process leaves the committed tables alone or does to them what one whole transaction does,
      and a delegation or revocation that reaches its commit succeeds as that transaction. */
  lemma CommitIsAtomic(db: Database, pid: nat, action: Action)
    requires Consistent(db)
    ensures var x := TxnAt(db, pid, action);
            && Do(db, pid, action).store == (if x.Some? then Apply(db.store, x.value) else db.store)
            && (x.Some? ==> Fits(x.value))
            && (x.Some? && action.Commit? ==>
                  match x.value
                  case Revoke(lease, actor, at) => RevokeLeaseLineage(db.store, lease, actor, at).1 == Ok(|db.processes[pid].marked|)
                  case Create(child, thumbprint, event) => CreateLease(db.store, child, thumbprint, event).1 == Ok(())
                  case _ => false)
  {
    if action.Commit? && TxnAt(db, pid, action).Some? {
      var p := db.processes[pid];
      assert Current(db.store, p);
      if p.Revoking? {
        RevokeCommits(db.store, p);
      } else {
        DelegationCommits(db.store, p);
      }
    }
  }

  // ---- Steps keep the invariant ----

  /** A process that commits touches no row another has locked: the rows it marks or hangs below lie in its lineage. */
  lemma CommitCompatible(db: Database, pid: nat, q: nat)
    requires Consistent(db) && pid in db.processes && q in db.processes && q != pid
    requires !db.processes[pid].Idle? && db.processes[pid].phase == Written
    ensures Compatible(db.store, Committed(db.store, db.processes[pid]), db.processes[q])
  {
    var p, other := db.processes[pid], db.processes[q];
    assert Current(db.store, p) && Current(db.store, other);
    if HoldsLock(other) {
      LocksSeparate(db, q, pid);
    }
    if p.Revoking? {
      RevokeCompatible(db.store, p, other);
    } else {
      assert other.Delegating? && other.phase == Written ==> !Clash(p.child, other.child);
      InsertCompatible(db.store, p, other);
    }
  }

  lemma RevokeCompatible(s: Store, p: Process, other: Process)
    requires Forest(s.leases) && p.Revoking? && p.phase == Written && Current(s, p) && Current(s, other)
    requires HoldsLock(other) ==> other.root != p.root
    ensures Compatible(s, Committed(s, p), other)
  {
    forall id | id in LockedLeases(other) && id in s.leases ensures id !in p.marked {
      LockedInLineage(s, other, id);
      if id in p.marked {
        LockedInLineage(s, p, id);
      }
    }
  }

  lemma InsertCompatible(s: Store, p: Process, other: Process)
    requires p.Delegating? && p.child.id !in s.leases
    requires other.Delegating? && other.phase == Written ==> !Clash(p.child, other.child) && !LeaseRowClashes(s.leases, other.child)
    ensures Compatible(s, Committed(s, p), other)
  {
  }

  lemma LockedInLineage(s: Store, p: Process, id: Id)
    requires Forest(s.leases) && Current(s, p) && id in LockedLeases(p) && id in s.leases
    ensures HoldsLock(p) && RootOf(s.leases, id) == p.root
  {
    if p.Revoking? {
      AffectedShareRoot(s.leases, p.lease, id);
    }
  }

  lemma CommitElsewhere(db: Database, pid: nat, q: nat)
    requires Consistent(db) && pid in db.processes && q in db.processes && q != pid && HoldsLock(db.processes[q])
    requires !db.processes[pid].Idle? && db.processes[pid].phase == Written
    requires Forest(Committed(db.store, db.processes[pid]).leases) && Evolves(db.store, Committed(db.store, db.processes[pid]))
    ensures NewElsewhere(db.store, Committed(db.store, db.processes[pid]), db.processes[q].root)
  {
    var s, p := db.store, db.processes[pid];
    assert Current(s, p);
    LocksSeparate(db, q, pid);
    if p.Delegating? {
      ChildRoot(s, Committed(s, p), p.child);
    }
  }

  /** An inserted child has the root of its parent. */
  lemma ChildRoot(s: Store, t: Store, child: Lease)
    requires Forest(s.leases) && Forest(t.leases) && Evolves(s, t) && child.parent.Some? && child.parent.value in s.leases
    requires child.id in t.leases && t.leases[child.id] == child
    ensures RootOf(t.leases, child.id) == RootOf(s.leases, child.parent.value)
  {
    RootStable(s, t, child.parent.value);
    assert Placed(t.leases, t.leases[child.id]);
    assert Chain(t.leases, child.id) == Chain(t.leases, child.parent.value) + [child.id];
  }

  lemma CommitKeepsConsistent(db: Database, pid: nat)
    requires Consistent(db) && pid in db.processes && !db.processes[pid].Idle? && db.processes[pid].phase == Written
    ensures Consistent(Do(db, pid, Commit))
  {
    var s, p, after := db.store, db.processes[pid], Do(db, pid, Commit);
    var x := TxnAt(db, pid, Commit).value;
    CommitIsAtomic(db, pid, Commit);
    RevocationKept(s, x);
    ApplyEvolves(s, x);
    forall q | q in db.processes && q != pid ensures Compatible(s, after.store, db.processes[q]) {
      CommitCompatible(db, pid, q);
    }
    forall q | q in db.processes && q != pid && HoldsLock(db.processes[q]) ensures NewElsewhere(s, after.store, db.processes[q].root) {
      CommitElsewhere(db, pid, q);
    }
    OthersStayCurrent(db, pid, after.store);
    LeavingKeepsLocks(db, pid, after);
    AllCurrent(db, pid, after);
  }

  lemma AllCurrent(db: Database, pid: nat, after: Database)
    requires Forest(after.store.leases) && after.processes == db.processes[pid := Idle]
    requires forall q | q in db.processes && q != pid :: Current(after.store, db.processes[q])
    ensures forall q | q in after.processes :: Current(after.store, after.processes[q])
  {
  }

  lemma LeavingKeepsLocks(db: Database, pid: nat, after: Database)
    requires (forall q | q in db.processes :: LockHeld(db, q)) && DistinctInserts(db) && pid in db.processes
    requires after.locks == Released(db.locks, pid) && after.processes == db.processes[pid := Idle]
    ensures (forall q | q in after.processes :: LockHeld(after, q)) && DistinctInserts(after)
  {
    forall q | q in after.processes ensures LockHeld(after, q) {
      assert LockHeld(db, q);
    }
    forall q | q in after.processes && after.processes[q].Delegating? && after.processes[q].phase == Written
      ensures !PendingClash(after, q, after.processes[q].child)
    {
      assert !PendingClash(db, q, db.processes[q].child);
    }
  }

  /** Other transactions insert only new lineages. */
  lemma WholeElsewhere(s: Store, x: Txn, root: Id)
    requires Forest(s.leases) && root in s.leases && (x.Create? ==> x.lease.parent.None?)
    requires Forest(Apply(s, x).leases)
    ensures NewElsewhere(s, Apply(s, x), root)
  {
    ApplyForm(s, x);
    if Apply(s, x) != s {
      ChangesEvolves(s, Apply(s, x), x);
    }
  }

  lemma WholeKeepsConsistent(db: Database, pid: nat, x: Txn)
    requires Consistent(db) && RunsWhole(db, x)
    ensures Consistent(Do(db, pid, Whole(x)))
  {
    var after := Do(db, pid, Whole(x));
    RevocationKept(db.store, x);
    WholeKeepsOthers(db, x);
    InsertsSame(db, after);
    LocksSame(db, after);
  }

  lemma WholeKeepsOthers(db: Database, x: Txn)
    requires Consistent(db) && RunsWhole(db, x)
    ensures Forest(Apply(db.store, x).leases) && forall q | q in db.processes :: Current(Apply(db.store, x), db.processes[q])
  {
    ApplyKeepsForest(db.store, x);
    forall q | q in db.processes ensures Current(Apply(db.store, x), db.processes[q]) {
      assert Current(db.store, db.processes[q]);
      WholeKeepsCurrent(db.store, x, db.processes[q]);
    }
  }

  lemma LocksSame(db: Database, after: Database)
    requires (forall q | q in db.processes :: LockHeld(db, q)) && after.processes == db.processes && after.locks == db.locks
    ensures forall q | q in after.processes :: LockHeld(after, q)
  {
    forall q | q in after.processes ensures LockHeld(after, q) {
      assert LockHeld(db, q);
    }
  }

  lemma WholeKeepsCurrent(s: Store, x: Txn, p: Process)
    requires Forest(s.leases) && Current(s, p) && (x.Create? ==> x.lease.parent.None?) && Compatible(s, Apply(s, x), p)
    ensures Forest(Apply(s, x).leases) && Current(Apply(s, x), p)
  {
    ApplyKeepsForest(s, x);
    ApplyEvolves(s, x);
    if HoldsLock(p) {
      RootIsStored(s.leases, Start(p));
      WholeElsewhere(s, x, p.root);
    }
    CurrentStays(s, Apply(s, x), p);
  }

  lemma InsertsSame(db: Database, after: Database)
    requires DistinctInserts(db) && after.processes == db.processes
    ensures DistinctInserts(after)
  {
    forall q | q in after.processes && after.processes[q].Delegating? && after.processes[q].phase == Written
      ensures !PendingClash(after, q, after.processes[q].child)
    {
      assert !PendingClash(db, q, db.processes[q].child);
    }
  }

  /** One process moves on without committing; it may gain a lock that was free or give its locks up. */
  lemma MoveKeepsConsistent(db: Database, pid: nat, p: Process, locks: map<int, nat>)
    requires Consistent(db) && Current(db.store, p)
    requires HoldsLock(p) ==> LockKey(p.root) in locks && locks[LockKey(p.root)] == pid
    requires forall k | k in db.locks && db.locks[k] != pid :: k in locks && locks[k] == db.locks[k]
    requires p.Delegating? && p.phase == Written ==> !PendingClash(db, pid, p.child)
    ensures Consistent(Database(db.store, locks, db.processes[pid := p]))
  {
    var after := Database(db.store, locks, db.processes[pid := p]);
    forall q | q in after.processes ensures LockHeld(after, q) && Current(after.store, after.processes[q]) {
      if q != pid {
        assert after.processes[q] == db.processes[q];
        assert LockHeld(db, q) && Current(db.store, db.processes[q]);
        if HoldsLock(db.processes[q]) {
          var k := LockKey(db.processes[q].root);
          assert k in db.locks && db.locks[k] == q;
          assert k in locks && locks[k] == q;
        }
      }
    }
    MoveKeepsInserts(db, pid, p, after);
  }

  lemma MoveKeepsInserts(db: Database, pid: nat, p: Process, after: Database)
    requires DistinctInserts(db) && after.processes == db.processes[pid := p]
    requires p.Delegating? && p.phase == Written ==> !PendingClash(db, pid, p.child)
    ensures DistinctInserts(after)
  {
    forall q | q in after.processes && after.processes[q].Delegating? && after.processes[q].phase == Written
      ensures !PendingClash(after, q, after.processes[q].child)
    {
      if q != pid {
        assert !PendingClash(db, q, db.processes[q].child);
      }
      forall r | r in after.processes && r != q && after.processes[r].Delegating? && after.processes[r].phase == Written
        ensures !Clash(after.processes[r].child, after.processes[q].child)
      {
        assert r in db.processes || r == pid;
      }
    }
  }

  lemma StatementCurrent(db: Database, pid: nat, action: Action)
    requires Forest(db.store.leases) && (pid in db.processes ==> Current(db.store, db.processes[pid])) && !action.Commit? && !action.Whole? && !action.Write? && Do(db, pid, action) != db
    ensures var after := Do(db, pid, action);
            && pid in after.processes && after == Database(db.store, after.locks, db.processes[pid := after.processes[pid]])
            && Current(db.store, after.processes[pid])
  {
  }

  lemma WriteCurrent(db: Database, pid: nat)
    requires Forest(db.store.leases) && (pid in db.processes ==> Current(db.store, db.processes[pid])) && Do(db, pid, Write) != db
    ensures var after := Do(db, pid, Write);
            && pid in after.processes && after == Database(db.store, after.locks, db.processes[pid := after.processes[pid]])
            && Current(db.store, after.processes[pid])
  {
  }

  lemma StatementLocks(db: Database, pid: nat, action: Action)
    requires Forest(db.store.leases) && DistinctInserts(db) && (pid in db.processes ==> LockHeld(db, pid)) && !action.Commit? && !action.Whole? && Do(db, pid, action) != db
    ensures var after := Do(db, pid, action);
            && pid in after.processes
            && var p := after.processes[pid];
               && (HoldsLock(p) ==> LockKey(p.root) in after.locks && after.locks[LockKey(p.root)] == pid)
               && (forall k | k in db.locks && db.locks[k] != pid :: k in after.locks && after.locks[k] == db.locks[k])
               && (p.Delegating? && p.phase == Written ==> !PendingClash(db, pid, p.child))
  {
  }

  lemma StatementKeepsConsistent(db: Database, pid: nat, action: Action)
    requires Consistent(db) && !action.Commit? && !action.Whole?
    ensures Consistent(Do(db, pid, action))
  {
    var after := Do(db, pid, action);
    if after != db {
      assert pid in db.processes ==> Current(db.store, db.processes[pid]);
      if action.Write? {
        WriteCurrent(db, pid);
      } else {
        StatementCurrent(db, pid, action);
      }
      assert pid in db.processes ==> LockHeld(db, pid);
      StatementLocks(db, pid, action);
      MoveKeepsConsistent(db, pid, after.processes[pid], after.locks);
    }
  }

  /** Every statement and every whole transaction keeps the invariant. */
  lemma StepKeepsConsistent(db: Database, pid: nat, action: Action)
    requires Consistent(db)
    ensures Consistent(Do(db, pid, action))
  {
    if action.Commit? {
      if pid in db.processes && !db.processes[pid].Idle? && db.processes[pid].phase == Written {
        CommitKeepsConsistent(db, pid);
      }
    } else if action.Whole? {
      if RunsWhole(db, action.txn) {
        WholeKeepsConsistent(db, pid, action.txn);
      }
    } else {
      StatementKeepsConsistent(db, pid, action);
    }
  }

  // ---- Runs ----

  ghost predicate Step(a: Database, b: Database) {
    Forest(a.store.leases) && exists pid: nat, action: Action :: b == Do(a, pid, action)
  }

  ghost predicate Run(states: seq<Database>) {
    && states != [] && states[0] == Database(EMPTY_STORE, map[], map[])
    && forall i | 0 <= i < |states| - 1 :: Step(states[i], states[i + 1])
  }

  lemma {:induction false} RunConsistent(states: seq<Database>, i: nat)
    requires Run(states) && i < |states|
    ensures Consistent(states[i])
  {
    if i == 0 {
      assert RevokedIds(map[]) == {};
    } else {
      RunConsistent(states, i - 1);
      assert Step(states[i - 1], states[i - 1 + 1]);
      var pid: nat, action: Action :| states[i] == Do(states[i - 1], pid, action);
      StepKeepsConsistent(states[i - 1], pid, action);
    }
  }

  /** However the statements interleave, with disablements and rotations in between, no committed descendant of a
      revoked lease is unrevoked, no disabled workload holds an unrevoked lease, and the audit log accounts for all. */
  lemma NoLiveDescendant(states: seq<Database>, i: nat, a: Id, id: Id)
    requires Run(states) && i < |states| && Forest(states[i].store.leases)
    requires id in states[i].store.leases && a in Chain(states[i].store.leases, id) && a in states[i].store.leases
    ensures var s := states[i].store;
            && (s.leases[a].revokedAt.Some? ==> s.leases[id].revokedAt.Some?)
            && s.leases[id].workload in s.workloads
            && (s.workloads[s.leases[id].workload].disabledAt.Some? ==> s.leases[id].revokedAt.Some?)
            && Accounted(s)
  {
    RunConsistent(states, i);
    if states[i].store.leases[a].revokedAt.Some? {
      DescendantsRevoked(states[i].store.leases, id, a);
    }
  }

  // ---- Without the lock ----

  /** A child whose row fits under a committed, unrevoked parent. */
  ghost predicate MayInsert(leases: Leases, child: Lease) {
    && child.parent.Some? && Placed(leases, child) && leases[child.parent.value].revokedAt.None? && child.revokedAt.None?
  }

  /** The checks inside the transaction of a delegation leave no other child to insert. */
  lemma CheckedMayInsert(s: Store, child: Lease, thumbprint: string)
    requires child.parent.Some? && CheckIssue(s, child, thumbprint).Ok? && LeaseRowOk(child) && child.revokedAt.None?
    ensures MayInsert(s.leases, child)
  {
  }

  /**
   What the lock is for. Disabling a workload and rotating a key select their rows without it: the selection sees the
   tables as of its statement, waits for locked rows, and marks the selected rows in the tables as they are then.
   Closure survives exactly when no live lease was inserted below a selected one in between.
   */
  lemma LateSelection(s: Store, t: Store, seeds: set<Id>, at: Time)
    requires Forest(s.leases) && Forest(t.leases) && Evolves(s, t) && DownwardClosed(s.leases) && DownwardClosed(t.leases)
    ensures var selected := Affected(s.leases, seeds);
            DownwardClosed(MarkRevoked(t.leases, selected, at))
            <==> forall id | id in t.leases && id !in s.leases && t.leases[id].parent.Some? && t.leases[id].parent.value in selected ::
                   t.leases[id].revokedAt.Some?
  {
    var selected := Affected(s.leases, seeds);
    var after := MarkRevoked(t.leases, selected, at);
    if DownwardClosed(after) {
      forall id | id in t.leases && id !in s.leases && t.leases[id].parent.Some? && t.leases[id].parent.value in selected
        ensures t.leases[id].revokedAt.Some?
      {
        assert SameIssue(s.leases[t.leases[id].parent.value], t.leases[t.leases[id].parent.value]);
        assert FollowsParent(after, id);
      }
    }
    if forall id | id in t.leases && id !in s.leases && t.leases[id].parent.Some? && t.leases[id].parent.value in selected ::
         t.leases[id].revokedAt.Some?
    {
      forall id | id in after ensures FollowsParent(after, id) {
        assert FollowsParent(t.leases, id);
        if id in s.leases {
          assert SameIssue(s.leases[id], t.leases[id]);
          AffectedChild(s.leases, seeds, id);
        }
      }
    }
  }

  /** For one insert: closure survives exactly when its parent was not selected. */
  lemma UnlockedRevocation(leases: Leases, child: Lease, seeds: set<Id>, at: Time)
    requires Forest(leases) && DownwardClosed(leases) && MayInsert(leases, child) && child.id !in leases
    ensures DownwardClosed(MarkRevoked(leases, Affected(leases, seeds), at)[child.id := child])
            <==> child.parent.value !in Affected(leases, seeds)
  {
    var after := MarkRevoked(leases, Affected(leases, seeds), at)[child.id := child];
    if child.parent.value in Affected(leases, seeds) {
      assert !FollowsParent(after, child.id);
    } else {
      forall id | id in after ensures FollowsParent(after, id) {
        if id in leases {
          assert FollowsParent(leases, id) && Placed(leases, leases[id]);
          AffectedChild(leases, seeds, id);
        }
      }
    }
  }

  /** A delegation about to commit, below a lease of a workload that is neither its holder nor its delegator: the
      disablement of that workload can take its own row but must wait for the parent's. */
  lemma DisablementWaits(s: Store, p: Process, w: Id, actor: string, at: Time)
    requires Forest(s.leases) && p.Delegating? && p.phase == Written && Current(s, p) && w in s.workloads
    requires w != p.child.workload && Some(w) != p.child.delegatedBy
    requires p.child.parent.value in Affected(s.leases, HeldBy(s.leases, w))
    ensures w !in SharedWorkloads(p) && !Compatible(s, DisableWorkload(s, w, actor, at).0, p)
  {
    var parent, t := p.child.parent.value, DisableWorkload(s, w, actor, at).0;
    assert t.leases == MarkRevoked(s.leases, Affected(s.leases, HeldBy(s.leases, w)), at);
    assert t.leases[parent] != s.leases[parent];
  }

  /** And what it selected before leaves the child live below a revoked parent. */
  lemma DisablementMissesChild(s: Store, p: Process, seeds: set<Id>, at: Time)
    requires Forest(s.leases) && p.Delegating? && p.phase == Written && Current(s, p)
    requires p.child.parent.value in Affected(s.leases, seeds)
    ensures var after := MarkRevoked(Committed(s, p).leases, Affected(s.leases, seeds), at);
            && p.child.id in after && after[p.child.id].revokedAt.None? && after[p.child.parent.value].revokedAt.Some?
            && !DownwardClosed(after)
  {
    var after := MarkRevoked(Committed(s, p).leases, Affected(s.leases, seeds), at);
    assert !FollowsParent(after, p.child.id);
  }
}
