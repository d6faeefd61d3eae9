/** The statement-level runs keep not only revocation but the whole invariant of the tables, when their transactions are
    the ones the use cases run. */
module StatementRuns {
  import opened Wrappers
  import opened Attenuation
  import opened AttenuationMeaning
  import opened Domain
  import opened Lineage
  import opened Transactions
  import opened Evolution
  import opened Revocation
  import opened Uses
  import opened Usecase
  import opened Authority
  import opened LockProtocol
  import ControlPlane
  import Operations
  import Keys

  /** A run with the clock at each of its states; steps[i] leads from states[i] to states[i + 1]. */
  datatype History = History(states: seq<Database>, steps: seq<(nat, Action)>, clocks: seq<Time>)

  /** A delegation begins with a lease planned from tables read earlier, and whole transactions are those of the use cases. */
  ghost predicate ProperStep(config: Config, db: Database, action: Action, clock: Time) {
    && (action.Whole? ==> ControlPlane.Proper(config, db.store, clock, action.txn))
    && (action.Begin? && action.next.Delegating? ==> ControlPlane.Proper(config, db.store, clock, Creation(action.next)))
  }

  function Creation(p: Process): Txn
    requires p.Delegating?
  {
    Create(p.child, p.thumbprint, p.event)
  }

  ghost predicate Proceeds(config: Config, h: History, i: nat)
    requires |h.states| == |h.clocks| == |h.steps| + 1 && i < |h.steps|
  {
    && Forest(h.states[i].store.leases) && h.clocks[i] <= h.clocks[i + 1]
    && h.states[i + 1] == Do(h.states[i], h.steps[i].0, h.steps[i].1) && ProperStep(config, h.states[i], h.steps[i].1, h.clocks[i])
  }

  ghost predicate Happened(config: Config, h: History) {
    && |h.states| == |h.clocks| == |h.steps| + 1 && h.states[0] == Database(EMPTY_STORE, map[], map[])
    && forall i: nat {:trigger Proceeds(config, h, i)} | i < |h.steps| :: Proceeds(config, h, i)
  }

  /** A request the control plane has planned is one a delegation may begin with. */
  lemma PlannedMayBegin(config: Config, s: Store, clock: Time, flight: ControlPlane.Flight)
    requires flight.Planned? && ControlPlane.FlightSound(config, s, clock, flight)
    ensures ControlPlane.Proper(config, s, clock, Create(flight.lease, flight.thumbprint, flight.event))
  {
    ControlPlane.PlannedProper(config, s, clock, flight);
  }

  // ---- The invariant ----

  ghost predicate Planned(config: Config, s: Store, clock: Time, p: Process) {
    p.Delegating? ==> ControlPlane.Proper(config, s, clock, Creation(p))
  }

  ghost predicate Sound(config: Config, db: Database, clock: Time) {
    && Consistent(db) && ControlPlane.StoreSound(config, db.store, clock)
    && forall q {:trigger Planned(config, db.store, clock, db.processes[q])} | q in db.processes :: Planned(config, db.store, clock, db.processes[q])
  }

  /** A plan outlives every commit. */
  lemma PlannedLater(config: Config, s: Store, t: Store, clock: Time, later: Time, p: Process)
    requires Planned(config, s, clock, p) && Evolves(s, t) && clock <= later
    ensures Planned(config, t, later, p)
  {
    if p.Delegating? {
      AuthorizedLater(config, s, t, p.child, p.child);
    }
  }

  lemma TxnProper(config: Config, db: Database, pid: nat, action: Action, clock: Time)
    requires Sound(config, db, clock) && ProperStep(config, db, action, clock) && TxnAt(db, pid, action).Some?
    ensures ControlPlane.Proper(config, db.store, clock, TxnAt(db, pid, action).value)
  {
    if action.Commit? {
      assert Planned(config, db.store, clock, db.processes[pid]);
    }
  }

  lemma StepStoreSound(config: Config, db: Database, pid: nat, action: Action, clock: Time)
    requires Sound(config, db, clock) && ProperStep(config, db, action, clock)
    ensures ControlPlane.StoreSound(config, Do(db, pid, action).store, clock) && Evolves(db.store, Do(db, pid, action).store)
  {
    CommitIsAtomic(db, pid, action);
    var x := TxnAt(db, pid, action);
    if x.Some? {
      TxnProper(config, db, pid, action, clock);
      ApplyEvolves(db.store, x.value);
      Operations.TxnKeepsSound(config, db.store, Do(db, pid, action).store, clock, x.value);
    } else {
      EvolvesItself(db.store);
    }
  }

  /** A step lets no process delegate anything but what it began with. */
  lemma ProcessFrom(db: Database, pid: nat, action: Action, q: nat)
    requires Forest(db.store.leases) && q in Do(db, pid, action).processes && Do(db, pid, action).processes[q].Delegating?
    ensures var p := Do(db, pid, action).processes[q];
            || (action.Begin? && action.next == p)
            || (q in db.processes && db.processes[q].Delegating? && Creation(db.processes[q]) == Creation(p))
  {
  }

  lemma StepSound(config: Config, db: Database, pid: nat, action: Action, clock: Time, later: Time)
    requires Sound(config, db, clock) && ProperStep(config, db, action, clock) && clock <= later
    ensures Sound(config, Do(db, pid, action), later)
  {
    var after := Do(db, pid, action);
    StepKeepsConsistent(db, pid, action);
    StepStoreSound(config, db, pid, action, clock);
    ControlPlane.StoreSoundLater(config, after.store, clock, later);
    forall q | q in after.processes ensures Planned(config, after.store, later, after.processes[q]) {
      if after.processes[q].Delegating? {
        ProcessPlanned(config, db, pid, action, clock, q);
        PlannedLater(config, db.store, after.store, clock, later, after.processes[q]);
      }
    }
  }

  lemma ProcessPlanned(config: Config, db: Database, pid: nat, action: Action, clock: Time, q: nat)
    requires Sound(config, db, clock) && ProperStep(config, db, action, clock)
    requires q in Do(db, pid, action).processes && Do(db, pid, action).processes[q].Delegating?
    ensures Planned(config, db.store, clock, Do(db, pid, action).processes[q])
  {
    ProcessFrom(db, pid, action, q);
    if q in db.processes {
      assert Planned(config, db.store, clock, db.processes[q]);
    }
  }

  lemma StartSound(config: Config, clock: Time)
    ensures Sound(config, Database(EMPTY_STORE, map[], map[]), clock)
  {
    assert RevokedIds(map[]) == {};
    ControlPlane.EmptyStoreSound(config, clock);
  }

  ghost predicate SoundAt(config: Config, h: History, i: nat)
    requires |h.states| == |h.clocks| && i < |h.states|
  {
    Sound(config, h.states[i], h.clocks[i])
  }

  /** The whole invariant, authority, grants, keys and uses included, in every state of every such run. */
  lemma {:induction false} HistorySound(config: Config, h: History, n: nat)
    requires Happened(config, h) && n < |h.states|
    ensures SoundAt(config, h, n)
    decreases n, 1
  {
    if n == 0 {
      FirstSound(config, h);
    } else {
      NextFromLast(config, h, n);
    }
  }

  lemma {:induction false} NextFromLast(config: Config, h: History, n: nat)
    requires Happened(config, h) && 0 < n < |h.states|
    ensures SoundAt(config, h, n)
    decreases n, 0
  {
    HistorySound(config, h, n - 1);
    ProceedsSound(config, h, n - 1);
  }

  lemma ProceedsSound(config: Config, h: History, n: nat)
    requires Happened(config, h) && n + 1 < |h.states| && SoundAt(config, h, n)
    ensures SoundAt(config, h, n + 1)
  {
    assert Proceeds(config, h, n);
    StepSound(config, h.states[n], h.steps[n].0, h.steps[n].1, h.clocks[n], h.clocks[n + 1]);
  }

  lemma FirstSound(config: Config, h: History)
    requires Happened(config, h)
    ensures SoundAt(config, h, 0)
  {
    StartSound(config, h.clocks[0]);
  }

  /** So authority never grows and uses are numbered while the statements interleave. */
  lemma StatementsKeepAuthority(config: Config, h: History, i: nat, id: Id, a: Id, audience: string, d: Demand, skew: Duration)
    requires Happened(config, h) && i < |h.states| && Forest(h.states[i].store.leases)
    requires id in h.states[i].store.leases && a in Chain(h.states[i].store.leases, id)
    ensures var s, l := h.states[i].store, h.states[i].store.leases[id];
            && (Admitted(l, audience, d, skew) ==>
                  && a in s.leases && Admitted(s.leases[a], audience, d, skew)
                  && l.rootLease in s.leases && l.rootWorkload in s.workloads
                  && Granted(s.workloads[l.rootWorkload].grant, s.leases[l.rootLease].issuedAt, audience, d, skew))
            && Numbered(s.uses, id, l.usesConsumed) && l.usesConsumed <= l.maxUses
  {
    HistorySound(config, h, i);
    var s := h.states[i].store;
    assert LeaseUses(s, id);
    if Admitted(s.leases[id], audience, d, skew) {
      AncestorsAdmitMore(config, s, id, a, audience, d, skew);
      GrantCovers(config, s, id, audience, d, skew);
    }
  }

  /** And no key is accepted for two workloads. */
  lemma StatementsKeepKeys(config: Config, h: History, i: nat, a: Id, b: Id, key: string, at: Time)
    requires Happened(config, h) && i < |h.states| && h.clocks[i] <= at
    requires a in h.states[i].store.workloads && b in h.states[i].store.workloads && a != b
    ensures !(Accepts(h.states[i].store.workloads[a], key, at) && Accepts(h.states[i].store.workloads[b], key, at))
  {
    HistorySound(config, h, i);
    Keys.OneWorkloadPerKey(h.states[i].store.workloads, h.clocks[i], a, b, key, at);
  }
}
