/**
 The control plane as a transition system. A mint or a delegation is several steps: reads without a lock, a plan
 made from what was read, and a commit; any other step may come in between. Flights are requests under way; they
 are never removed, so a plan may also be committed late, or twice.
 */
module ControlPlane {
  import opened Wrappers
  import opened Text
  import opened Attenuation
  import opened AttenuationMeaning
  import opened Domain
  import opened Lineage
  import opened Transactions
  import opened Evolution
  import opened Revocation
  import opened Keys
  import opened Uses
  import opened Usecase
  import opened Authority

  datatype Flight =
    | Minting(mint: MintRequest, now: Time)
    | ParentFetched(request: DelegateRequest, parent: Lease)
    | ParentChecked(request: DelegateRequest, parent: Lease, now: Time)
    | Planned(lease: Lease, thumbprint: string, event: AuditEvent)

  datatype System = System(store: Store, clock: Time, flights: set<Flight>, presented: set<UseKey>)

  datatype Step =
    | Tick(to: Time)
    | RegisterWorkload(id: Id, name: string, publicKey: Key, grant: Grant, actor: string, at: Time)
    | RotateKey(rotation: Rotation, at: Time)
    | DisableWorkload(id: Id, actor: string, at: Time)
    | RevokeLease(id: Id, actor: string, at: Time)
    | ConsumeUse(id: Id, tokenHash: Digest, key: string, at: Time)
    | ConsumeNonce(id: Id, nonce: string, expiresAt: Time, databaseNow: Time)
    | StartMint(mint: MintRequest)
    | ReadGrantAndPlan(flight: Flight, newId: Id, tokenId: Id)
    | FetchParent(request: DelegateRequest)
    | CheckFetched(flight: Flight, tokenNow: Time)
    | ReadRecipientAndPlan(flight: Flight, newId: Id, tokenId: Id)
    | Commit(flight: Flight)

  const INITIAL := System(EMPTY_STORE, 1, {}, {})

  /** The transaction a step runs, if it runs one. Times were read from the clock before the transaction. */
  ghost function TxnOf(config: Config, sys: System, step: Step): Option<Txn> {
    match step
    case RegisterWorkload(id, name, key, grant, actor, at) =>
      var plan := PlanWorkload(config, id, name, key, grant, WholeSecond(at));
      if at <= sys.clock && plan.Ok? then Some(Register(plan.value, RegisteredEvent(plan.value, actor)))
      else None
    case RotateKey(r, at) => if at <= sys.clock then Some(Rotate(r, WholeSecond(at))) else None
    case DisableWorkload(id, actor, at) => Some(Disable(id, actor, WholeSecond(at)))
    case RevokeLease(id, actor, at) => Some(Revoke(id, actor, WholeSecond(at)))
    case ConsumeUse(id, hash, key, at) => if 16 <= |key| <= 128 then Some(Spend(id, hash, key, WholeSecond(at))) else None
    case ConsumeNonce(id, nonce, expiresAt, now) => Some(SpendNonce(id, nonce, expiresAt, now))
    case Commit(flight) =>
      if flight in sys.flights && flight.Planned? then Some(Create(flight.lease, flight.thumbprint, flight.event)) else None
    case _ => None
  }

  /** The flight a step starts or advances, if any. */
  ghost function FlightOf(config: Config, sys: System, step: Step): Option<Flight> {
    match step
    case StartMint(request) => if MintRequestOk(request) then Some(Minting(request, WholeSecond(sys.clock))) else None
    case ReadGrantAndPlan(flight, id, tokenId) =>
      if flight in sys.flights && flight.Minting? && flight.mint.workload in sys.store.workloads && id != "" && tokenId != "" then
        var plan := PlanMint(config, sys.store.workloads[flight.mint.workload], flight.mint, flight.now, id, tokenId);
        if plan.Ok? then Some(Planned(plan.value, flight.mint.thumbprint, MintEvent(plan.value))) else None
      else None
    case FetchParent(request) =>
      if DelegateRequestOk(request) && request.parent in sys.store.leases
      then Some(ParentFetched(request, sys.store.leases[request.parent])) else None
    case CheckFetched(flight, tokenNow) =>
      if flight in sys.flights && flight.ParentFetched?
         && CheckParent(config, flight.parent, flight.request, WholeSecond(sys.clock), tokenNow).Ok?
      then Some(ParentChecked(flight.request, flight.parent, WholeSecond(sys.clock)))
      else None
    case ReadRecipientAndPlan(flight, id, tokenId) =>
      if flight in sys.flights && flight.ParentChecked? && flight.request.recipient in sys.store.workloads && id != "" && tokenId != "" then
        var plan := PlanDelegate(config, flight.parent, sys.store.workloads[flight.request.recipient], flight.request, flight.now, id, tokenId);
        if plan.Ok? then Some(Planned(plan.value, flight.request.thumbprint, DelegateEvent(plan.value, flight.parent.workload))) else None
      else None
    case _ => None
  }

  ghost function Do(config: Config, sys: System, step: Step): System
    requires Forest(sys.store.leases)
  {
    var txn, flight := TxnOf(config, sys, step), FlightOf(config, sys, step);
    System(
      if txn.Some? then Apply(sys.store, txn.value) else sys.store,
      if step.Tick? && step.to >= sys.clock then step.to else sys.clock,
      if flight.Some? then sys.flights + {flight.value} else sys.flights,
      if txn.Some? && txn.value.Spend? && Usable(sys.store, txn.value.id, txn.value.tokenHash, txn.value.at)
      then sys.presented + {(txn.value.id, txn.value.key)} else sys.presented)
  }

  // ---- The invariant ----

  /** A row read earlier still has the authority of the stored row. */
  ghost predicate Fetched(config: Config, s: Store, clock: Time, request: DelegateRequest, parent: Lease) {
    && DelegateRequestOk(request) && parent.id in s.leases && SameIssue(parent, s.leases[parent.id])
    && parent.issuedAt <= clock && parent.issuedAt % SECOND == 0
  }

  ghost predicate FlightSound(config: Config, s: Store, clock: Time, f: Flight) {
    match f
    case Minting(request, now) => MintRequestOk(request) && now <= clock && now % SECOND == 0
    case ParentFetched(request, parent) => Fetched(config, s, clock, request, parent)
    case ParentChecked(request, parent, now) =>
      && Fetched(config, s, clock, request, parent) && parent.issuedAt <= now <= clock && now % SECOND == 0
      && (parent.confirmation.Some? ==> request.thumbprint == parent.confirmation.value)
    case Planned(l, thumbprint, event) =>
      && Authorized(config, s, l) && l.issuedAt <= clock && Fits(Create(l, thumbprint, event)) && l.usesConsumed == 0
      && (l.parent.Some? && s.leases[l.parent.value].confirmation.Some? ==>
            thumbprint == s.leases[l.parent.value].confirmation.value)
  }

  /** Every presented key is accepted, unless the lease is used up; and only presented keys are accepted. */
  ghost predicate PresentedSound(s: Store, presented: set<UseKey>) {
    && (forall u | u in presented :: u.0 in s.leases && (u in s.uses || s.leases[u.0].usesConsumed == s.leases[u.0].maxUses))
    && (forall u | u in s.uses :: u in presented)
  }

  ghost predicate StoreSound(config: Config, s: Store, clock: Time) {
    && AllAuthorized(config, s)
    && GrantsSound(config, s)
    && RevocationSound(s)
    && KeysSeparate(s.workloads, clock)
    && UsesSound(s)
    && (forall id | id in s.leases :: s.leases[id].issuedAt <= clock)
  }

  ghost predicate Good(config: Config, sys: System) {
    && StoreSound(config, sys.store, sys.clock)
    && PresentedSound(sys.store, sys.presented)
    && (forall f {:trigger FlightSound(config, sys.store, sys.clock, f)} | f in sys.flights :: FlightSound(config, sys.store, sys.clock, f))
  }

  lemma FlightSoundLater(config: Config, s: Store, t: Store, clock: Time, later: Time, f: Flight)
    requires FlightSound(config, s, clock, f) && Evolves(s, t) && clock <= later
    ensures FlightSound(config, t, later, f)
  {
    match f {
      case Minting(_, _) =>
      case ParentFetched(_, parent) =>
        assert SameIssue(s.leases[parent.id], t.leases[parent.id]);
      case ParentChecked(_, parent, _) =>
        assert SameIssue(s.leases[parent.id], t.leases[parent.id]);
      case Planned(l, _, _) =>
        AuthorizedLater(config, s, t, l, l);
    }
  }

  lemma FlightStarts(config: Config, sys: System, step: Step)
    requires Good(config, sys) && FlightOf(config, sys, step).Some?
    ensures FlightSound(config, sys.store, sys.clock, FlightOf(config, sys, step).value)
  {
    match step {
      case StartMint(_) => WholeSecondIsWhole(sys.clock);
      case ReadGrantAndPlan(flight, id, tokenId) => MintPlanned(config, sys, flight, id, tokenId);
      case FetchParent(request) => ParentWasFetched(config, sys, request);
      case CheckFetched(flight, tokenNow) =>
        assert FlightSound(config, sys.store, sys.clock, flight);
        WholeSecondsCompare(flight.parent.issuedAt, sys.clock);
      case ReadRecipientAndPlan(flight, id, tokenId) => DelegationPlanned(config, sys, flight, id, tokenId);
    }
  }

  lemma MintPlanned(config: Config, sys: System, flight: Flight, id: Id, tokenId: Id)
    requires AllAuthorized(config, sys.store) && flight.Minting? && FlightSound(config, sys.store, sys.clock, flight)
    requires flight.mint.workload in sys.store.workloads && id != "" && tokenId != ""
    ensures var plan := PlanMint(config, sys.store.workloads[flight.mint.workload], flight.mint, flight.now, id, tokenId);
            plan.Ok? ==> FlightSound(config, sys.store, sys.clock, Planned(plan.value, flight.mint.thumbprint, MintEvent(plan.value)))
  {
    var plan := PlanMint(config, sys.store.workloads[flight.mint.workload], flight.mint, flight.now, id, tokenId);
    if plan.Ok? {
      PlanMintAuthorized(config, sys.store, flight.mint, flight.now, id, tokenId);
    }
  }

  lemma ParentWasFetched(config: Config, sys: System, request: DelegateRequest)
    requires AllAuthorized(config, sys.store) && request.parent in sys.store.leases && DelegateRequestOk(request)
    requires sys.store.leases[request.parent].issuedAt <= sys.clock
    ensures FlightSound(config, sys.store, sys.clock, ParentFetched(request, sys.store.leases[request.parent]))
  {
    assert Authorized(config, sys.store, sys.store.leases[request.parent]);
  }

  lemma DelegationPlanned(config: Config, sys: System, flight: Flight, id: Id, tokenId: Id)
    requires AllAuthorized(config, sys.store) && flight.ParentChecked? && FlightSound(config, sys.store, sys.clock, flight)
    requires flight.request.recipient in sys.store.workloads && id != "" && tokenId != ""
    requires sys.store.workloads[flight.request.recipient].id == flight.request.recipient
    ensures var plan := PlanDelegate(config, flight.parent, sys.store.workloads[flight.request.recipient], flight.request, flight.now, id, tokenId);
            plan.Ok? ==>
              FlightSound(config, sys.store, sys.clock, Planned(plan.value, flight.request.thumbprint, DelegateEvent(plan.value, flight.parent.workload)))
  {
    var plan := PlanDelegate(config, flight.parent, sys.store.workloads[flight.request.recipient], flight.request, flight.now, id, tokenId);
    if plan.Ok? {
      PlanDelegateAuthorized(config, sys.store, flight.parent, flight.request, flight.now, id, tokenId);
    }
  }

  lemma WholeSecondIsWhole(t: Time)
    ensures WholeSecond(t) <= t && WholeSecond(t) % SECOND == 0
  {
  }

  lemma WholeSecondsCompare(a: Time, b: Time)
    requires a % SECOND == 0 && a <= b
    ensures a <= WholeSecond(b) <= b && WholeSecond(b) % SECOND == 0
  {
    assert (b - a) % SECOND == b % SECOND;
  }

  /** What the use cases guarantee of a transaction they run. */
  ghost predicate Proper(config: Config, s: Store, clock: Time, x: Txn) {
    && Fits(x) && Timely(x, clock) && StartsUnused(x) && (x.Spend? ==> 16 <= |x.key| <= 128)
    && (x.Create? ==> Authorized(config, s, x.lease) && x.lease.issuedAt <= clock)
    && (x.Register? ==> GrantLimits(config, x.workload.grant) && x.workload.grant.version == 1)
  }

  lemma TxnFits(config: Config, sys: System, step: Step)
    requires Good(config, sys) && TxnOf(config, sys, step).Some?
    ensures Proper(config, sys.store, sys.clock, TxnOf(config, sys, step).value)
  {
    match step {
      case Commit(flight) => PlannedProper(config, sys.store, sys.clock, flight);
      case RegisterWorkload(id, name, key, grant, actor, at) => RegistrationProper(config, sys.store, sys.clock, id, name, key, grant, actor, at);
      case RotateKey(_, at) => assert WholeSecond(at) <= at;
      case _ =>
    }
  }

  lemma PlannedProper(config: Config, s: Store, clock: Time, flight: Flight)
    requires flight.Planned? && FlightSound(config, s, clock, flight)
    ensures Proper(config, s, clock, Create(flight.lease, flight.thumbprint, flight.event))
  {
  }

  lemma RegistrationProper(config: Config, s: Store, clock: Time, id: Id, name: string, key: Key, grant: Grant, actor: string, at: Time)
    requires at <= clock && PlanWorkload(config, id, name, key, grant, WholeSecond(at)).Ok?
    ensures var w := PlanWorkload(config, id, name, key, grant, WholeSecond(at)).value;
            Proper(config, s, clock, Register(w, RegisteredEvent(w, actor)))
  {
    ValidateGrantExact(config, grant);
    assert WholeSecond(at) <= at;
  }

  lemma IssueTimes(s: Store, x: Txn, clock: Time)
    requires Forest(s.leases) && (forall id | id in s.leases :: s.leases[id].issuedAt <= clock)
    requires x.Create? ==> x.lease.issuedAt <= clock
    ensures forall id | id in Apply(s, x).leases :: Apply(s, x).leases[id].issuedAt <= clock
  {
    ApplyForm(s, x);
    var t := Apply(s, x);
    if t != s {
      ChangesEvolves(s, t, x);
      forall id | id in t.leases ensures t.leases[id].issuedAt <= clock {
        if id in s.leases {
          assert SameIssue(s.leases[id], t.leases[id]);
        } else {
          CreatedRow(s, t, x, id);
        }
      }
    }
  }

  lemma PresentedKept(s: Store, x: Txn, presented: set<UseKey>)
    requires Forest(s.leases) && UsesSound(s) && PresentedSound(s, presented)
    requires x.Spend? ==> 16 <= |x.key| <= 128
    ensures PresentedSound(Apply(s, x),
                           if x.Spend? && Usable(s, x.id, x.tokenHash, x.at) then presented + {(x.id, x.key)} else presented)
  {
    if x.Spend? {
      PresentedSpend(s, x.id, x.tokenHash, x.key, x.at, presented);
    } else {
      ApplyForm(s, x);
      if Apply(s, x) != s {
        UseRowsKept(s, Apply(s, x), x);
      }
    }
  }

  lemma PresentedSpend(s: Store, id: Id, hash: Digest, key: string, at: Time, presented: set<UseKey>)
    requires UsesSound(s) && PresentedSound(s, presented) && 16 <= |key| <= 128
    ensures PresentedSound(ConsumeLeaseUse(s, id, hash, key, at).0, if Usable(s, id, hash, at) then presented + {(id, key)} else presented)
  {
    if Usable(s, id, hash, at) {
      var n := s.leases[id].usesConsumed;
      assert LeaseUses(s, id);
      assert !UseNumberTaken(s.uses, id, n + 1);
      SpendOutcome(s, id, hash, key, at);
    }
  }

  lemma UseRowsKept(s: Store, t: Store, x: Txn)
    requires Forest(s.leases) && Changes(s, t, x) && !x.Spend?
    ensures t.uses == s.uses
    ensures forall id | id in s.leases ::
              id in t.leases && t.leases[id].usesConsumed == s.leases[id].usesConsumed && t.leases[id].maxUses == s.leases[id].maxUses
  {
    if x.Rotate? || x.Disable? || x.Revoke? {
      RowsMarked(s, t, x);
    }
  }

  lemma StoreKeepsGood(config: Config, sys: System, x: Txn)
    requires Good(config, sys) && Proper(config, sys.store, sys.clock, x)
    ensures StoreSound(config, Apply(sys.store, x), sys.clock) && Evolves(sys.store, Apply(sys.store, x))
    ensures PresentedSound(Apply(sys.store, x),
                           if x.Spend? && Usable(sys.store, x.id, x.tokenHash, x.at) then sys.presented + {(x.id, x.key)} else sys.presented)
  {
    ApplyEvolves(sys.store, x);
    AuthorizedKept(config, sys.store, x);
    GrantsKept(config, sys.store, x);
    RevocationKept(sys.store, x);
    KeysKept(sys.store, x, sys.clock);
    UsesKept(sys.store, x);
    IssueTimes(sys.store, x, sys.clock);
    PresentedKept(sys.store, x, sys.presented);
  }

  lemma GoodLater(config: Config, sys: System, next: System)
    requires Good(config, sys) && StoreSound(config, next.store, sys.clock) && Evolves(sys.store, next.store)
    requires PresentedSound(next.store, next.presented) && sys.clock <= next.clock
    requires forall f | f in next.flights :: f in sys.flights || FlightSound(config, sys.store, sys.clock, f)
    ensures Good(config, next)
  {
    SeparateLater(next.store.workloads, sys.clock, next.clock);
    forall f | f in next.flights ensures FlightSound(config, next.store, next.clock, f) {
      assert FlightSound(config, sys.store, sys.clock, f);
      FlightSoundLater(config, sys.store, next.store, sys.clock, next.clock, f);
    }
  }

  /** The parts of a step put together: what its transaction and its flight must satisfy. */
  lemma PartsKeepGood(config: Config, sys: System, next: System, txn: Option<Txn>, flight: Option<Flight>)
    requires Good(config, sys) && sys.clock <= next.clock
    requires txn.Some? ==> Proper(config, sys.store, sys.clock, txn.value)
    requires flight.Some? ==> FlightSound(config, sys.store, sys.clock, flight.value)
    requires next.store == if txn.Some? then Apply(sys.store, txn.value) else sys.store
    requires next.flights == if flight.Some? then sys.flights + {flight.value} else sys.flights
    requires next.presented == if txn.Some? && txn.value.Spend? && Usable(sys.store, txn.value.id, txn.value.tokenHash, txn.value.at)
                               then sys.presented + {(txn.value.id, txn.value.key)} else sys.presented
    ensures Good(config, next) && Evolves(sys.store, next.store)
  {
    StoreAfter(config, sys, txn, next.store, next.presented);
    GoodLater(config, sys, next);
  }

  lemma StoreAfter(config: Config, sys: System, txn: Option<Txn>, store: Store, presented: set<UseKey>)
    requires Good(config, sys) && (txn.Some? ==> Proper(config, sys.store, sys.clock, txn.value))
    requires store == if txn.Some? then Apply(sys.store, txn.value) else sys.store
    requires presented == if txn.Some? && txn.value.Spend? && Usable(sys.store, txn.value.id, txn.value.tokenHash, txn.value.at)
                          then sys.presented + {(txn.value.id, txn.value.key)} else sys.presented
    ensures StoreSound(config, store, sys.clock) && Evolves(sys.store, store) && PresentedSound(store, presented)
  {
    if txn.Some? {
      StoreKeepsGood(config, sys, txn.value);
    }
  }

  /** Every step keeps the invariant. */
  lemma StepKeepsGood(config: Config, sys: System, step: Step)
    requires Good(config, sys)
    ensures Good(config, Do(config, sys, step))
    ensures Evolves(sys.store, Do(config, sys, step).store)
  {
    var txn, flight := TxnOf(config, sys, step), FlightOf(config, sys, step);
    if txn.Some? {
      TxnFits(config, sys, step);
    }
    if flight.Some? {
      FlightStarts(config, sys, step);
    }
    PartsKeepGood(config, sys, Do(config, sys, step), txn, flight);
  }

  // ---- Runs ----

  lemma InitialGood(config: Config)
    ensures Good(config, INITIAL)
  {
    assert RevokedIds(map[]) == {};
  }

  /** The invariant of the tables does not depend on how late it is. */
  lemma StoreSoundLater(config: Config, s: Store, clock: Time, later: Time)
    requires StoreSound(config, s, clock) && clock <= later
    ensures StoreSound(config, s, later)
  {
    SeparateLater(s.workloads, clock, later);
  }

  lemma EmptyStoreSound(config: Config, clock: Time)
    ensures StoreSound(config, EMPTY_STORE, clock)
  {
    InitialGood(config);
  }

  ghost predicate Next(config: Config, a: System, b: System) {
    Forest(a.store.leases) && exists step: Step :: b == Do(config, a, step)
  }

  lemma NextKeepsGood(config: Config, a: System, b: System)
    requires Good(config, a) && Next(config, a, b)
    ensures Good(config, b) && Evolves(a.store, b.store)
  {
    var step :| b == Do(config, a, step);
    StepKeepsGood(config, a, step);
  }

  /** A finite run: states from the initial one on, each a step after the one before. */
  ghost predicate Run(config: Config, states: seq<System>) {
    && states != [] && states[0] == INITIAL
    && forall i | 0 <= i < |states| - 1 :: Next(config, states[i], states[i + 1])
  }

  /** The invariant holds in every state of every run. */
  lemma {:induction false} RunGood(config: Config, states: seq<System>, i: nat)
    requires Run(config, states) && i < |states|
    ensures Good(config, states[i])
  {
    if i == 0 {
      InitialGood(config);
    } else {
      RunGood(config, states, i - 1);
      assert Next(config, states[i - 1], states[i - 1 + 1]);
      NextKeepsGood(config, states[i - 1], states[i]);
    }
  }

  lemma RunStepEvolves(config: Config, states: seq<System>, j: nat)
    requires Run(config, states) && 0 < j < |states|
    ensures Evolves(states[j - 1].store, states[j].store)
  {
    RunGood(config, states, j - 1);
    assert Next(config, states[j - 1], states[j - 1 + 1]);
    NextKeepsGood(config, states[j - 1], states[j]);
  }

  function Stores(states: seq<System>): (stores: seq<Store>)
    ensures |stores| == |states| && forall i | 0 <= i < |states| :: stores[i] == states[i].store
  {
    seq(|states|, i requires 0 <= i < |states| => states[i].store)
  }

  /** Along a run, later tables evolve from earlier ones. */
  lemma RunEvolves(config: Config, states: seq<System>, i: nat, j: nat)
    requires Run(config, states) && i <= j < |states|
    ensures Evolves(states[i].store, states[j].store)
  {
    forall k: nat | 0 < k < |states| ensures EvolvesInto(Stores(states), k) {
      RunStepEvolves(config, states, k);
    }
    SequenceEvolves(Stores(states), i, j);
  }

  /** A step adds no lease that is already revoked. */
  lemma NewLeasesUnrevoked(config: Config, states: seq<System>, i: nat)
    requires Run(config, states) && 0 < i < |states|
    ensures forall id | id in states[i].store.leases && id !in states[i - 1].store.leases :: states[i].store.leases[id].revokedAt.None?
  {
    RunGood(config, states, i - 1);
    var a, b := states[i - 1], states[i - 1 + 1];
    assert Next(config, a, b);
    var step: Step :| b == Do(config, a, step);
    if TxnOf(config, a, step).Some? {
      var x := TxnOf(config, a, step).value;
      TxnFits(config, a, step);
      ApplyForm(a.store, x);
      if b.store != a.store {
        forall id | id in b.store.leases && id !in a.store.leases ensures b.store.leases[id].revokedAt.None? {
          CreatedRow(a.store, b.store, x, id);
        }
      }
    }
  }

  // ---- The theorems, over every run ----

  /** Authority(child) is inside Authority(parent), Authority(root lease) and the root workload's grant. */
  lemma AuthorityNeverGrows(config: Config, states: seq<System>, i: nat, id: Id, a: Id, audience: string, d: Demand, skew: Duration)
    requires Run(config, states) && i < |states| && Forest(states[i].store.leases)
    requires id in states[i].store.leases && a in Chain(states[i].store.leases, id)
    requires Admitted(states[i].store.leases[id], audience, d, skew)
    ensures var s := states[i].store;
            && a in s.leases && Admitted(s.leases[a], audience, d, skew)
            && s.leases[id].rootLease in s.leases && s.leases[id].rootWorkload in s.workloads
            && Granted(s.workloads[s.leases[id].rootWorkload].grant, s.leases[s.leases[id].rootLease].issuedAt, audience, d, skew)
  {
    var s := states[i].store;
    RunGood(config, states, i);
    AncestorsAdmitMore(config, s, id, a, audience, d, skew);
    GrantCovers(config, s, id, audience, d, skew);
  }

  /** A revocation, once committed, keeps its time and holds for all descendants in every later state, also for
      those whose delegation was under way. */
  lemma RevocationReachesDescendants(config: Config, states: seq<System>, i: nat, j: nat, a: Id, id: Id)
    requires Run(config, states) && i <= j < |states| && Forest(states[j].store.leases)
    requires a in states[i].store.leases && states[i].store.leases[a].revokedAt.Some?
    requires id in states[j].store.leases && a in Chain(states[j].store.leases, id)
    ensures states[j].store.leases[id].revokedAt.Some?
    ensures a in states[j].store.leases && states[j].store.leases[a].revokedAt == states[i].store.leases[a].revokedAt
  {
    RunEvolves(config, states, i, j);
    RunGood(config, states, j);
    assert SameIssue(states[i].store.leases[a], states[j].store.leases[a]);
    DescendantsRevoked(states[j].store.leases, id, a);
  }

  /** The audit log accounts for every lease and every revocation; disabled workloads hold no live lease. */
  lemma AuditAccounts(config: Config, states: seq<System>, i: nat)
    requires Run(config, states) && i < |states|
    ensures var s := states[i].store;
            && |RevokedIds(s.leases)| == RevokedSum(s.audit) && |s.leases| == IssueCount(s.audit)
            && forall id | id in s.leases && s.leases[id].revokedAt.None? ::
                 s.leases[id].workload in s.workloads && s.workloads[s.leases[id].workload].disabledAt.None?
  {
    RunGood(config, states, i);
  }

  /** The keys presented for a lease by attempts that got as far as its consumption rows. */
  function Offered(sys: System, id: Id): set<string> {
    AcceptedKeys(map u | u in sys.presented :: 0, id)
  }

  /** The keys accepted for a lease number the smaller of the distinct keys presented while it was usable and
      its limit, and are numbered from 1 to that count. */
  lemma UsesCountPresentedKeys(config: Config, states: seq<System>, i: nat, id: Id)
    requires Run(config, states) && i < |states| && id in states[i].store.leases
    ensures var uses, l := states[i].store.uses, states[i].store.leases[id];
            var offered := |Offered(states[i], id)|;
            && Numbered(uses, id, l.usesConsumed) && l.usesConsumed == |AcceptedKeys(uses, id)|
            && AcceptedKeys(uses, id) <= Offered(states[i], id)
            && l.usesConsumed == if offered < l.maxUses then offered else l.maxUses
  {
    RunGood(config, states, i);
    assert LeaseUses(states[i].store, id);
    NumberedCount(states[i].store.uses, id, states[i].store.leases[id].usesConsumed);
    OfferedCount(states[i], id);
  }

  lemma OfferedCount(sys: System, id: Id)
    requires PresentedSound(sys.store, sys.presented) && id in sys.store.leases
    requires sys.store.leases[id].usesConsumed == |AcceptedKeys(sys.store.uses, id)| <= sys.store.leases[id].maxUses
    ensures AcceptedKeys(sys.store.uses, id) <= Offered(sys, id)
    ensures sys.store.leases[id].usesConsumed < sys.store.leases[id].maxUses ==> AcceptedKeys(sys.store.uses, id) == Offered(sys, id)
    ensures |Offered(sys, id)| >= sys.store.leases[id].usesConsumed
  {
    var rows := map u | u in sys.presented :: 0;
    forall k ensures (k in AcceptedKeys(sys.store.uses, id) ==> k in Offered(sys, id))
                  && (k in Offered(sys, id) && sys.store.leases[id].usesConsumed < sys.store.leases[id].maxUses ==> k in AcceptedKeys(sys.store.uses, id)) {
      AcceptedMeans(sys.store.uses, id, k);
      AcceptedMeans(rows, id, k);
    }
    SubsetSize(AcceptedKeys(sys.store.uses, id), Offered(sys, id));
  }

  /** The workload whose key starts a lease: the delegator, or the workload it is minted for. */
  function Starter(l: Lease): Id {
    match l.delegatedBy case Some(d) => d case None => l.workload
  }

  /** In every reachable state a lease is committed only with a key that its starter, enabled then, accepts at the
      issue time, for an enabled holder, and under a live parent or the current version of the grant; and if the
      parent is bound to a key, with that key. */
  lemma CommitNeedsAcceptedKey(config: Config, states: seq<System>, i: nat, flight: Flight)
    requires Run(config, states) && i < |states| && flight in states[i].flights && flight.Planned?
    requires CreateLease(states[i].store, flight.lease, flight.thumbprint, flight.event).1.Ok?
    ensures var s, l := states[i].store, flight.lease;
            && Starter(l) in s.workloads && s.workloads[Starter(l)].disabledAt.None?
            && AcceptedWorkloadKey(s.workloads[Starter(l)], flight.thumbprint, l.issuedAt)
            && l.workload in s.workloads && s.workloads[l.workload].disabledAt.None? && l.issuedAt <= states[i].clock
            && (l.parent.None? ==> s.workloads[l.workload].grant.version == l.grantVersion)
            && (l.parent.Some? ==>
                  && l.parent.value in s.leases
                  && var p := s.leases[l.parent.value];
                     && p.revokedAt.None? && p.expiration > l.issuedAt && p.workload == Starter(l)
                     && (p.confirmation.Some? ==> p.confirmation.value == flight.thumbprint))
  {
    FlightWasSound(config, states, i, flight);
    CommitChecks(states[i].store, flight.lease, flight.thumbprint, flight.event);
  }

  lemma FlightWasSound(config: Config, states: seq<System>, i: nat, flight: Flight)
    requires Run(config, states) && i < |states| && flight in states[i].flights
    ensures FlightSound(config, states[i].store, states[i].clock, flight)
  {
    RunGood(config, states, i);
  }

  lemma CommitChecks(s: Store, l: Lease, thumbprint: string, event: AuditEvent)
    requires CreateLease(s, l, thumbprint, event).1.Ok?
    ensures Starter(l) in s.workloads && s.workloads[Starter(l)].disabledAt.None?
    ensures AcceptedWorkloadKey(s.workloads[Starter(l)], thumbprint, l.issuedAt)
    ensures l.workload in s.workloads && s.workloads[l.workload].disabledAt.None?
    ensures l.parent.None? ==> s.workloads[l.workload].grant.version == l.grantVersion
    ensures l.parent.Some? ==>
              && l.parent.value in s.leases
              && var p := s.leases[l.parent.value]; p.revokedAt.None? && p.expiration > l.issuedAt && p.workload == Starter(l)
  {
  }

  /** From any reachable state on, at most one workload accepts a public key. */
  lemma KeysAuthenticateOneWorkload(config: Config, states: seq<System>, i: nat, a: Id, b: Id, key: string, at: Time)
    requires Run(config, states) && i < |states| && states[i].clock <= at
    requires a in states[i].store.workloads && b in states[i].store.workloads && a != b
    ensures !(Accepts(states[i].store.workloads[a], key, at) && Accepts(states[i].store.workloads[b], key, at))
  {
    RunGood(config, states, i);
    OneWorkloadPerKey(states[i].store.workloads, states[i].clock, a, b, key, at);
  }

  /** Every trace of every reachable table has one row per depth down from root_lease_id, at most 17, under one
      root workload and a depth ceiling that never rises. */
  lemma TracesAreLineages(config: Config, states: seq<System>, i: nat, id: Id)
    requires Run(config, states) && i < |states| && id in states[i].store.leases
    ensures Forest(states[i].store.leases)
    ensures var leases := states[i].store.leases;
            var rows := Trace(leases, id);
            && |rows| == leases[id].depth + 1 <= 17 && rows[0].id == leases[id].rootLease && rows[0].parent.None?
            && (forall k | 0 <= k < |rows| ::
                  rows[k].depth == k && rows[k].rootWorkload == leases[id].rootWorkload && rows[k].maxDepth >= leases[id].maxDepth)
  {
    RunForest(config, states, i);
    TraceIsLineage(states[i].store.leases, id);
  }

  lemma RunForest(config: Config, states: seq<System>, i: nat)
    requires Run(config, states) && i < |states|
    ensures Forest(states[i].store.leases)
  {
    RunGood(config, states, i);
  }

  lemma TraceIsLineage(leases: Leases, id: Id)
    requires Forest(leases) && id in leases
    ensures var rows := Trace(leases, id);
            && |rows| == leases[id].depth + 1 <= 17 && rows[0].id == leases[id].rootLease && rows[0].parent.None?
            && (forall k | 0 <= k < |rows| ::
                  rows[k].depth == k && rows[k].rootWorkload == leases[id].rootWorkload && rows[k].maxDepth >= leases[id].maxDepth)
  {
    TraceShape(leases, id);
    ChainShape(leases, id);
    ChainBounded(leases, id);
    TraceOnChain(leases, id);
  }

  lemma {:induction false} TraceOnChain(leases: Leases, id: Id)
    requires Forest(leases) && id in leases
    ensures |Trace(leases, id)| == |Chain(leases, id)|
    ensures forall i | 0 <= i < |Chain(leases, id)| :: Chain(leases, id)[i] in leases && Trace(leases, id)[i] == leases[Chain(leases, id)[i]]
    decreases leases[id].depth
  {
    assert Placed(leases, leases[id]);
    if leases[id].parent.Some? {
      TraceOnChain(leases, leases[id].parent.value);
    }
  }
}
