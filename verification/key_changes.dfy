/** Rotation, disablement, revocation and authentication, exactly: when each succeeds, what it answers, and what it
    leaves behind, also over later steps. */
module KeyChanges {
  import opened Wrappers
  import opened Text
  import opened Attenuation
  import opened Domain
  import opened Lineage
  import opened Transactions
  import opened Evolution
  import opened Revocation
  import opened Usecase
  import opened Authority
  import opened ControlPlane
  import Operations

  // ---- Keys ----

  /** The current key, or the previous one before its end. */
  ghost predicate GoodKey(w: Workload, key: string, at: Time) {
    key == w.publicKey || (w.previous.Some? && key == w.previous.value.key && at < w.previous.value.expiresAt)
  }

  lemma AcceptsExactly(w: Workload, key: string, at: Time)
    ensures Accepts(w, key, at) <==> GoodKey(w, key, at)
    ensures AcceptedWorkloadKey(w, key, at) <==> ByteLen(key) == 43 && GoodKey(w, key, at)
  {
  }

  /** The keys good after a rotation: the new one, and the replaced one until the overlap is over. */
  ghost predicate RotatedKeys(w: Workload, replaced: Key, r: Rotation, at: Time) {
    forall key: string, x: Time ::
      Accepts(w, key, x) <==> key == r.publicKey || (key == replaced && r.overlap > 0 && x < at + r.overlap)
  }

  /** Leases that were live and are revoked now. */
  ghost function NewlyRevoked(s: Store, t: Store): set<Id> {
    set id | id in s.leases && id in t.leases && s.leases[id].revokedAt.None? && t.leases[id].revokedAt.Some?
  }

  /** The live leases at or below those of a workload. */
  ghost function BelowHolder(s: Store, w: Id): set<Id>
    requires Forest(s.leases)
  {
    set id | id in s.leases && s.leases[id].revokedAt.None? && exists a :: a in Chain(s.leases, id) && a in s.leases && s.leases[a].workload == w
  }

  /** Exactly these leases are revoked, at this time, and nothing else in the table moves. */
  ghost predicate RevokesExactly(s: Store, t: Store, ids: set<Id>, at: Time) {
    && t.leases.Keys == s.leases.Keys
    && forall id | id in s.leases :: t.leases[id] == if id in ids then s.leases[id].(revokedAt := Some(at)) else s.leases[id]
  }

  lemma RevokeSetExactly(s: Store, seeds: set<Id>, at: Time, ids: set<Id>)
    requires Forest(s.leases)
    requires forall id :: id in ids <==> id in s.leases && s.leases[id].revokedAt.None? && exists a :: a in Chain(s.leases, id) && a in seeds
    ensures var (t, count) := RevokeSet(s, seeds, at);
            && RevokesExactly(s, t, ids, at) && count == |ids| && t == s.(leases := t.leases)
  {
    assert Unrevoked(s.leases, Affected(s.leases, seeds)) == ids by {
      forall id ensures id in Unrevoked(s.leases, Affected(s.leases, seeds)) <==> id in ids {
        if id in s.leases {
          assert id in Affected(s.leases, seeds) <==> Under(s.leases, id, seeds);
        }
      }
    }
    forall id | id in s.leases ensures id in Affected(s.leases, seeds) && s.leases[id].revokedAt.None? <==> id in ids {
      assert id in Unrevoked(s.leases, Affected(s.leases, seeds)) <==> id in Affected(s.leases, seeds) && s.leases[id].revokedAt.None?;
    }
  }

  lemma HolderRevoked(s: Store, w: Id, at: Time)
    requires Forest(s.leases)
    ensures var (t, count) := RevokeSet(s, HeldBy(s.leases, w), at);
            && RevokesExactly(s, t, BelowHolder(s, w), at) && count == |BelowHolder(s, w)| && t == s.(leases := t.leases)
  {
    forall id ensures id in BelowHolder(s, w)
                      <==> id in s.leases && s.leases[id].revokedAt.None? && exists a :: a in Chain(s.leases, id) && a in HeldBy(s.leases, w) {
      if id in s.leases && exists a :: a in Chain(s.leases, id) && a in HeldBy(s.leases, w) {
        var a :| a in Chain(s.leases, id) && a in HeldBy(s.leases, w);
        assert a in s.leases && s.leases[a].workload == w;
      }
      if id in BelowHolder(s, w) {
        var a :| a in Chain(s.leases, id) && a in s.leases && s.leases[a].workload == w;
        assert a in HeldBy(s.leases, w);
      }
    }
    RevokeSetExactly(s, HeldBy(s.leases, w), at, BelowHolder(s, w));
  }

  // ---- Rotation ----

  /** A key may take the place of another: no other workload may use it then, and if the replaced key is to be kept, no
      other workload keeps it already. */
  ghost predicate MayRotate(s: Store, r: Rotation, at: Time) {
    && r.workload in s.workloads && s.workloads[r.workload].disabledAt.None?
    && forall other | other in s.workloads && other != r.workload ::
         && !GoodKey(s.workloads[other], r.publicKey, at)
         && (r.overlap > 0 && s.workloads[other].previous.Some? ==> s.workloads[other].previous.value.key != s.workloads[r.workload].publicKey)
  }

  /** A rotation succeeds exactly when it may; afterwards the workload accepts the new key, and the replaced one for the
      overlap; nothing else of it changes; its outstanding leases are revoked if asked for; and the answer and the
      event count them. */
  lemma RotationExactly(s: Store, r: Rotation, at: Time)
    requires Forest(s.leases)
    ensures var (t, result) := RotateWorkloadKey(s, r, at);
            && (result.Ok? <==> MayRotate(s, r, at))
            && (result.Err? ==> t == s)
            && (result.Ok? ==>
                  && r.workload in t.workloads && t.workloads == s.workloads[r.workload := t.workloads[r.workload]]
                  && var before, after := s.workloads[r.workload], t.workloads[r.workload];
                     var ids := if r.revokeOutstanding then BelowHolder(s, r.workload) else {};
                     && RotatedKeys(after, before.publicKey, r, at) && after.publicKey == r.publicKey
                     && after == before.(publicKey := after.publicKey, previous := after.previous, updatedAt := at)
                     && result.value == (after, |ids|) && RevokesExactly(s, t, ids, at) && t.uses == s.uses && t.nonces == s.nonces
                     && t.audit == s.audit + [AuditEvent(KeyRotated, Some(r.workload), None, r.actor, |ids|, at)])
  {
    MayRotateExactly(s, r, at);
    if MayRotate(s, r, at) {
      HolderRevoked(s, r.workload, at);
      RotatedKeysHold(s.workloads[r.workload], r, at);
    }
  }

  lemma MayRotateExactly(s: Store, r: Rotation, at: Time)
    requires Forest(s.leases)
    ensures RotateWorkloadKey(s, r, at).1.Ok? <==> MayRotate(s, r, at)
  {
    if r.workload in s.workloads {
      assert KeyTaken(s.workloads, r.publicKey, at, Some(r.workload))
             <==> exists other :: other in s.workloads && other != r.workload && GoodKey(s.workloads[other], r.publicKey, at);
    }
  }

  lemma RotatedKeysHold(w: Workload, r: Rotation, at: Time)
    ensures RotatedKeys(Rotated(w, r, at), w.publicKey, r, at)
  {
  }

  // ---- Over later steps ----

  /** A run of the control plane with its steps. */
  ghost predicate Stepped(config: Config, states: seq<System>, steps: seq<Step>) {
    && |states| == |steps| + 1
    && forall k: nat {:trigger StepsTo(config, states, steps, k)} | k < |steps| :: StepsTo(config, states, steps, k)
  }

  ghost predicate StepsTo(config: Config, states: seq<System>, steps: seq<Step>, k: nat)
    requires |states| == |steps| + 1 && k < |steps|
  {
    Forest(states[k].store.leases) && states[k + 1] == Do(config, states[k], steps[k])
  }

  /** Only a rotation of a workload touches its keys. */
  lemma KeysStay(s: Store, x: Txn, w: Id)
    requires Forest(s.leases) && w in s.workloads && !(x.Rotate? && x.rotation.workload == w)
    ensures w in Apply(s, x).workloads
    ensures Apply(s, x).workloads[w].publicKey == s.workloads[w].publicKey && Apply(s, x).workloads[w].previous == s.workloads[w].previous
  {
    ApplyForm(s, x);
  }

  lemma {:induction false} KeysStayAlong(config: Config, states: seq<System>, steps: seq<Step>, w: Id, i: nat, j: nat)
    requires Stepped(config, states, steps) && i <= j <= |steps| && w in states[i].store.workloads
    requires forall k | i <= k < j :: !(steps[k].RotateKey? && steps[k].rotation.workload == w)
    ensures w in states[j].store.workloads
    ensures states[j].store.workloads[w].publicKey == states[i].store.workloads[w].publicKey
    ensures states[j].store.workloads[w].previous == states[i].store.workloads[w].previous
    decreases j
  {
    if i < j {
      KeysStayAlong(config, states, steps, w, i, j - 1);
      assert StepsTo(config, states, steps, j - 1);
      var x := TxnOf(config, states[j - 1], steps[j - 1]);
      if x.Some? {
        KeysStay(states[j - 1].store, x.value, w);
      }
    }
  }

  /** From a successful rotation until the next one of the workload it accepts exactly the new key, and the replaced key
      until the overlap is over. */
  lemma RotationLasts(config: Config, states: seq<System>, steps: seq<Step>, i: nat, j: nat)
    requires Stepped(config, states, steps) && i < j <= |steps| && steps[i].RotateKey? && Forest(states[i].store.leases)
    requires steps[i].at <= states[i].clock && MayRotate(states[i].store, steps[i].rotation, WholeSecond(steps[i].at))
    requires forall k | i < k < j :: !(steps[k].RotateKey? && steps[k].rotation.workload == steps[i].rotation.workload)
    ensures var r := steps[i].rotation;
            && r.workload in states[i].store.workloads && r.workload in states[j].store.workloads
            && RotatedKeys(states[j].store.workloads[r.workload], states[i].store.workloads[r.workload].publicKey, r, WholeSecond(steps[i].at))
  {
    var r, at := steps[i].rotation, WholeSecond(steps[i].at);
    assert StepsTo(config, states, steps, i);
    RotationExactly(states[i].store, r, at);
    KeysStayAlong(config, states, steps, r.workload, i + 1, j);
    var early, late := states[i + 1].store.workloads[r.workload], states[j].store.workloads[r.workload];
    forall key: string, x: Time ensures Accepts(late, key, x) <==> Accepts(early, key, x) {
    }
  }

  // ---- Disablement and revocation ----

  /** A disablement succeeds exactly for a stored workload; it disables it from the first time on, and revokes and
      counts the live leases at or below its own. */
  lemma DisableExactly(s: Store, w: Id, actor: string, at: Time)
    requires Forest(s.leases)
    ensures var (t, result) := Transactions.DisableWorkload(s, w, actor, at);
            && (result == if w in s.workloads then Ok(|BelowHolder(s, w)|) else Err(WorkloadNotFound))
            && (result.Err? ==> t == s)
            && (result.Ok? ==>
                  && t.workloads == s.workloads[w := s.workloads[w].(
                       disabledAt := if s.workloads[w].disabledAt.Some? then s.workloads[w].disabledAt else Some(at), updatedAt := at)]
                  && RevokesExactly(s, t, BelowHolder(s, w), at) && t.uses == s.uses && t.nonces == s.nonces
                  && t.audit == s.audit + [AuditEvent(Disabled, Some(w), None, actor, |BelowHolder(s, w)|, at)])
  {
    HolderRevoked(s, w, at);
  }

  /** The live leases at or below a lease. */
  ghost function Below(s: Store, lease: Id): set<Id>
    requires Forest(s.leases)
  {
    set id | id in s.leases && s.leases[id].revokedAt.None? && lease in Chain(s.leases, id)
  }

  /** A lineage revocation succeeds exactly for a stored lease, and revokes and counts the live leases at or below it. */
  lemma RevokeExactly(s: Store, lease: Id, actor: string, at: Time)
    requires Forest(s.leases)
    ensures var (t, result) := RevokeLeaseLineage(s, lease, actor, at);
            && (result == if lease in s.leases then Ok(|Below(s, lease)|) else Err(LeaseNotFound))
            && (result.Err? ==> t == s)
            && (result.Ok? ==>
                  && RevokesExactly(s, t, Below(s, lease), at) && t.workloads == s.workloads && t.uses == s.uses && t.nonces == s.nonces
                  && t.audit == s.audit + [AuditEvent(LineageRevoked, None, Some(lease), actor, |Below(s, lease)|, at)])
  {
    forall id ensures id in Below(s, lease)
                      <==> id in s.leases && s.leases[id].revokedAt.None? && exists a :: a in Chain(s.leases, id) && a in {lease} {
      if id in Below(s, lease) {
        assert lease in Chain(s.leases, id) && lease in {lease};
      }
      if id in s.leases && exists a :: a in Chain(s.leases, id) && a in {lease} {
        var a :| a in Chain(s.leases, id) && a in {lease};
        assert a == lease;
      }
    }
    RevokeSetExactly(s, {lease}, at, Below(s, lease));
  }

  // ---- Signed requests ----

  /** A nonce of the alphabet, in size. */
  ghost predicate GoodNonce(nonce: string) {
    32 <= |nonce| <= 128
    && forall c | c in nonce :: 'a' <= c <= 'z' || 'A' <= c <= 'Z' || '0' <= c <= '9' || c == '-' || c == '_'
  }

  lemma NonceOkExactly(nonce: string)
    ensures NonceOk(nonce) <==> GoodNonce(nonce)
  {
    if forall c | c in nonce :: NonceCharacter(c) {
      AsciiByteLen(nonce);
    }
  }

  /** The request is one its workload may send now, whatever its nonce was used for. */
  ghost predicate MayAuthenticate(config: Config, s: Store, w: Id, timestamp: Time, nonce: string, signer: Key, clock: Time) {
    && w != "" && timestamp != 0 && GoodNonce(nonce)
    && timestamp - config.requestWindow <= WholeSecond(clock) <= timestamp + config.requestWindow
    && w in s.workloads && s.workloads[w].disabledAt.None? && GoodKey(s.workloads[w], signer, WholeSecond(clock))
  }

  /** A signed request is accepted exactly when it may be sent and its nonce has no live row; the answer is the key that
      signed, the replaced one included while it lasts; the row then lives to the end of the window. */
  lemma AuthenticateExactly(config: Config, s: Store, w: Id, timestamp: Time, nonce: string, signer: Key, clock: Time, databaseNow: Time)
    ensures var (t, r) := Authenticate(config, s, w, timestamp, nonce, signer, clock, databaseNow);
            var free := (w, nonce) !in s.nonces || s.nonces[(w, nonce)] <= databaseNow;
            && (r == if !MayAuthenticate(config, s, w, timestamp, nonce, signer, clock) then Err(Unauthenticated)
                     else if !free then Err(ReplayDetected) else Ok(signer))
            && t == if r.Ok? then s.(nonces := s.nonces[(w, nonce) := timestamp + config.requestWindow]) else s
  {
    NonceOkExactly(nonce);
  }

  // ---- Bound leases ----

  /** At some state up to here the workload had this key. */
  ghost predicate HadKey(states: seq<System>, i: nat, w: Id, key: Key)
    requires i < |states|
  {
    exists j: nat :: j <= i && w in states[j].store.workloads && states[j].store.workloads[w].publicKey == key
  }

  ghost predicate BoundFairly(states: seq<System>, i: nat, l: Lease)
    requires i < |states|
  {
    l.confirmation.Some? ==> HadKey(states, i, l.workload, l.confirmation.value)
  }

  ghost predicate AllBoundFairly(states: seq<System>, i: nat)
    requires i < |states|
  {
    && (forall id {:trigger BoundFairly(states, i, states[i].store.leases[id])} | id in states[i].store.leases ::
          BoundFairly(states, i, states[i].store.leases[id]))
    && (forall f | f in states[i].flights && f.Planned? :: BoundFairly(states, i, f.lease))
  }

  lemma HadKeyLater(states: seq<System>, i: nat, w: Id, key: Key)
    requires i + 1 < |states| && HadKey(states, i, w, key)
    ensures HadKey(states, i + 1, w, key)
  {
    var j: nat :| j <= i && w in states[j].store.workloads && states[j].store.workloads[w].publicKey == key;
    assert j <= i + 1;
  }

  /** A plan binds a lease to the key its holder has in the row the plan was made from. */
  lemma PlanBinds(config: Config, sys: System, step: Step)
    requires forall w | w in sys.store.workloads :: sys.store.workloads[w].id == w
    requires FlightOf(config, sys, step).Some? && FlightOf(config, sys, step).value.Planned?
    ensures var l := FlightOf(config, sys, step).value.lease;
            l.confirmation.Some? ==> l.workload in sys.store.workloads && l.confirmation.value == sys.store.workloads[l.workload].publicKey
  {
    if step.ReadGrantAndPlan? {
      MintBinds(config, sys.store.workloads[step.flight.mint.workload], step.flight.mint, step.flight.now, step.newId, step.tokenId);
    } else {
      var request := step.flight.request;
      DelegateBinds(config, step.flight.parent, sys.store.workloads[request.recipient], request, step.flight.now, step.newId, step.tokenId);
    }
  }

  lemma MintBinds(config: Config, w: Workload, request: MintRequest, now: Time, id: Id, tokenId: Id)
    requires PlanMint(config, w, request, now, id, tokenId).Ok?
    ensures var l := PlanMint(config, w, request, now, id, tokenId).value;
            l.workload == request.workload && (l.confirmation.Some? ==> l.confirmation.value == w.publicKey)
  {
  }

  lemma DelegateBinds(config: Config, p: Lease, w: Workload, request: DelegateRequest, now: Time, id: Id, tokenId: Id)
    requires PlanDelegate(config, p, w, request, now, id, tokenId).Ok?
    ensures var l := PlanDelegate(config, p, w, request, now, id, tokenId).value;
            l.workload == w.id && (l.confirmation.Some? ==> l.confirmation.value == w.publicKey)
  {
  }

  lemma NextBoundFairly(config: Config, states: seq<System>, i: nat, step: Step)
    requires i + 1 < |states| && Forest(states[i].store.leases) && states[i + 1] == Do(config, states[i], step) && AllBoundFairly(states, i)
    requires forall w | w in states[i].store.workloads :: states[i].store.workloads[w].id == w
    ensures AllBoundFairly(states, i + 1)
  {
    var a, b := states[i], states[i + 1];
    forall f | f in b.flights && f.Planned? ensures BoundFairly(states, i + 1, f.lease) {
      if f !in a.flights {
        PlanBinds(config, a, step);
        if f.lease.confirmation.Some? {
          assert i <= i + 1 && f.lease.workload in states[i].store.workloads;
        }
      } else {
        assert BoundFairly(states, i, f.lease);
        if f.lease.confirmation.Some? {
          HadKeyLater(states, i, f.lease.workload, f.lease.confirmation.value);
        }
      }
    }
    forall id | id in b.store.leases ensures BoundFairly(states, i + 1, b.store.leases[id]) {
      LeaseFrom(config, a, step, id);
      var l := b.store.leases[id];
      if id in a.store.leases {
        assert BoundFairly(states, i, a.store.leases[id]);
      } else {
        assert BoundFairly(states, i, l);
      }
      if l.confirmation.Some? {
        HadKeyLater(states, i, l.workload, l.confirmation.value);
      }
    }
  }

  /** A stored lease was stored before with the same columns, or is the lease of a planned request. */
  lemma LeaseFrom(config: Config, sys: System, step: Step, id: Id)
    requires Forest(sys.store.leases) && id in Do(config, sys, step).store.leases
    ensures var l := Do(config, sys, step).store.leases[id];
            if id in sys.store.leases then SameIssue(sys.store.leases[id], l)
            else exists f :: f in sys.flights && f.Planned? && f.lease == l
  {
    var x := TxnOf(config, sys, step);
    if x.Some? {
      RowFrom(sys.store, x.value, id);
    }
  }

  lemma RowFrom(s: Store, x: Txn, id: Id)
    requires Forest(s.leases) && id in Apply(s, x).leases
    ensures if id in s.leases then SameIssue(s.leases[id], Apply(s, x).leases[id]) else x.Create? && Apply(s, x).leases[id] == x.lease
  {
    ApplyEvolves(s, x);
    ApplyForm(s, x);
    if id !in s.leases {
      CreatedRow(s, Apply(s, x), x, id);
    }
  }

  /** In every reachable state a lease bound to a key is bound to a key its own holder had when it was planned. */
  lemma {:induction false} BoundToHolder(config: Config, states: seq<System>, i: nat)
    requires Run(config, states) && i < |states|
    ensures AllBoundFairly(states, i)
  {
    if i > 0 {
      BoundToHolder(config, states, i - 1);
      StepKeepsBound(config, states, i - 1);
    }
  }

  lemma StepKeepsBound(config: Config, states: seq<System>, i: nat)
    requires Run(config, states) && i + 1 < |states| && AllBoundFairly(states, i)
    ensures AllBoundFairly(states, i + 1)
  {
    assert Next(config, states[i], states[i + 1]);
    var step: Step :| states[i + 1] == Do(config, states[i], step);
    IdsFiled(config, states, i);
    NextBoundFairly(config, states, i, step);
  }

  lemma IdsFiled(config: Config, states: seq<System>, i: nat)
    requires Run(config, states) && i < |states|
    ensures Forest(states[i].store.leases) && forall w | w in states[i].store.workloads :: states[i].store.workloads[w].id == w
  {
    RunGood(config, states, i);
  }
}
