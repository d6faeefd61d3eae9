/** Limited-use leases at the protected services: any number of verifiers, one control plane. */
module LimitedUse {
  import opened Wrappers
  import opened Text
  import opened Attenuation
  import opened Domain
  import opened Lineage
  import opened LeaseToken
  import opened Transactions
  import opened Evolution
  import opened Uses
  import opened Authority
  import opened Middleware
  import opened ProofOfPossession
  import Usecase
  import ControlPlane
  import Operations
  import EndToEnd

  /** A request some verifier admitted, and the step of the control plane at which its use was consumed. */
  datatype Admission = Admission(config: Config, cache: Cache, replay: Replay, request: Request, at: nat, clock: Time, tokenNow: Time)

  /** The consumer's answer is the use case's: it confirms a use only if the tables accepted it then. */
  ghost predicate Confirmed(issuing: Usecase.Config, states: seq<ControlPlane.System>, a: Admission, id: Id) {
    && a.at + 1 < |states| && id in states[a.at].store.leases
    && var (after, outcome) := Usecase.Consume(issuing, states[a.at].store, id, a.request.token, a.request.idempotencyKey, a.clock, a.tokenNow);
       && states[a.at + 1].store == after
       && (a.request.consumer == Consumes ==> outcome.Ok?)
  }

  /** Admitted under a lease, with the token of that lease. */
  ghost predicate AdmittedUnder(issuing: Usecase.Config, states: seq<ControlPlane.System>, a: Admission, id: Id)
    requires a.at < |states| && id in states[a.at].store.leases
  {
    && Middleware.ConfigOk(a.config) && a.request.token == Signed(Usecase.ClaimsFor(issuing, states[a.at].store.leases[id]))
    && Authorize(a.config, a.cache, a.replay, a.request).2.Ok?
  }

  function Keys(admissions: seq<Admission>): set<string> {
    set a | a in admissions :: a.request.idempotencyKey
  }

  /** An admission under a limited-use lease leaves its key among the accepted keys. */
  lemma AdmissionSpends(issuing: Usecase.Config, states: seq<ControlPlane.System>, a: Admission, id: Id)
    requires Usecase.ConfigOk(issuing) && ControlPlane.Run(issuing, states) && Confirmed(issuing, states, a, id)
    requires AdmittedUnder(issuing, states, a, id) && states[a.at].store.leases[id].maxUses > 0
    ensures a.request.idempotencyKey in AcceptedKeys(states[a.at + 1].store.uses, id)
  {
    var s := states[a.at].store;
    ControlPlane.RunGood(issuing, states, a.at);
    EndToEnd.AuthorizeExactly(a.config, issuing, s, id, a.cache, a.replay, a.request);
    Operations.ConsumeExactly(issuing, s, id, a.request.token, a.request.idempotencyKey, a.clock, a.tokenNow);
  }

  lemma AcceptedStay(s: Store, t: Store, id: Id)
    requires Evolves(s, t)
    ensures AcceptedKeys(s.uses, id) <= AcceptedKeys(t.uses, id)
  {
    forall k | k in AcceptedKeys(s.uses, id) ensures k in AcceptedKeys(t.uses, id) {
      AcceptedMeans(s.uses, id, k);
      AcceptedMeans(t.uses, id, k);
    }
  }

  /** However many verifiers admit requests under a limited-use lease, and however their caches differ, the requests
      carry at most max_uses distinct idempotency keys. */
  lemma AdmittedKeysWithinLimit(issuing: Usecase.Config, states: seq<ControlPlane.System>, admissions: seq<Admission>, id: Id)
    requires Usecase.ConfigOk(issuing) && ControlPlane.Run(issuing, states)
    requires forall a | a in admissions :: Confirmed(issuing, states, a, id) && AdmittedUnder(issuing, states, a, id)
    requires id in states[|states| - 1].store.leases && states[|states| - 1].store.leases[id].maxUses > 0
    ensures |Keys(admissions)| <= states[|states| - 1].store.leases[id].maxUses
  {
    var last := |states| - 1;
    forall a | a in admissions ensures a.request.idempotencyKey in AcceptedKeys(states[last].store.uses, id) {
      ControlPlane.RunEvolves(issuing, states, a.at, last);
      ControlPlane.RunEvolves(issuing, states, a.at + 1, last);
      AdmissionSpends(issuing, states, a, id);
      AcceptedStay(states[a.at + 1].store, states[last].store, id);
    }
    SubsetSize(Keys(admissions), AcceptedKeys(states[last].store.uses, id));
    ControlPlane.UsesCountPresentedKeys(issuing, states, last, id);
    UsesWithinLimit(issuing, states, last, id);
  }

  lemma UsesWithinLimit(issuing: Usecase.Config, states: seq<ControlPlane.System>, i: nat, id: Id)
    requires ControlPlane.Run(issuing, states) && i < |states| && id in states[i].store.leases
    ensures states[i].store.leases[id].usesConsumed <= states[i].store.leases[id].maxUses
  {
    ControlPlane.RunGood(issuing, states, i);
    assert LeaseUses(states[i].store, id);
  }
}
