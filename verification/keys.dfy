/** No public key ever authenticates two workloads. */
module Keys {
  import opened Wrappers
  import opened Attenuation
  import opened Domain
  import opened Lineage
  import opened Transactions
  import opened Evolution

  /** Rows are filed under their ids; current keys differ, previous keys differ, and a previous key that is
      someone else's current key has expired. */
  ghost predicate KeysSeparate(workloads: map<Id, Workload>, clock: Time) {
    && (forall a | a in workloads :: workloads[a].id == a)
    && (forall a, b | a in workloads && b in workloads && a != b :: Separate(workloads[a], workloads[b], clock))
  }

  ghost predicate Separate(a: Workload, b: Workload, clock: Time) {
    && a.publicKey != b.publicKey
    && (a.previous.Some? && b.previous.Some? ==> a.previous.value.key != b.previous.value.key)
    && (b.previous.Some? && b.previous.value.key == a.publicKey ==> b.previous.value.expiresAt <= clock)
    && (a.previous.Some? && a.previous.value.key == b.publicKey ==> a.previous.value.expiresAt <= clock)
  }

  /** From now on, at most one workload accepts a key. */
  lemma OneWorkloadPerKey(workloads: map<Id, Workload>, clock: Time, a: Id, b: Id, key: string, at: Time)
    requires KeysSeparate(workloads, clock) && clock <= at
    requires a in workloads && b in workloads && a != b
    ensures !(Accepts(workloads[a], key, at) && Accepts(workloads[b], key, at))
  {
    assert Separate(workloads[a], workloads[b], clock);
  }

  lemma SeparateLater(workloads: map<Id, Workload>, clock: Time, later: Time)
    requires KeysSeparate(workloads, clock) && clock <= later
    ensures KeysSeparate(workloads, later)
  {
    forall a, b | a in workloads && b in workloads && a != b ensures Separate(workloads[a], workloads[b], later) {
      assert Separate(workloads[a], workloads[b], clock);
    }
  }

  /** Transactions carry a time read before they committed, and register rows without a previous key. */
  ghost predicate Timely(x: Txn, clock: Time) {
    && (x.Register? ==> x.workload.createdAt <= clock && x.workload.previous.None?)
    && (x.Rotate? ==> x.at <= clock)
  }

  lemma RegisteringKeys(s: Store, t: Store, w: Workload, event: AuditEvent, clock: Time)
    requires KeysSeparate(s.workloads, clock) && Registering(s, t, w, event) && Timely(Register(w, event), clock)
    ensures KeysSeparate(t.workloads, clock)
  {
    forall a, b | a in t.workloads && b in t.workloads && a != b ensures Separate(t.workloads[a], t.workloads[b], clock) {
      if a != w.id && b != w.id {
        assert Separate(s.workloads[a], s.workloads[b], clock);
      } else {
        var other := if a == w.id then b else a;
        assert !Accepts(s.workloads[other], w.publicKey, w.createdAt);
      }
    }
  }

  lemma RotatingKeys(s: Store, t: Store, r: Rotation, at: Time, clock: Time)
    requires Forest(s.leases) && KeysSeparate(s.workloads, clock) && Rotating(s, t, r, at) && at <= clock
    ensures KeysSeparate(t.workloads, clock)
  {
    forall a, b | a in t.workloads && b in t.workloads && a != b ensures Separate(t.workloads[a], t.workloads[b], clock) {
      assert Separate(s.workloads[a], s.workloads[b], clock);
      if a == r.workload || b == r.workload {
        var other := if a == r.workload then b else a;
        assert !Accepts(s.workloads[other], r.publicKey, at);
      }
    }
  }

  lemma DisablingKeys(s: Store, t: Store, id: Id, at: Time, clock: Time)
    requires Forest(s.leases) && KeysSeparate(s.workloads, clock) && Disabling(s, t, id, at)
    ensures KeysSeparate(t.workloads, clock)
  {
    forall a, b | a in t.workloads && b in t.workloads && a != b ensures Separate(t.workloads[a], t.workloads[b], clock) {
      assert Separate(s.workloads[a], s.workloads[b], clock);
    }
  }

  lemma KeysKept(s: Store, x: Txn, clock: Time)
    requires Forest(s.leases) && KeysSeparate(s.workloads, clock) && Timely(x, clock)
    ensures KeysSeparate(Apply(s, x).workloads, clock)
  {
    ApplyForm(s, x);
    var t := Apply(s, x);
    if t != s {
      match x {
        case Register(w, event) => RegisteringKeys(s, t, w, event, clock);
        case Rotate(r, at) => RotatingKeys(s, t, r, at, clock);
        case Disable(id, actor, at) => DisablingKeys(s, t, id, at, clock);
        case _ =>
      }
    }
  }

  /** After a rotation without overlap, the replaced key can start no lease: not as a mint for the workload
      and not as a delegation by it. */
  lemma RotationFencesOldKey(s: Store, r: Rotation, at: Time, l: Lease, thumbprint: string, event: AuditEvent)
    requires Forest(s.leases) && r.overlap <= 0 && RotateWorkloadKey(s, r, at).1.Ok?
    requires thumbprint != r.publicKey
    requires l.parent.None? ==> l.workload == r.workload
    requires l.parent.Some? ==> l.delegatedBy == Some(r.workload)
    ensures var t := RotateWorkloadKey(s, r, at).0; CreateLease(t, l, thumbprint, event).1.Err? && CreateLease(t, l, thumbprint, event).0 == t
  {
  }
}
