/** Finite uses: the consumption rows of a lease number its accepted idempotency keys. */
module Uses {
  import opened Wrappers
  import opened Attenuation
  import opened Domain
  import opened Lineage
  import opened Transactions
  import opened Evolution

  /** The rows of a lease pair its keys one to one with 1..n. */
  ghost predicate Numbered(uses: map<UseKey, nat>, id: Id, n: int) {
    && (forall u | u in uses && u.0 == id :: 1 <= uses[u] <= n)
    && (forall u, v | u in uses && v in uses && u.0 == id && v.0 == id && uses[u] == uses[v] :: u == v)
    && (forall i | 1 <= i <= n :: UseNumberTaken(uses, id, i))
  }

  ghost predicate UsesSound(s: Store) {
    && (forall id {:trigger LeaseUses(s, id)} | id in s.leases :: LeaseUses(s, id))
    && (forall u | u in s.uses :: u.0 in s.leases)
  }

  ghost predicate LeaseUses(s: Store, id: Id)
    requires id in s.leases
  {
    0 <= s.leases[id].usesConsumed <= s.leases[id].maxUses && Numbered(s.uses, id, s.leases[id].usesConsumed)
  }

  function AcceptedKeys(uses: map<UseKey, nat>, id: Id): set<string> {
    set u | u in uses && u.0 == id :: u.1
  }

  lemma NumberedWithoutLast(uses: map<UseKey, nat>, id: Id, n: nat, last: UseKey)
    requires Numbered(uses, id, n) && n > 0 && last in uses && last.0 == id && uses[last] == n
    ensures Numbered(uses - {last}, id, n - 1)
  {
    var fewer := uses - {last};
    forall i | 1 <= i <= n - 1 ensures UseNumberTaken(fewer, id, i) {
      assert UseNumberTaken(uses, id, i);
      var u :| u in uses && u.0 == id && uses[u] == i;
      assert u in fewer;
    }
  }

  lemma AcceptedWithoutLast(uses: map<UseKey, nat>, last: UseKey)
    requires last in uses
    ensures AcceptedKeys(uses, last.0) == AcceptedKeys(uses - {last}, last.0) + {last.1}
    ensures last.1 !in AcceptedKeys(uses - {last}, last.0)
  {
    assert last == (last.0, last.1);
    assert forall u | u in uses :: u == last || u in uses - {last};
  }

  lemma {:induction false} NumberedCount(uses: map<UseKey, nat>, id: Id, n: nat)
    requires Numbered(uses, id, n)
    ensures |AcceptedKeys(uses, id)| == n
    decreases n
  {
    if n == 0 {
      assert AcceptedKeys(uses, id) == {};
    } else {
      assert UseNumberTaken(uses, id, n);
      var last :| last in uses && last.0 == id && uses[last] == n;
      NumberedWithoutLast(uses, id, n, last);
      NumberedCount(uses - {last}, id, n - 1);
      AcceptedWithoutLast(uses, last);
    }
  }

  ghost predicate StartsUnused(x: Txn) {
    x.Create? ==> x.lease.usesConsumed == 0
  }

  lemma NumberedNext(uses: map<UseKey, nat>, id: Id, key: string, n: nat)
    requires Numbered(uses, id, n) && (id, key) !in uses
    ensures Numbered(uses[(id, key) := n + 1], id, n + 1)
  {
    var more := uses[(id, key) := n + 1];
    forall i | 1 <= i <= n + 1 ensures UseNumberTaken(more, id, i) {
      if i == n + 1 {
        assert (id, key) in more && more[(id, key)] == i;
      } else {
        assert UseNumberTaken(uses, id, i);
        var u :| u in uses && u.0 == id && uses[u] == i;
        assert u in more && more[u] == i;
      }
    }
  }

  lemma SpendingUses(s: Store, t: Store, id: Id, key: string)
    requires UsesSound(s) && Spending(s, t, id, key)
    ensures UsesSound(t)
  {
    var n := s.leases[id].usesConsumed;
    assert LeaseUses(s, id);
    NumberedNext(s.uses, id, key, n);
    forall k | k in t.leases ensures LeaseUses(t, k) {
      if k != id {
        assert LeaseUses(s, k);
        NumberedElsewhere(s.uses, t.uses, k, (id, key), n + 1);
      }
    }
  }

  lemma NumberedElsewhere(uses: map<UseKey, nat>, more: map<UseKey, nat>, id: Id, added: UseKey, number: nat)
    requires added !in uses && added.0 != id && more == uses[added := number]
    ensures forall n :: Numbered(uses, id, n) ==> Numbered(more, id, n)
  {
    forall n, i | Numbered(uses, id, n) && 1 <= i <= n ensures UseNumberTaken(more, id, i) {
      assert UseNumberTaken(uses, id, i);
      var u :| u in uses && u.0 == id && uses[u] == i;
      assert u in more && more[u] == i;
    }
  }

  lemma UsesKept(s: Store, x: Txn)
    requires Forest(s.leases) && UsesSound(s) && StartsUnused(x)
    ensures UsesSound(Apply(s, x))
  {
    ApplyForm(s, x);
    var t := Apply(s, x);
    if t != s {
      match x {
        case Spend(id, hash, key, at) => SpendingUses(s, t, id, key);
        case Create(l, thumbprint, event) => CreatingUses(s, t, l, thumbprint, event);
        case Register(w, event) => RowsSame(s, t);
        case SpendNonce(id, nonce, expiresAt, now) => RowsSame(s, t);
        case _ => RowsMarked(s, t, x); RowsSame(s, t);
      }
    }
  }

  lemma CreatingUses(s: Store, t: Store, l: Lease, thumbprint: string, event: AuditEvent)
    requires UsesSound(s) && Creating(s, t, l, thumbprint, event) && l.usesConsumed == 0
    ensures UsesSound(t)
  {
    assert Numbered(t.uses, l.id, 0);
    forall k | k in t.leases ensures LeaseUses(t, k) {
      if k != l.id {
        assert LeaseUses(s, k);
      }
    }
  }

  lemma RowsSame(s: Store, t: Store)
    requires UsesSound(s) && t.uses == s.uses && t.leases.Keys == s.leases.Keys
    requires forall id | id in s.leases :: t.leases[id].usesConsumed == s.leases[id].usesConsumed && t.leases[id].maxUses == s.leases[id].maxUses
    ensures UsesSound(t)
  {
    forall id | id in t.leases ensures LeaseUses(t, id) {
      assert LeaseUses(s, id);
    }
  }

  lemma RowsMarked(s: Store, t: Store, x: Txn)
    requires Forest(s.leases) && Changes(s, t, x) && (x.Rotate? || x.Disable? || x.Revoke?)
    ensures t.uses == s.uses && t.leases.Keys == s.leases.Keys
    ensures forall id | id in s.leases :: t.leases[id].usesConsumed == s.leases[id].usesConsumed && t.leases[id].maxUses == s.leases[id].maxUses
  {
  }

  /** An attempt that gets as far as the consumption rows: right token, unrevoked, unexpired, limited. */
  ghost predicate Usable(s: Store, id: Id, hash: Digest, at: Time) {
    && id in s.leases && s.leases[id].workload in s.workloads && hash == s.leases[id].tokenHash
    && s.leases[id].revokedAt.None? && s.workloads[s.leases[id].workload].disabledAt.None?
    && s.leases[id].expiration > at && s.leases[id].maxUses > 0
  }

  /** What a usable attempt gets: a known key its own number again and no change; a new key the next number
      while fewer than max_uses keys are accepted; otherwise a refusal. */
  lemma SpendExact(s: Store, id: Id, hash: Digest, key: string, at: Time)
    requires UsesSound(s) && Usable(s, id, hash, at) && 16 <= |key| <= 128
    ensures var (t, r) := ConsumeLeaseUse(s, id, hash, key, at);
            var known := AcceptedKeys(s.uses, id);
            if key in known then
              t == s && r == Ok(Consumption(id, key, s.uses[(id, key)], s.leases[id].maxUses, true))
            else if |known| < s.leases[id].maxUses then
              && r == Ok(Consumption(id, key, |known| + 1, s.leases[id].maxUses, false))
              && AcceptedKeys(t.uses, id) == known + {key}
              && t == s.(uses := s.uses[(id, key) := |known| + 1], leases := s.leases[id := s.leases[id].(usesConsumed := |known| + 1)])
            else t == s && r == Err(MaxUsesExceeded)
  {
    var n := s.leases[id].usesConsumed;
    assert LeaseUses(s, id);
    NumberedCount(s.uses, id, n);
    assert !UseNumberTaken(s.uses, id, n + 1);
    AcceptedMeans(s.uses, id, key);
    AcceptedAfter(s.uses, id, key, n + 1);
    SpendOutcome(s, id, hash, key, at);
  }

  lemma SpendOutcome(s: Store, id: Id, hash: Digest, key: string, at: Time)
    requires Usable(s, id, hash, at) && 16 <= |key| <= 128
    requires 0 <= s.leases[id].usesConsumed <= s.leases[id].maxUses && !UseNumberTaken(s.uses, id, s.leases[id].usesConsumed + 1)
    ensures var (t, r) := ConsumeLeaseUse(s, id, hash, key, at);
            var n, max := s.leases[id].usesConsumed, s.leases[id].maxUses;
            if (id, key) in s.uses then t == s && r == Ok(Consumption(id, key, s.uses[(id, key)], max, true))
            else if n < max then r == Ok(Consumption(id, key, n + 1, max, false)) && t.uses == s.uses[(id, key) := n + 1]
            else t == s && r == Err(MaxUsesExceeded)
  {
  }

  lemma AcceptedMeans(uses: map<UseKey, nat>, id: Id, key: string)
    ensures key in AcceptedKeys(uses, id) <==> (id, key) in uses
  {
    if (id, key) in uses {
      assert (id, key).1 in AcceptedKeys(uses, id);
    }
  }

  lemma AcceptedAfter(uses: map<UseKey, nat>, id: Id, key: string, number: nat)
    ensures AcceptedKeys(uses[(id, key) := number], id) == AcceptedKeys(uses, id) + {key}
  {
    forall k ensures k in AcceptedKeys(uses[(id, key) := number], id) <==> k in AcceptedKeys(uses, id) + {key} {
      AcceptedMeans(uses, id, k);
      AcceptedMeans(uses[(id, key) := number], id, k);
    }
  }
}
