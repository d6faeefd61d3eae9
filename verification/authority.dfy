/** The authority invariant of the lease table: every lease within its parent, every root within its grant. */
module Authority {
  import opened Wrappers
  import opened Text
  import opened Resource
  import opened ResourceLanguage
  import opened Constraints
  import opened Attenuation
  import opened AttenuationMeaning
  import opened Domain
  import opened LeaseToken
  import opened Lineage
  import opened Transactions
  import opened Evolution
  import opened Usecase

  ghost predicate RootWithin(g: Grant, l: Lease) {
    && l.audience in g.audiences && Elements(l.actions) <= Elements(g.actions) && SubsetOf(l.resources, g.resources)
    && AtLeastAsStrong(g.constraints, l.constraints) && l.expiration <= l.issuedAt + g.maxTtl
    && l.maxDepth <= g.maxDelegationDepth && (l.maxDepth > 0 ==> g.canDelegate)
    && (g.maxUses > 0 ==> 0 < l.maxUses <= g.maxUses) && (g.requireProof ==> l.confirmation.Some?)
  }

  ghost predicate ChildWithin(p: Lease, l: Lease) {
    && l.audience == p.audience && l.delegatedBy == Some(p.workload) && p.issuedAt <= l.issuedAt
    && Compared(ContextOf(p), ContextOf(l)) && LineageRules(ContextOf(p), ContextOf(l))
    && (p.confirmation.Some? ==> l.confirmation.Some?)
  }

  ghost predicate WellFormed(config: Config, l: Lease) {
    && l.id != "" && l.tokenId != "" && l.workload != ""
    && l.expiration % SECOND == 0 && l.issuedAt % SECOND == 0 && l.issuedAt < l.expiration
    && ContextOk(ContextOf(l)) && (forall v | v in l.actions :: ByteLen(v) <= MAX_VALUE_LENGTH)
    && l.tokenHash == Sha256(Signed(ClaimsFor(config, l)))
  }

  ghost predicate Authorized(config: Config, s: Store, l: Lease) {
    && l.workload in s.workloads && l.rootWorkload in s.workloads && l.rootWorkload != "" && l.rootLease != ""
    && WellFormed(config, l) && Placed(s.leases, l)
    && match l.parent
       case None => RootWithin(s.workloads[l.rootWorkload].grant, l) && l.delegatedBy.None?
       case Some(p) => p != "" && s.leases[p].workload != "" && ChildWithin(s.leases[p], l)
  }

  /** The CHECK constraints that concern issued columns. */
  predicate RowShape(l: Lease) {
    LeaseRowOk(l.(usesConsumed := 0))
  }

  ghost predicate AllAuthorized(config: Config, s: Store) {
    && Forest(s.leases)
    && forall id {:trigger Authorized(config, s, s.leases[id])} | id in s.leases :: Authorized(config, s, s.leases[id]) && RowShape(s.leases[id])
  }

  // ---- Issuing ----

  lemma ValidateValuesExact(actions: seq<string>, resources: seq<string>)
    ensures ValidateValues(actions, resources).Ok?
            <==> actions != [] && resources != [] && CapabilityValues(actions, false) && CapabilityValues(resources, true)
  {
    assert forall v :: v in actions + resources <==> v in actions || v in resources;
    forall r | r in resources && ValidPattern(r) ensures CoveredBySome(resources, r) && ByteLen(r) <= 256 && Trimmed(r) && r != "" {
      assert Covers(r, r);
    }
    assert Valid(map[]);
    assert Equal(map[], map[]);
  }

  /** A grant limits what the table limits too, in characters and whole seconds rather than bytes and nanoseconds. */
  ghost predicate GrantLimits(config: Config, g: Grant) {
    && 1 <= |g.audiences| <= 16 && NoDuplicates(g.audiences)
    && (forall a | a in g.audiences :: a != "" && Trimmed(a) && ByteLen(a) <= 256) && 0 < g.maxTtl <= config.maxTtl && 0 <= g.maxDelegationDepth <= 16 && 0 <= g.maxUses <= 1_000_000
    && (!g.canDelegate ==> g.maxDelegationDepth == 0) && (g.maxUses > 0 ==> !g.canDelegate)
    && g.actions != [] && g.resources != [] && CapabilityValues(g.actions, false) && CapabilityValues(g.resources, true)
    && Valid(g.constraints)
  }

  /** A stored grant is one validateGrant accepts, in a row the table accepts. */
  ghost predicate GrantFits(config: Config, w: Workload) {
    w.grant.version == 1 && GrantLimits(config, w.grant) && WorkloadRowOk(w)
  }

  ghost predicate GrantsSound(config: Config, s: Store) {
    forall id {:trigger GrantFits(config, s.workloads[id])} | id in s.workloads :: GrantFits(config, s.workloads[id])
  }

  lemma GrantsKept(config: Config, s: Store, x: Txn)
    requires Forest(s.leases) && GrantsSound(config, s)
    requires x.Register? ==> GrantLimits(config, x.workload.grant) && x.workload.grant.version == 1
    ensures GrantsSound(config, Apply(s, x))
  {
    if x.Register? {
      RegisteredGrant(config, s, x.workload, x.event);
    } else {
      ApplyForm(s, x);
      if Apply(s, x) != s {
        GrantsStay(config, s, Apply(s, x), x);
      }
    }
  }

  lemma RegisteredGrant(config: Config, s: Store, w: Workload, event: AuditEvent)
    requires GrantsSound(config, s) && GrantLimits(config, w.grant) && w.grant.version == 1
    ensures GrantsSound(config, CreateWorkload(s, w, event).0)
  {
    var t := CreateWorkload(s, w, event).0;
    forall id | id in t.workloads ensures GrantFits(config, t.workloads[id]) {
      if id in s.workloads && t.workloads[id] == s.workloads[id] {
        assert GrantFits(config, s.workloads[id]);
      }
    }
  }

  lemma GrantsStay(config: Config, s: Store, t: Store, x: Txn)
    requires Forest(s.leases) && GrantsSound(config, s) && Changes(s, t, x) && !x.Register?
    ensures GrantsSound(config, t)
  {
    ChangesEvolves(s, t, x);
    forall id | id in t.workloads ensures GrantFits(config, t.workloads[id]) {
      assert id in s.workloads && SameGrant(s.workloads[id], t.workloads[id]) && GrantFits(config, s.workloads[id]);
    }
  }

  /** validateGrant, which asks whether the grant could mint all of itself, accepts exactly the grants inside the
      limits, and gives them version 1. */
  lemma ValidateGrantExact(config: Config, g: Grant)
    ensures ValidateGrant(config, g) == if GrantLimits(config, g) then Ok(g.(version := 1)) else Err(InvalidWorkload)
  {
    if GrantLimits(config, g) {
      LimitsValidate(config, g);
    } else {
      OutsideLimitsRefused(config, g);
    }
  }

  /** A grant with plain lists can mint all of itself. */
  lemma SelfMint(g: Grant, at: Time)
    requires 0 < g.maxTtl && 0 <= g.maxDelegationDepth <= 16 && 0 <= g.maxUses && at > 0
    requires (!g.canDelegate ==> g.maxDelegationDepth == 0) && (g.maxUses > 0 ==> !g.canDelegate)
    requires g.audiences != [] && PlainDistinct(g.audiences) && PlainDistinct(g.actions) && PlainDistinct(g.resources)
    requires (forall r | r in g.resources :: ValidPattern(r)) && Valid(g.constraints)
    ensures var whole := AuthorityContext(g.actions, g.resources, at + g.maxTtl, 0, g.maxDelegationDepth, g.maxUses, g.constraints);
            ValidateRoot(GrantContextOf(g), g.audiences[0], whole, at).Ok?
  {
    forall r | r in g.resources ensures CoveredBySome(g.resources, r) {
      assert Covers(r, r);
    }
    StrengthIsPartialOrder(g.constraints, g.constraints, g.constraints);
    assert g.audiences[0] in g.audiences;
  }

  lemma LimitsValidate(config: Config, g: Grant)
    requires GrantLimits(config, g)
    ensures ValidateGrant(config, g) == Ok(g.(version := 1))
  {
    ValidateValuesExact(g.actions, g.resources);
    SelfMint(g, UNIX_EPOCH + SECOND);
  }

  lemma OutsideLimitsRefused(config: Config, g: Grant)
    requires !GrantLimits(config, g)
    ensures ValidateGrant(config, g) == Err(InvalidWorkload)
  {
    ValidateValuesExact(g.actions, g.resources);
  }

  /** A registration the use case accepts fits the table exactly when its lifetime limit reaches a second and its
      name, measured in bytes by the one and in characters by the other, has three characters. */
  lemma RegisteredRowFits(config: Config, id: Id, name: string, key: Key, g: Grant, now: Time)
    requires ConfigOk(config) && PlanWorkload(config, id, name, key, g, now).Ok?
    ensures WorkloadRowOk(StoredWorkload(PlanWorkload(config, id, name, key, g, now).value)) <==> g.maxTtl >= SECOND && |name| >= 3
  {
    ValidateGrantExact(config, g);
    CharactersWithinBytes(name);
  }

  /** A lease planned by MintRootLease is within the grant of the row it was planned from. */
  lemma PlanMintAuthorized(config: Config, s: Store, request: MintRequest, now: Time, id: Id, tokenId: Id)
    requires request.workload in s.workloads && MintRequestOk(request) && now % SECOND == 0 && id != "" && tokenId != ""
    requires PlanMint(config, s.workloads[request.workload], request, now, id, tokenId).Ok?
    ensures Authorized(config, s, PlanMint(config, s.workloads[request.workload], request, now, id, tokenId).value)
  {
    ValidateValuesExact(request.actions, request.resources);
  }

  /** A lease planned by DelegateLease is within its parent, also when the parent row was read earlier. */
  lemma PlanDelegateAuthorized(config: Config, s: Store, parent: Lease, request: DelegateRequest, now: Time, id: Id, tokenId: Id)
    requires AllAuthorized(config, s) && parent.id in s.leases && SameIssue(parent, s.leases[parent.id])
    requires DelegateRequestOk(request) && request.recipient in s.workloads && s.workloads[request.recipient].id == request.recipient
    requires parent.issuedAt <= now && now % SECOND == 0 && id != "" && tokenId != ""
    requires PlanDelegate(config, parent, s.workloads[request.recipient], request, now, id, tokenId).Ok?
    ensures Authorized(config, s, PlanDelegate(config, parent, s.workloads[request.recipient], request, now, id, tokenId).value)
  {
    var row := s.leases[parent.id];
    var l := PlanDelegate(config, parent, s.workloads[request.recipient], request, now, id, tokenId).value;
    assert Authorized(config, s, row) && RowShape(row) && Placed(s.leases, row);
    assert ContextOf(row) == ContextOf(parent);
    assert l.rootWorkload in s.workloads;
    assert Placed(s.leases, l);
    assert ChildWithin(row, l);
    forall v | v in l.actions ensures ByteLen(v) <= MAX_VALUE_LENGTH {
      assert v in Elements(row.actions);
    }
    assert WellFormed(config, l);
  }

  /** Authority is about immutable columns, so it outlives every transaction. */
  lemma AuthorizedLater(config: Config, s: Store, t: Store, l: Lease, later: Lease)
    requires Authorized(config, s, l) && Evolves(s, t) && SameIssue(l, later)
    ensures Authorized(config, t, later)
  {
    assert SameGrant(s.workloads[l.rootWorkload], t.workloads[l.rootWorkload]);
    assert ContextOf(l) == ContextOf(later) && ClaimsFor(config, l) == ClaimsFor(config, later);
    if l.parent.Some? {
      var p := l.parent.value;
      assert SameIssue(s.leases[p], t.leases[p]);
      assert ContextOf(s.leases[p]) == ContextOf(t.leases[p]);
    }
  }

  lemma RowsAuthorized(config: Config, s: Store, t: Store, added: Option<Lease>)
    requires AllAuthorized(config, s) && Forest(t.leases) && Evolves(s, t)
    requires forall id | id in t.leases && id !in s.leases :: added == Some(t.leases[id])
    requires added.Some? ==> Authorized(config, s, added.value) && RowShape(added.value)
    ensures AllAuthorized(config, t)
  {
    forall id | id in t.leases ensures Authorized(config, t, t.leases[id]) && RowShape(t.leases[id]) {
      var earlier := if id in s.leases then s.leases[id] else added.value;
      assert Authorized(config, s, earlier) && RowShape(earlier);
      AuthorizedLater(config, s, t, earlier, t.leases[id]);
    }
  }

  /** Committing a lease that was authorized at some time keeps every stored lease authorized. */
  lemma AuthorizedKept(config: Config, s: Store, x: Txn)
    requires AllAuthorized(config, s) && (x.Create? ==> Authorized(config, s, x.lease))
    ensures AllAuthorized(config, Apply(s, x))
  {
    ApplyForm(s, x);
    if Apply(s, x) != s {
      var t := Apply(s, x);
      ForestKept(s, t, x);
      ChangesEvolves(s, t, x);
      forall id | id in t.leases && id !in s.leases ensures x.Create? && t.leases[id] == x.lease && RowShape(x.lease) {
        CreatedRow(s, t, x, id);
      }
      RowsAuthorized(config, s, t, if x.Create? && RowShape(x.lease) then Some(x.lease) else None);
    }
  }

  lemma CreatedRow(s: Store, t: Store, x: Txn, id: Id)
    requires Forest(s.leases) && Changes(s, t, x) && id in t.leases && id !in s.leases
    ensures x.Create? && t.leases[id] == x.lease && RowShape(x.lease)
  {
    ChangesEvolves(s, t, x);
  }

  // ---- Containment ----

  /** The checks Authorize makes on the claims of a lease, at one moment. */
  ghost predicate Admitted(l: Lease, audience: string, d: Demand, skew: Duration) {
    && audience == l.audience && l.issuedAt - skew <= d.at < l.expiration + skew
    && d.action in l.actions && AnyAllows(l.resources, d.value) && Satisfied(l.constraints, d.facts)
  }

  /** The authority of a grant, for a root lease issued at a moment. */
  ghost predicate Granted(g: Grant, issuedAt: Time, audience: string, d: Demand, skew: Duration) {
    && audience in g.audiences && issuedAt - skew <= d.at < issuedAt + g.maxTtl + skew
    && d.action in g.actions && AnyAllows(g.resources, d.value) && Satisfied(g.constraints, d.facts)
  }

  lemma ChildAdmitsLess(p: Lease, l: Lease, audience: string, d: Demand, skew: Duration)
    requires ChildWithin(p, l) && Admitted(l, audience, d, skew)
    ensures Admitted(p, audience, d, skew)
  {
    SubsetSound(l.resources, p.resources);
    StrengthIsInclusion(p.constraints, l.constraints);
    assert d.action in Elements(l.actions);
  }

  /** Whatever a lease admits, each of its ancestors admits. */
  lemma {:induction false} AncestorsAdmitMore(config: Config, s: Store, id: Id, a: Id, audience: string, d: Demand, skew: Duration)
    requires AllAuthorized(config, s) && id in s.leases && a in Chain(s.leases, id)
    requires Admitted(s.leases[id], audience, d, skew)
    ensures a in s.leases && Admitted(s.leases[a], audience, d, skew)
    decreases s.leases[id].depth
  {
    assert Authorized(config, s, s.leases[id]) && Placed(s.leases, s.leases[id]);
    if a != id {
      var p := s.leases[id].parent.value;
      ChildAdmitsLess(s.leases[p], s.leases[id], audience, d, skew);
      AncestorsAdmitMore(config, s, p, a, audience, d, skew);
    }
  }

  /** And the stored grant of the root workload covers it. */
  lemma GrantCovers(config: Config, s: Store, id: Id, audience: string, d: Demand, skew: Duration)
    requires AllAuthorized(config, s) && id in s.leases && Admitted(s.leases[id], audience, d, skew)
    ensures var l := s.leases[id];
            && l.rootLease in s.leases && l.rootWorkload in s.workloads
            && Granted(s.workloads[l.rootWorkload].grant, s.leases[l.rootLease].issuedAt, audience, d, skew)
  {
    ChainShape(s.leases, id);
    var root := s.leases[id].rootLease;
    assert Chain(s.leases, id)[0] == root;
    AncestorsAdmitMore(config, s, id, root, audience, d, skew);
    var r := s.leases[root];
    assert Authorized(config, s, r);
    var g := s.workloads[r.rootWorkload].grant;
    SubsetSound(r.resources, g.resources);
    StrengthIsInclusion(g.constraints, r.constraints);
    assert d.action in Elements(r.actions);
  }

  // ---- What sticks to a lineage ----

  /** A limited-use lease sits at its own depth ceiling and has no child. */
  lemma LimitedUseEndsLineage(config: Config, s: Store, id: Id, child: Id)
    requires AllAuthorized(config, s) && id in s.leases && child in s.leases && s.leases[id].maxUses > 0
    ensures s.leases[id].maxDepth == s.leases[id].depth && s.leases[child].parent != Some(id)
  {
    assert Authorized(config, s, s.leases[id]) && Authorized(config, s, s.leases[child]);
  }

  /** Once a lease in a lineage is bound to a key, or the root grant demands it, every lease below is bound. */
  lemma {:induction false} KeyBindingSticks(config: Config, s: Store, id: Id, a: Id)
    requires AllAuthorized(config, s) && id in s.leases && a in Chain(s.leases, id) && a in s.leases
    requires s.leases[id].rootWorkload in s.workloads
    requires s.leases[a].confirmation.Some? || s.workloads[s.leases[id].rootWorkload].grant.requireProof
    ensures s.leases[id].confirmation.Some?
    decreases s.leases[id].depth
  {
    assert Authorized(config, s, s.leases[id]) && Placed(s.leases, s.leases[id]);
    if s.leases[id].parent.Some? && (a != id || s.workloads[s.leases[id].rootWorkload].grant.requireProof) {
      var p := s.leases[id].parent.value;
      KeyBindingSticks(config, s, p, if a != id then a else p);
    }
  }

  // ---- Tokens of stored leases ----

  /** The token issued for a stored lease passes every structural check and matches the stored row. */
  lemma TokenRoundTrip(config: Config, s: Store, id: Id)
    requires AllAuthorized(config, s) && id in s.leases
    ensures var l := s.leases[id];
            Structure(ClaimsFor(config, l)).Ok? && ParentTokenMatches(l, Signed(ClaimsFor(config, l)), ClaimsFor(config, l))
  {
    var l := s.leases[id];
    assert Authorized(config, s, l) && RowShape(l) && Placed(s.leases, l);
    if l.confirmation.Some? {
      AsciiByteLen(l.confirmation.value);
    }
    forall r | r in l.resources ensures ByteLen(r) <= 256 {
      assert ValidPattern(r);
    }
    EqualIsEquality(l.constraints, l.constraints);
  }

  /** So it verifies, wherever its encoding fits, exactly between its dates widened by the leeway. */
  lemma IssuedTokenVerifies(config: Config, s: Store, id: Id, leeway: Duration, now: Time)
    requires AllAuthorized(config, s) && id in s.leases && ConfigOk(config) && leeway >= 0
    requires EncodedSize(ClaimsFor(config, s.leases[id])) <= MAX_TOKEN_BYTES
    ensures var l := s.leases[id];
            VerifyLeaseToken(Signed(ClaimsFor(config, l)), config.issuer, l.audience, leeway, now)
            == if now >= l.expiration + leeway then Err(TokenExpired)
               else if now < l.issuedAt - leeway then Err(NotYetValid)
               else Ok(ClaimsFor(config, l))
  {
    TokenRoundTrip(config, s, id);
    assert Authorized(config, s, s.leases[id]) && RowShape(s.leases[id]);
  }

  /** Comparing lengths and one inclusion is set equality because both lists are free of duplicates. */
  lemma SameStringsIsSetEquality(left: seq<string>, right: seq<string>)
    requires NoDuplicates(left) && NoDuplicates(right)
    ensures SameStrings(left, right) <==> Elements(left) == Elements(right)
  {
    ElementCount(left);
    ElementCount(right);
    if SameStrings(left, right) {
      SubsetOfEqualSize(Elements(right), Elements(left));
    }
    if Elements(left) == Elements(right) {
      forall v | v in right ensures v in left {
        assert v in Elements(right);
      }
    }
  }

  lemma SubsetOfEqualSize<T>(a: set<T>, b: set<T>)
    requires a <= b && |a| == |b|
    ensures a == b
  {
    assert |b - a| == |b| - |a|;
  }

  /** With a duplicate the comparison is neither symmetric nor set equality. */
  lemma SameStringsNeedsDistinctLists()
    ensures SameStrings(["a", "b"], ["a", "a"]) && !SameStrings(["a", "a"], ["a", "b"])
  {
    assert "b" in ["a", "b"] && "b" !in ["a", "a"];
  }
}
