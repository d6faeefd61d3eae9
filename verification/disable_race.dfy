/** A complete case of the disablement that misses a lease: W holds a lease, X one below it, and X delegates to Y while
    W is being disabled. The tables come from the operations themselves. */
module DisableRace {
  import opened Wrappers
  import opened Text
  import opened Resource
  import opened ResourceLanguage
  import opened Constraints
  import opened Attenuation
  import opened AttenuationMeaning
  import opened Domain
  import opened LeaseToken
  import opened Lineage
  import opened Transactions
  import opened Evolution
  import opened Revocation
  import opened Usecase
  import opened Authority
  import opened Operations
  import ControlPlane
  import L = LockProtocol
  import R = Readmission

  const W: Id := ['w']
  const X: Id := ['x']
  const Y: Id := ['y']

  function KeyOf(c: char): Key
    requires 'A' <= c <= 'Z'
  {
    seq(43, i => c)
  }

  function Path(): string {
    ['a'] + ['/'] + ['b']
  }

  function WideGrant(): Grant {
    Grant([['a']], [['r']], [Path()], 2 * MINUTE, 2, true, false, 0, map[], 1)
  }

  function Row(id: Id, name: string, key: Key): Workload {
    Workload(id, name, key, None, R.START, R.START, None, WideGrant())
  }

  // ---- Three workloads ----

  lemma NameFits(name: string)
    requires |name| == 3 && forall c | c in name :: 'a' <= c <= 'z'
    ensures Trimmed(name) && ByteLen(name) == 3
  {
    assert name[0] in name && name[2] in name;
    LetterOk(name[0]);
    LetterOk(name[2]);
    AsciiByteLen(name);
  }

  lemma WideGrantLimits()
    requires R.Ascii()
    ensures GrantLimits(R.ISSUING, WideGrant())
  {
    R.PathNfc();
    SmallText(['a'], 'a');
    SmallText(['r'], 'r');
    SmallPattern('a', 'b');
    assert Valid(map[]);
  }

  lemma EnrollOne(s: Store, id: Id, name: string, key: Key) returns (t: Store)
    requires R.Ascii() && ControlPlane.StoreSound(R.ISSUING, s, R.START) && |name| == 3 && forall c | c in name :: 'a' <= c <= 'z'
    requires id !in s.workloads && forall w | w in s.workloads :: s.workloads[w].name != name && !Accepts(s.workloads[w], key, R.START)
    ensures ControlPlane.StoreSound(R.ISSUING, t, R.START)
    ensures t.workloads == s.workloads[id := Row(id, name, key)] && t.leases == s.leases
  {
    t := Enroll(R.ISSUING, s, id, name, key, WideGrant(), R.ACTOR, R.START).0;
    EnrollKeepsSound(R.ISSUING, s, id, name, key, WideGrant(), R.ACTOR, R.START);
    EnrolledRow(s, id, name, key);
  }

  lemma EnrolledRow(s: Store, id: Id, name: string, key: Key)
    requires R.Ascii() && |name| == 3 && forall c | c in name :: 'a' <= c <= 'z'
    requires id !in s.workloads && forall w | w in s.workloads :: s.workloads[w].name != name && !Accepts(s.workloads[w], key, R.START)
    ensures var t := Enroll(R.ISSUING, s, id, name, key, WideGrant(), R.ACTOR, R.START).0;
            t.workloads == s.workloads[id := Row(id, name, key)] && t.leases == s.leases
  {
    R.NameFits();
    NameFits(name);
    WideGrantLimits();
    EnrollExactly(R.ISSUING, s, id, name, key, WideGrant(), R.ACTOR, R.START);
    R.StartIsWhole();
  }

  ghost predicate HasThree(s: Store) {
    s.workloads == map[W := Row(W, ['o', 'n', 'e'], KeyOf('A')), X := Row(X, ['t', 'w', 'o'], KeyOf('B')), Y := Row(Y, ['s', 'i', 'x'], KeyOf('C'))]
  }

  lemma KeysDiffer(c: char, d: char)
    requires 'A' <= c <= 'Z' && 'A' <= d <= 'Z' && c != d
    ensures KeyOf(c) != KeyOf(d)
  {
    assert KeyOf(c)[0] != KeyOf(d)[0];
  }

  lemma TwoWorkloads() returns (s: Store)
    requires R.Ascii()
    ensures ControlPlane.StoreSound(R.ISSUING, s, R.START) && s.leases == map[]
    ensures s.workloads == map[W := Row(W, ['o', 'n', 'e'], KeyOf('A')), X := Row(X, ['t', 'w', 'o'], KeyOf('B'))]
  {
    ControlPlane.EmptyStoreSound(R.ISSUING, R.START);
    s := EnrollOne(EMPTY_STORE, W, ['o', 'n', 'e'], KeyOf('A'));
    KeysDiffer('A', 'B');
    assert ['o', 'n', 'e'][0] != ['t', 'w', 'o'][0];
    s := EnrollOne(s, X, ['t', 'w', 'o'], KeyOf('B'));
  }

  lemma ThreeWorkloads() returns (s: Store)
    requires R.Ascii()
    ensures ControlPlane.StoreSound(R.ISSUING, s, R.START) && HasThree(s) && s.leases == map[]
  {
    s := TwoWorkloads();
    KeysDiffer('A', 'C');
    KeysDiffer('B', 'C');
    assert ['o', 'n', 'e'][0] != ['s', 'i', 'x'][0] && ['t', 'w', 'o'][0] != ['s', 'i', 'x'][0];
    s := EnrollOne(s, Y, ['s', 'i', 'x'], KeyOf('C'));
  }

  // ---- The lineage ----

  /** A lease of the lineage: all share audience, action, path, depth ceiling and issue time. */
  function Member(id: Id, tokenId: Id, holder: Id, parent: Option<Id>, delegatedBy: Option<Id>, expiration: Time, depth: int): Lease {
    Sealed(R.ISSUING, Lease(id, tokenId, holder, W, ['a'], parent, ['1'], delegatedBy, [['r']], [Path()], expiration, depth, 2,
                            Sha256(Forged("")), R.START, None, 1, None, 0, 0, map[]))
  }

  function First(): Lease {
    Member(['1'], ['p'], W, None, None, R.START + MINUTE, 0)
  }

  function Second(): Lease {
    Member(['2'], ['q'], X, Some(['1']), Some(W), R.START + 30 * SECOND, 1)
  }

  function Third(): Lease {
    Member(['3'], ['r'], Y, Some(['2']), Some(X), R.START + 20 * SECOND, 2)
  }

  /** Tokens of these two leases fit: a few hundred bytes each. */
  ghost predicate TokensFit() {
    EncodedSize(ClaimsFor(R.ISSUING, First())) <= MAX_TOKEN_BYTES && EncodedSize(ClaimsFor(R.ISSUING, Second())) <= MAX_TOKEN_BYTES
  }

  function MintFirst(): MintRequest {
    MintRequest(W, ['a'], [['r']], [Path()], 0, MINUTE, 2, false, 0, map[], KeyOf('A'))
  }

  lemma LineageContextOk(expiration: Time, depth: int)
    requires R.Ascii() && expiration != 0 && 0 <= depth <= 2
    ensures var context := AuthorityContext([['r']], [Path()], expiration, depth, 2, 0, map[]);
            ContextOk(context) && CapabilityValues([['r']], false) && CapabilityValues([Path()], true)
  {
    R.PathNfc();
    SmallPattern('a', 'b');
    SmallText(['r'], 'r');
    assert Valid(map[]);
  }

  lemma LineageNarrows(parent: AuthorityContext, child: AuthorityContext)
    requires R.Ascii() && parent.actions == child.actions && parent.resources == child.resources == [Path()]
    requires parent.constraints == child.constraints == map[] && child.expiration <= parent.expiration
    ensures Narrows(parent, child)
  {
    R.PathNfc();
    SmallPattern('a', 'b');
    assert Covers(Path(), Path()) && CoveredBySome(parent.resources, Path());
    assert Valid(map[]);
    ComparedNarrows(parent, child);
  }

  lemma MintFirstAllowed(s: Store)
    requires R.Ascii() && W in s.workloads && s.workloads[W] == Row(W, ['o', 'n', 'e'], KeyOf('A'))
    ensures MintAllowed(R.ISSUING, s, MintFirst(), R.START, R.START + MINUTE)
  {
    LineageContextOk(R.START + MINUTE, 0);
    LineageNarrows(GrantAuthority(GrantContextOf(WideGrant()), R.START), MintContext(MintFirst(), R.START + MINUTE));
    SmallText(['a'], 'a');
    AsciiByteLen(KeyOf('A'));
    R.ExpirationFits();
  }

  lemma MintIsFirst(s: Store)
    requires R.Ascii() && W in s.workloads && s.workloads[W] == Row(W, ['o', 'n', 'e'], KeyOf('A')) && s.leases == map[]
    requires AllAuthorized(R.ISSUING, s) && GrantsSound(R.ISSUING, s)
    ensures var t := Mint(R.ISSUING, s, MintFirst(), R.START, ['1'], ['p']).0;
            t.leases == map[['1'] := First()] && t.workloads == s.workloads
  {
    MintFirstAllowed(s);
    R.StartIsWhole();
    var l := MintSucceeds(R.ISSUING, s, MintFirst(), R.START, ['1'], ['p'], R.START + MINUTE);
    RootIs(s.workloads[W], l);
  }

  lemma RootIs(w: Workload, l: Lease)
    ensures AskedRoot(R.ISSUING, w, MintFirst(), R.START, ['1'], ['p'], l) && l.expiration == R.START + MINUTE && w.grant == WideGrant() ==>
              l == First()
  {
    if AskedRoot(R.ISSUING, w, MintFirst(), R.START, ['1'], ['p'], l) && l.expiration == R.START + MINUTE && w.grant == WideGrant() {
      assert ClaimsFor(R.ISSUING, l) == ClaimsFor(R.ISSUING, First());
    }
  }

  /** The holder of one lease of the lineage delegates the next. */
  function Handing(parent: Lease, to: Id, ttl: Duration, key: Key): DelegateRequest {
    DelegateRequest(parent.id, Signed(ClaimsFor(R.ISSUING, parent)), parent.workload, to, [['r']], [Path()], 0, ttl, false, 0, map[], key)
  }

  lemma HandingAllowed(s: Store, parent: Lease, to: Id, ttl: Duration, key: Key)
    requires R.Ascii() && MayHand(s, parent, to, ttl, key)
    ensures DelegateAllowed(R.ISSUING, s, Handing(parent, to, ttl, key), R.START, R.START, R.START + ttl)
  {
    var request := Handing(parent, to, ttl, key);
    var context := ChildContext(parent, request, R.START + ttl);
    LineageContextOk(R.START + ttl, parent.depth + 1);
    LineageNarrows(ContextOf(parent), context);
    AsciiByteLen(key);
    TtlFits(ttl);
  }

  lemma TtlFits(ttl: Duration)
    requires 0 < ttl <= MINUTE && ttl % SECOND == 0
    ensures AskedFor(R.ISSUING, R.START, 0, ttl, R.START + ttl)
  {
    var n := ttl / SECOND;
    assert R.START + ttl == (1000 + n) * SECOND;
  }

  /** One of the lineage with its token in size, whose holder has this key; and an enabled recipient. */
  ghost predicate MayHand(s: Store, parent: Lease, to: Id, ttl: Duration, key: Key) {
    && parent.id in s.leases && s.leases[parent.id] == parent && parent.id != "" && to != "" && parent.workload != ""
    && parent == Member(parent.id, parent.tokenId, parent.workload, parent.parent, parent.delegatedBy, parent.expiration, parent.depth)
    && 0 <= parent.depth < 2 && 0 < ttl <= MINUTE && ttl % SECOND == 0 && R.START + ttl < parent.expiration
    && EncodedSize(ClaimsFor(R.ISSUING, parent)) <= MAX_TOKEN_BYTES
    && to in s.workloads && s.workloads[to].disabledAt.None? && s.workloads[to].id == to
    && parent.workload in s.workloads && s.workloads[parent.workload].publicKey == key
  }

  /** What is handed is the next of the lineage. */
  lemma Handed(s: Store, parent: Lease, to: Id, ttl: Duration, key: Key, child: Lease)
    requires R.Ascii() && AllAuthorized(R.ISSUING, s) && HoldersEnabled(s) && MayHand(s, parent, to, ttl, key)
    requires FreshIds(s, child.id, child.tokenId) && child.id != "" && child.tokenId != ""
    requires child == Member(child.id, child.tokenId, to, Some(parent.id), Some(parent.workload), R.START + ttl, parent.depth + 1)
    ensures Delegate(R.ISSUING, s, Handing(parent, to, ttl, key), R.START, R.START, child.id, child.tokenId)
            == (s.(leases := s.leases[child.id := child], audit := s.audit + [DelegateEvent(child, parent.workload)]),
                Ok(IssuedLease(child, Signed(ClaimsFor(R.ISSUING, child)))))
  {
    HandingAllowed(s, parent, to, ttl, key);
    R.StartIsWhole();
    R.ConfigsOk();
    var l := DelegateSucceeds(R.ISSUING, s, Handing(parent, to, ttl, key), R.START, R.START, child.id, child.tokenId, R.START + ttl);
    ChildIs(parent, s.workloads[to], to, ttl, key, l, child);
  }

  lemma ChildIs(parent: Lease, recipient: Workload, to: Id, ttl: Duration, key: Key, l: Lease, child: Lease)
    requires parent == Member(parent.id, parent.tokenId, parent.workload, parent.parent, parent.delegatedBy, parent.expiration, parent.depth)
    requires child == Member(child.id, child.tokenId, to, Some(parent.id), Some(parent.workload), R.START + ttl, parent.depth + 1)
    ensures AskedChild(R.ISSUING, parent, recipient, Handing(parent, to, ttl, key), R.START, child.id, child.tokenId, l) ==>
              l.expiration == R.START + ttl ==> l == child
  {
    if AskedChild(R.ISSUING, parent, recipient, Handing(parent, to, ttl, key), R.START, child.id, child.tokenId, l) && l.expiration == R.START + ttl {
      assert ClaimsFor(R.ISSUING, l) == ClaimsFor(R.ISSUING, child);
    }
  }

  ghost predicate HasLineage(s: Store) {
    HasThree(s) && s.leases == map[['1'] := First(), ['2'] := Second()]
  }

  lemma OneLease() returns (s: Store)
    requires R.Ascii()
    ensures ControlPlane.StoreSound(R.ISSUING, s, R.START) && HasThree(s) && s.leases == map[['1'] := First()]
  {
    var before := ThreeWorkloads();
    s := Mint(R.ISSUING, before, MintFirst(), R.START, ['1'], ['p']).0;
    MintIsFirst(before);
    MintKeepsSound(R.ISSUING, before, MintFirst(), R.START, ['1'], ['p']);
  }

  lemma SecondDelegated(s: Store)
    requires R.Ascii() && TokensFit() && HasThree(s) && s.leases == map[['1'] := First()]
    requires AllAuthorized(R.ISSUING, s) && HoldersEnabled(s)
    ensures var t := Delegate(R.ISSUING, s, Handing(First(), X, 30 * SECOND, KeyOf('A')), R.START, R.START, ['2'], ['q']).0;
            HasLineage(t)
  {
    Handed(s, First(), X, 30 * SECOND, KeyOf('A'), Second());
  }

  /** The tables before the race. */
  lemma Tables() returns (s: Store)
    requires R.Ascii() && TokensFit()
    ensures ControlPlane.StoreSound(R.ISSUING, s, R.START) && HasLineage(s)
  {
    var before := OneLease();
    s := Delegate(R.ISSUING, before, Handing(First(), X, 30 * SECOND, KeyOf('A')), R.START, R.START, ['2'], ['q']).0;
    SecondDelegated(before);
    DelegateKeepsSound(R.ISSUING, before, Handing(First(), X, 30 * SECOND, KeyOf('A')), R.START, R.START, ['2'], ['q']);
  }

  /** The delegation from X to Y, written and about to commit. */
  ghost function Pending(): L.Process {
    L.Delegating(Third(), KeyOf('B'), DelegateEvent(Third(), X), L.Written, ['1'])
  }

  lemma ThirdPasses(s: Store)
    requires R.Ascii() && TokensFit() && HasLineage(s) && AllAuthorized(R.ISSUING, s) && HoldersEnabled(s)
    ensures CheckIssue(s, Third(), KeyOf('B')).Ok? && L.RowOk(s, Third())
    ensures L.Current(s, Pending())
  {
    Handed(s, Second(), Y, 20 * SECOND, KeyOf('B'), Third());
    ThirdChecked(s);
    L.ChecksTogether(s, Third(), KeyOf('B'));
    LineageRoot(s.leases);
  }

  /** The delegation goes through, so its checks passed. */
  lemma ThirdChecked(s: Store)
    requires Delegate(R.ISSUING, s, Handing(Second(), Y, 20 * SECOND, KeyOf('B')), R.START, R.START, ['3'], ['r']).1
             == Ok(IssuedLease(Third(), Signed(ClaimsFor(R.ISSUING, Third()))))
    ensures CheckIssue(s, Third(), KeyOf('B')).Ok? && L.RowOk(s, Third())
  {
  }

  lemma LineageRoot(leases: Leases)
    requires Forest(leases) && leases == map[['1'] := First(), ['2'] := Second()]
    ensures Chain(leases, ['2']) == [['1'], ['2']] && L.RootOf(leases, ['2']) == ['1']
  {
    assert Chain(leases, ['1']) == [['1']];
  }

  lemma SecondAffected(s: Store)
    requires HasLineage(s) && Forest(s.leases)
    ensures ['2'] in Affected(s.leases, HeldBy(s.leases, W)) && s.leases[['2']].workload != W
  {
    LineageRoot(s.leases);
    assert ['1'] in HeldBy(s.leases, W);
    assert Chain(s.leases, ['2'])[0] == ['1'];
  }

  /**
   On tables the operations produce: the delegation of X to Y has passed every check and holds the rows of Y, X and the
   second lease, not that of W. The disablement of W has selected the second lease, waits for its row, and marks it
   after the delegation has committed. The third lease then lives below a revoked one.
   */
  lemma DisabledAndStillDelegated() returns (s: Store)
    requires R.Ascii() && TokensFit()
    ensures ControlPlane.StoreSound(R.ISSUING, s, R.START) && HasLineage(s)
    ensures CheckIssue(s, Third(), KeyOf('B')).Ok? && L.RowOk(s, Third()) && L.Current(s, Pending())
    ensures ['2'] in Affected(s.leases, HeldBy(s.leases, W)) && s.leases[['2']].workload != W
    ensures W !in L.SharedWorkloads(Pending()) && !L.Compatible(s, DisableWorkload(s, W, R.ACTOR, R.START).0, Pending())
    ensures var after := MarkRevoked(L.Committed(s, Pending()).leases, Affected(s.leases, HeldBy(s.leases, W)), R.START);
            && ['2'] in after && after[['2']].revokedAt.Some? && ['3'] in after && after[['3']].revokedAt.None?
            && !DownwardClosed(after)
  {
    s := Tables();
    ThirdPasses(s);
    SecondAffected(s);
    L.DisablementWaits(s, Pending(), W, R.ACTOR, R.START);
    L.DisablementMissesChild(s, Pending(), HeldBy(s.leases, W), R.START);
  }
}
