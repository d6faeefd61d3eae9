/** A complete case with every value given: a registered workload, its minted lease, the revocation of the lease, and a
    request under it that is admitted a minute later. */
module Readmission {
  import opened Wrappers
  import opened Text
  import opened Resource
  import opened ResourceLanguage
  import opened Constraints
  import opened Attenuation
  import opened AttenuationMeaning
  import opened Domain
  import opened LeaseToken
  import opened Lineage
  import opened Transactions
  import opened Evolution
  import opened Authority
  import opened Operations
  import ControlPlane
  import Usecase
  import Middleware
  import EndToEnd

  const WORKLOAD: Id := ['w']
  const LEASE: Id := ['l']
  const TOKEN: Id := ['t']
  const ACTOR := ['o']
  const START: Time := 1000 * SECOND
  const EXPIRY: Time := START + MINUTE

  const ISSUING := Usecase.Config(['i'], 60 * MINUTE, 0, 30 * SECOND)
  const VERIFYING := Middleware.Config(['i'], ['a'], Middleware.Strict, 30 * SECOND, 0, 0, false, 30 * SECOND)

  function SubjectKey(): Key {
    seq(43, i => 'A')
  }

  function Request(): Usecase.MintRequest {
    Usecase.MintRequest(WORKLOAD, ['a'], [['r']], [['a'] + ['/'] + ['b']], 0, MINUTE, 0, false, 0, map[], SubjectKey())
  }

  /** The few facts about Unicode tables the example touches. */
  ghost predicate Ascii() {
    NfcLaws() && Nfc("")
  }

  /** One workload and no lease. */
  ghost predicate HasWorkload(s: Store) {
    && s.workloads == map[WORKLOAD := Workload(WORKLOAD, ['a', 'b', 'c'], SubjectKey(), None, START, START, None, SmallGrant(2 * MINUTE))]
    && s.leases == map[]
  }

  /** What matters of the minted lease. */
  ghost predicate IsLease(l: Lease) {
    && l.expiration == EXPIRY && l.issuedAt == START && l.maxUses == 0 && l.confirmation.None? && l.audience == ['a']
    && l.actions == [['r']] && l.resources == [['a'] + ['/'] + ['b']] && l.constraints == map[]
  }

  lemma StartIsWhole()
    ensures WholeSecond(START) == START && WholeSecond(2 * MINUTE) == 2 * MINUTE
  {
  }

  lemma PathNfc()
    requires Ascii()
    ensures Nfc(['a'] + ['/'] + ['b'])
  {
    AsciiNfc(['a'] + ['/'] + ['b']);
  }

  lemma NameFits()
    ensures Trimmed(['a', 'b', 'c']) && ByteLen(['a', 'b', 'c']) == 3 && !AllSpace(ACTOR)
  {
    LetterOk('a');
    LetterOk('c');
    LetterOk('o');
    AsciiByteLen(['a', 'b', 'c']);
    assert 'o' in ACTOR;
  }

  lemma RegistrationWorks() returns (s: Store)
    requires Ascii()
    ensures ControlPlane.StoreSound(ISSUING, s, START) && HasWorkload(s)
  {
    s := Usecase.Enroll(ISSUING, EMPTY_STORE, WORKLOAD, ['a', 'b', 'c'], SubjectKey(), SmallGrant(2 * MINUTE), ACTOR, START).0;
    ControlPlane.EmptyStoreSound(ISSUING, START);
    EnrollKeepsSound(ISSUING, EMPTY_STORE, WORKLOAD, ['a', 'b', 'c'], SubjectKey(), SmallGrant(2 * MINUTE), ACTOR, START);
    RegisteredShape();
  }

  lemma RegisteredShape()
    requires Ascii()
    ensures HasWorkload(Usecase.Enroll(ISSUING, EMPTY_STORE, WORKLOAD, ['a', 'b', 'c'], SubjectKey(), SmallGrant(2 * MINUTE), ACTOR, START).0)
  {
    PathNfc();
    NameFits();
    SmallGrantLimits(ISSUING, 2 * MINUTE);
    EnrollExactly(ISSUING, EMPTY_STORE, WORKLOAD, ['a', 'b', 'c'], SubjectKey(), SmallGrant(2 * MINUTE), ACTOR, START);
    StartIsWhole();
  }

  lemma ExpirationFits()
    ensures AskedFor(ISSUING, START, 0, MINUTE, EXPIRY)
  {
  }

  lemma MintIsAllowed(s: Store)
    requires Ascii() && HasWorkload(s)
    ensures MintAllowed(ISSUING, s, Request(), START, EXPIRY)
  {
    PathNfc();
    SmallPattern('a', 'b');
    SmallText(['a'], 'a');
    SmallText(['r'], 'r');
    AsciiByteLen(SubjectKey());
    SmallGrantLimits(ISSUING, 2 * MINUTE);
    var context := MintContext(Request(), EXPIRY);
    var grant := GrantAuthority(GrantContextOf(SmallGrant(2 * MINUTE)), START);
    assert Covers(Request().resources[0], Request().resources[0]) && CoveredBySome(grant.resources, Request().resources[0]);
    assert Valid(map[]);
    ComparedNarrows(grant, context);
    ExpirationFits();
  }

  lemma MintedShape(s: Store)
    requires Ascii() && HasWorkload(s) && AllAuthorized(ISSUING, s) && GrantsSound(ISSUING, s)
    ensures var t := Usecase.Mint(ISSUING, s, Request(), START, LEASE, TOKEN).0;
            t.leases.Keys == {LEASE} && t.leases[LEASE].revokedAt.None? && IsLease(t.leases[LEASE])
  {
    MintIsAllowed(s);
    StartIsWhole();
    var l := MintSucceeds(ISSUING, s, Request(), START, LEASE, TOKEN, EXPIRY);
  }

  lemma MintWorks() returns (s: Store)
    requires Ascii()
    ensures ControlPlane.StoreSound(ISSUING, s, START) && s.leases.Keys == {LEASE}
    ensures s.leases[LEASE].revokedAt.None? && IsLease(s.leases[LEASE])
  {
    var before := RegistrationWorks();
    MintedShape(before);
    MintKeepsSound(ISSUING, before, Request(), START, LEASE, TOKEN);
    s := Usecase.Mint(ISSUING, before, Request(), START, LEASE, TOKEN).0;
  }

  lemma RevocationWorks(s: Store) returns (after: Store)
    requires AllAuthorized(ISSUING, s) && s.leases.Keys == {LEASE} && s.leases[LEASE].revokedAt.None? && IsLease(s.leases[LEASE])
    ensures after == RevokeLeaseLineage(s, LEASE, ACTOR, START).0
    ensures AllAuthorized(ISSUING, after) && EndToEnd.RevokesLater(s, START, after, LEASE, EXPIRY)
    ensures IsLease(after.leases[LEASE]) && after.leases[LEASE].revokedAt == Some(START)
  {
    after := RevokeLeaseLineage(s, LEASE, ACTOR, START).0;
    AuthorizedKept(ISSUING, s, Revoke(LEASE, ACTOR, START));
    RevokedLater(s, after);
  }

  lemma RevokedLater(s: Store, after: Store)
    requires Forest(s.leases) && s.leases.Keys == {LEASE} && s.leases[LEASE].revokedAt.None?
    requires after == RevokeLeaseLineage(s, LEASE, ACTOR, START).0
    ensures after.leases == map[LEASE := s.leases[LEASE].(revokedAt := Some(START))]
    ensures EndToEnd.RevokesLater(s, START, after, LEASE, EXPIRY)
  {
    RevocationEvolves(s, LEASE, ACTOR, START);
    RevokedShape(s, after);
  }

  lemma RevokedShape(s: Store, after: Store)
    requires Forest(s.leases) && s.leases.Keys == {LEASE} && s.leases[LEASE].revokedAt.None?
    requires after == RevokeLeaseLineage(s, LEASE, ACTOR, START).0
    ensures after.leases == map[LEASE := s.leases[LEASE].(revokedAt := Some(START))]
  {
    AffectedChild(s.leases, {LEASE}, LEASE);
  }

  /** A request with the token of that lease, checked an instant before the expiry. */
  ghost function Asking(template: Middleware.Request, l: Lease): Middleware.Request {
    template.(token := Signed(Usecase.ClaimsFor(ISSUING, l)), action := ['r'], resource := ['a'] + ['/'] + ['b'],
              keyKnown := true, now := EXPIRY - 1)
  }

  lemma AskingIsFine(template: Middleware.Request, l: Lease)
    requires Ascii() && IsLease(l) && 0 < EncodedSize(Usecase.ClaimsFor(ISSUING, l)) <= MAX_TOKEN_BYTES
    ensures EndToEnd.OtherwiseFine(VERIFYING, ISSUING, l, map[], Asking(template, l))
  {
    PathNfc();
    SmallPattern('a', 'b');
    var path := ['a'] + ['/'] + ['b'];
    assert path[|path| - 1] == 'b';
    ExactPatternIsValue(path);
    assert path in l.resources && ['r'] in l.actions;
    assert Valid(map[]);
  }

  /** Authorize admits the request after the revocation, by its own refresh and after waiting for another's. */
  ghost predicate Readmits(s: Store, after: Store, r: Middleware.Request) {
    var worlds := EndToEnd.LateWorlds(VERIFYING, 0, s, START, after, LEASE, EXPIRY);
    && EndToEnd.Run(VERIFYING, 0, worlds, EndToEnd.LateEvents(after, LEASE, EXPIRY))
    && Middleware.Authorize(VERIFYING, worlds[3].cache, map[], EndToEnd.Refreshing(after, EXPIRY, r)).2.Ok?
    && Middleware.Authorize(VERIFYING, worlds[4].cache, map[], EndToEnd.Waiting(EXPIRY, r)).2.Ok?
  }

  lemma ConfigsOk()
    ensures Middleware.ConfigOk(VERIFYING) && Usecase.ConfigOk(ISSUING)
  {
  }

  lemma HistoryReadmits(s: Store, after: Store, r: Middleware.Request)
    requires AllAuthorized(ISSUING, after) && EndToEnd.RevokesLater(s, START, after, LEASE, EXPIRY)
    requires IsLease(after.leases[LEASE]) && EndToEnd.OtherwiseFine(VERIFYING, ISSUING, after.leases[LEASE], map[], r) && r.now == EXPIRY - 1
    ensures Readmits(s, after, r)
  {
    ConfigsOk();
    EndToEnd.RevokedLeaseReadmitted(VERIFYING, ISSUING, 0, s, START, after, LEASE, EXPIRY, map[], r);
  }

  /** A strict verifier without clock skew and without network delay, thirty seconds of cache lifetime, a lease of a
      minute revoked at once: a minute later Authorize still admits a request whose token was checked an instant before
      the expiry. Only the size of that one token is left to the encoder, which must keep it within 16 KiB. */
  lemma RevokedAMinuteAgoAndAdmitted(template: Middleware.Request) returns (s: Store, after: Store)
    requires Ascii()
    ensures ControlPlane.StoreSound(ISSUING, s, START) && after == RevokeLeaseLineage(s, LEASE, ACTOR, START).0
    ensures LEASE in after.leases && after.leases[LEASE].revokedAt == Some(START) && after.leases[LEASE].expiration == START + MINUTE
    ensures 0 < EncodedSize(Usecase.ClaimsFor(ISSUING, after.leases[LEASE])) <= MAX_TOKEN_BYTES ==>
              Readmits(s, after, Asking(template, after.leases[LEASE]))
  {
    s := MintWorks();
    after := RevocationWorks(s);
    if 0 < EncodedSize(Usecase.ClaimsFor(ISSUING, after.leases[LEASE])) <= MAX_TOKEN_BYTES {
      AskingIsFine(template, after.leases[LEASE]);
      HistoryReadmits(s, after, Asking(template, after.leases[LEASE]));
    }
  }
}
