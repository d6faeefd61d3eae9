/** sdk/go/pop: proofs of possession, after their signature and JSON shape have been checked. */
module ProofOfPossession {
  import opened Wrappers
  import opened Text
  import opened Attenuation
  import opened Domain

  const MAX_REPLAY_ENTRIES := 10000

  /** The claims of a proof whose signature verifies under the key named by thumbprint. */
  datatype Proof = Proof(thumbprint: Key, id: string, issuedAt: Time, httpMethod: string, httpUri: string, accessHash: Digest)

  datatype VerifiedProof = VerifiedProof(id: string, thumbprint: Key, replayExpiry: Time)

  /** Verify; target is the canonical URI, libraryNow the clock the JWT library reads. */
  function Verify(proof: Proof, httpMethod: string, target: string, token: Token, expected: string, now: Time, libraryNow: Time, window: Duration):
    Option<VerifiedProof>
  {
    if httpMethod == "" || ByteLen(expected) != 43 || window <= 0 || window > MINUTE then None
    else if proof.thumbprint != expected then None
    else if proof.id == "" || ByteLen(proof.id) > 128 || libraryNow < proof.issuedAt then None
    else if proof.httpMethod != UpperForm(httpMethod) || proof.httpUri != target then None
    else if now - proof.issuedAt < -window || now - proof.issuedAt > window then None
    else if proof.accessHash != Sha256(token) then None
    else Some(VerifiedProof(proof.id, proof.thumbprint, proof.issuedAt + window + SECOND))
  }

  // ---- The replay map of the middleware ----

  type Replay = map<string, Time>

  function ReplayKey(thumbprint: Key, id: string): string {
    thumbprint + ":" + id
  }

  lemma ReplayKeyInjective(t: Key, id: string, u: Key, other: string)
    requires ReplayKey(t, id) == ReplayKey(u, other)
    ensures t == u && id == other
  {
    assert t == ReplayKey(t, id)[..43] && u == ReplayKey(u, other)[..43];
    assert id == ReplayKey(t, id)[44..] && other == ReplayKey(u, other)[44..];
  }

  function Live(replay: Replay, now: Time): Replay {
    map k | k in replay && now <= replay[k] :: replay[k]
  }

  function ConsumeProof(replay: Replay, key: string, expiresAt: Time, now: Time): (Replay, bool) {
    if key in replay && now <= replay[key] then (replay, false)
    else
      var kept := if |replay| >= MAX_REPLAY_ENTRIES then Live(replay, now) else replay;
      if |kept| >= MAX_REPLAY_ENTRIES then (kept, false) else (kept[key := expiresAt], true)
  }

  /** One request keeps the cap. */
  lemma ReplayBounded(replay: Replay, key: string, expiresAt: Time, now: Time)
    requires |replay| <= MAX_REPLAY_ENTRIES
    ensures |ConsumeProof(replay, key, expiresAt, now).0| <= MAX_REPLAY_ENTRIES
  {
    var live := Live(replay, now);
    assert live.Keys <= replay.Keys;
    SubsetSize(live.Keys, replay.Keys);
    assert |live| == |live.Keys| && |replay| == |replay.Keys|;
    var kept := if |replay| >= MAX_REPLAY_ENTRIES then live else replay;
    assert kept[key := expiresAt].Keys == kept.Keys + {key};
    assert |kept[key := expiresAt]| == |kept[key := expiresAt].Keys| && |kept| == |kept.Keys|;
  }

  /** A proof whose key holds no live entry is accepted exactly when the live entries leave room. */
  lemma FreshProofAccepted(replay: Replay, key: string, expiresAt: Time, now: Time)
    requires |replay| <= MAX_REPLAY_ENTRIES && key !in Live(replay, now)
    ensures ConsumeProof(replay, key, expiresAt, now).1 <==> |replay| < MAX_REPLAY_ENTRIES || |Live(replay, now)| < MAX_REPLAY_ENTRIES
  {
  }

  // ---- Runs of one verifier ----

  datatype Attempt = Attempt(proof: Proof, httpMethod: string, target: string, token: Token, expected: string, now: Time, libraryNow: Time)

  function Present(replay: Replay, a: Attempt, window: Duration): (Replay, bool) {
    var verified := Verify(a.proof, a.httpMethod, a.target, a.token, a.expected, a.now, a.libraryNow, window);
    if verified.None? then (replay, false)
    else ConsumeProof(replay, ReplayKey(verified.value.thumbprint, verified.value.id), verified.value.replayExpiry, a.now)
  }

  /** The map after a sequence of attempts. */
  function ReplayAfter(attempts: seq<Attempt>, window: Duration): Replay {
    if attempts == [] then map[]
    else Present(ReplayAfter(attempts[..|attempts| - 1], window), attempts[|attempts| - 1], window).0
  }

  /** Whether the attempt at a position is accepted. */
  predicate AcceptedAt(attempts: seq<Attempt>, window: Duration, i: nat)
    requires i < |attempts|
  {
    Present(ReplayAfter(attempts[..i], window), attempts[i], window).1
  }

  /** Each request reads the clock before it takes the lock of the map, so readings may be up to a second late. */
  ghost predicate NearlyInOrder(attempts: seq<Attempt>) {
    forall i, j | 0 <= i < j < |attempts| :: attempts[i].now <= attempts[j].now + SECOND
  }

  function ExpiryOf(proof: Proof, window: Duration): Time {
    proof.issuedAt + window + SECOND
  }

  ghost predicate Remembered(replay: Replay, proof: Proof, window: Duration) {
    var key := ReplayKey(proof.thumbprint, proof.id);
    key in replay && replay[key] == ExpiryOf(proof, window)
  }

  /** Some reading among these lies past the proof's replay expiry. */
  ghost predicate Passed(attempts: seq<Attempt>, expiry: Time) {
    exists k :: 0 <= k < |attempts| && attempts[k].now > expiry
  }

  lemma PresentRemembers(replay: Replay, proof: Proof, b: Attempt, window: Duration)
    requires Remembered(replay, proof, window)
    ensures Remembered(Present(replay, b, window).0, proof, window) || b.now > ExpiryOf(proof, window)
  {
  }

  lemma {:induction false} AcceptedIsRemembered(attempts: seq<Attempt>, window: Duration, i: nat, n: nat)
    requires i < n <= |attempts| && AcceptedAt(attempts, window, i)
    ensures Remembered(ReplayAfter(attempts[..n], window), attempts[i].proof, window)
            || Passed(attempts[..n], ExpiryOf(attempts[i].proof, window))
    decreases n
  {
    var front := attempts[..n - 1];
    assert attempts[..n][..n - 1] == front && attempts[..n][n - 1] == attempts[n - 1];
    if i < n - 1 {
      AcceptedIsRemembered(attempts, window, i, n - 1);
      if Remembered(ReplayAfter(front, window), attempts[i].proof, window) {
        PresentRemembers(ReplayAfter(front, window), attempts[i].proof, attempts[n - 1], window);
      } else {
        var k :| 0 <= k < |front| && front[k].now > ExpiryOf(attempts[i].proof, window);
        assert attempts[..n][k] == front[k];
      }
    }
  }

  /** No proof (key, id, issue time) is accepted twice, even by clock readings that reach the map up to a second
      out of order: the extra second of the replay expiry is what this takes. */
  lemma ProofAcceptedOnce(attempts: seq<Attempt>, window: Duration, i: nat, j: nat)
    requires NearlyInOrder(attempts) && i < j < |attempts|
    requires attempts[i].proof.thumbprint == attempts[j].proof.thumbprint && attempts[i].proof.id == attempts[j].proof.id
    requires attempts[i].proof.issuedAt == attempts[j].proof.issuedAt
    requires AcceptedAt(attempts, window, i)
    ensures !AcceptedAt(attempts, window, j)
  {
    AcceptedIsRemembered(attempts, window, i, j);
    if Passed(attempts[..j], ExpiryOf(attempts[i].proof, window)) {
      var k :| 0 <= k < |attempts[..j]| && attempts[..j][k].now > ExpiryOf(attempts[i].proof, window);
      assert attempts[k].now <= attempts[j].now + SECOND;
    }
  }

  /** The map never outgrows its cap, over any sequence of requests. */
  lemma {:induction false} ReplayStaysBounded(attempts: seq<Attempt>, window: Duration)
    ensures |ReplayAfter(attempts, window)| <= MAX_REPLAY_ENTRIES
  {
    if attempts != [] {
      var front, a := attempts[..|attempts| - 1], attempts[|attempts| - 1];
      ReplayStaysBounded(front, window);
      var verified := Verify(a.proof, a.httpMethod, a.target, a.token, a.expected, a.now, a.libraryNow, window);
      if verified.Some? {
        ReplayBounded(ReplayAfter(front, window), ReplayKey(verified.value.thumbprint, verified.value.id), verified.value.replayExpiry, a.now);
      }
    }
  }

  /** Purging drops only proofs that Verify already refuses, at any reading up to a second earlier. */
  lemma PurgedProofsAreStale(replay: Replay, a: Attempt, window: Duration, now: Time)
    requires Remembered(replay, a.proof, window)
    requires ReplayKey(a.proof.thumbprint, a.proof.id) !in Live(replay, now) && now <= a.now + SECOND
    ensures Verify(a.proof, a.httpMethod, a.target, a.token, a.expected, a.now, a.libraryNow, window).None?
  {
  }
}
