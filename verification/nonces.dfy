/** Signed-request nonces: how often one signed request can be accepted. */
module Nonces {
  import opened Wrappers
  import opened Attenuation
  import opened Domain
  import opened Transactions
  import opened Usecase

  datatype Event =
    | Attempt(workload: Id, timestamp: Time, nonce: string, signer: Key, clock: Time, databaseNow: Time)
    | Other(after: Store)

  ghost function Happen(config: Config, s: Store, e: Event): Store {
    match e
    case Attempt(w, timestamp, nonce, signer, clock, now) => Authenticate(config, s, w, timestamp, nonce, signer, clock, now).0
    case Other(after) => if after.nonces == s.nonces then after else s
  }

  ghost predicate Accepted(config: Config, s: Store, e: Event) {
    e.Attempt? && Authenticate(config, s, e.workload, e.timestamp, e.nonce, e.signer, e.clock, e.databaseNow).1.Ok?
  }

  /** A run: tables before and after each event; the database clock does not run backwards. */
  ghost predicate Run(config: Config, stores: seq<Store>, events: seq<Event>) {
    && |stores| == |events| + 1
    && (forall i | 0 <= i < |events| :: stores[i + 1] == Happen(config, stores[i], events[i]))
    && (forall i, j | 0 <= i < j < |events| && events[i].Attempt? && events[j].Attempt? :: events[i].databaseNow <= events[j].databaseNow)
  }

  lemma AcceptedIsRecorded(config: Config, s: Store, e: Event)
    requires Accepted(config, s, e)
    ensures var key := (e.workload, e.nonce);
            key in Happen(config, s, e).nonces && Happen(config, s, e).nonces[key] == e.timestamp + config.requestWindow
  {
  }

  /** Until a row expires no request can replace it, whatever reuses its nonce. */
  lemma RowStays(config: Config, s: Store, e: Event, key: (Id, string), expiry: Time)
    requires key in s.nonces && s.nonces[key] == expiry
    requires e.Attempt? ==> e.databaseNow < expiry
    ensures key in Happen(config, s, e).nonces && Happen(config, s, e).nonces[key] == expiry
  {
  }

  lemma {:induction false} RowStaysAlong(config: Config, stores: seq<Store>, events: seq<Event>, i: nat, j: nat)
    requires Run(config, stores, events) && i < j < |events|
    requires Accepted(config, stores[i], events[i]) && events[j].Attempt?
    requires events[j].databaseNow < events[i].timestamp + config.requestWindow
    ensures var key := (events[i].workload, events[i].nonce);
            forall n | i < n <= j :: key in stores[n].nonces && stores[n].nonces[key] == events[i].timestamp + config.requestWindow
  {
    var key, expiry := (events[i].workload, events[i].nonce), events[i].timestamp + config.requestWindow;
    AcceptedIsRecorded(config, stores[i], events[i]);
    var n := i + 1;
    while n < j
      invariant i < n <= j
      invariant forall m | i < m <= n :: key in stores[m].nonces && stores[m].nonces[key] == expiry
    {
      RowStays(config, stores[n], events[n], key, expiry);
      n := n + 1;
    }
  }

  /** Once a request is accepted, no request with its workload and nonce is accepted before the end of its window:
      in particular the same (workload, nonce, timestamp) is accepted at most once among attempts made before then. */
  lemma NonceAcceptedOnce(config: Config, stores: seq<Store>, events: seq<Event>, i: nat, j: nat)
    requires Run(config, stores, events) && i < j < |events|
    requires Accepted(config, stores[i], events[i]) && events[j].Attempt?
    requires events[j].workload == events[i].workload && events[j].nonce == events[i].nonce
    requires events[j].databaseNow < events[i].timestamp + config.requestWindow
    ensures !Accepted(config, stores[j], events[j])
  {
    RowStaysAlong(config, stores, events, i, j);
  }

  // ---- Over a run, exactly ----

  /** Everything AuthenticateWorkload asks for besides a nonce row that does not stand in the way. */
  ghost predicate OtherwiseFine(config: Config, s: Store, e: Event) {
    && e.Attempt? && e.workload != "" && e.timestamp != 0 && NonceOk(e.nonce) && InWindow(e.timestamp, e.clock, config.requestWindow)
    && e.workload in s.workloads && s.workloads[e.workload].disabledAt.None?
    && Accepts(s.workloads[e.workload], e.signer, WholeSecond(e.clock))
  }

  lemma AcceptedExactly(config: Config, s: Store, e: Event)
    requires e.Attempt?
    ensures Accepted(config, s, e)
            <==> OtherwiseFine(config, s, e)
                 && ((e.workload, e.nonce) in s.nonces ==> s.nonces[(e.workload, e.nonce)] <= e.databaseNow)
  {
  }

  function ExpiryOf(config: Config, e: Event): Time
    requires e.Attempt?
  {
    e.timestamp + config.requestWindow
  }

  /** The event is an accepted request with this workload and nonce. */
  ghost predicate Uses(config: Config, s: Store, e: Event, key: (Id, string)) {
    e.Attempt? && (e.workload, e.nonce) == key && Accepted(config, s, e)
  }

  /** By some request among these the database clock had reached a moment. */
  ghost predicate Reached(events: seq<Event>, i: nat, n: nat, moment: Time)
    requires n <= |events|
  {
    exists m :: i <= m < n && events[m].Attempt? && moment <= events[m].databaseNow
  }

  /** The row of a nonce is the one of an accepted request, and those of all the others had expired by then. */
  ghost predicate Recorded(config: Config, stores: seq<Store>, events: seq<Event>, i: nat, n: nat, key: (Id, string))
    requires i < n <= |events| && |stores| == |events| + 1
  {
    && key in stores[n].nonces
    && (exists k :: i <= k < n && Uses(config, stores[k], events[k], key) && stores[n].nonces[key] == ExpiryOf(config, events[k]))
    && (forall k | i <= k < n && Uses(config, stores[k], events[k], key) ::
          stores[n].nonces[key] == ExpiryOf(config, events[k]) || Reached(events, i, n, ExpiryOf(config, events[k])))
  }

  lemma RecordedNext(config: Config, stores: seq<Store>, events: seq<Event>, i: nat, n: nat, key: (Id, string))
    requires Run(config, stores, events) && i < n < |events| && Recorded(config, stores, events, i, n, key)
    ensures Recorded(config, stores, events, i, n + 1, key)
  {
    var s, e := stores[n], events[n];
    if Uses(config, s, e, key) {
      AcceptedIsRecorded(config, s, e);
      AcceptedExactly(config, s, e);
      forall k | i <= k < n + 1 && Uses(config, stores[k], events[k], key)
        ensures stores[n + 1].nonces[key] == ExpiryOf(config, events[k]) || Reached(events, i, n + 1, ExpiryOf(config, events[k]))
      {
        if k < n {
          ReachedLater(events, i, n, ExpiryOf(config, events[k]));
        }
      }
    } else {
      RowUntouched(config, s, e, key);
      forall k | i <= k < n + 1 && Uses(config, stores[k], events[k], key)
        ensures stores[n + 1].nonces[key] == ExpiryOf(config, events[k]) || Reached(events, i, n + 1, ExpiryOf(config, events[k]))
      {
        ReachedLater(events, i, n, ExpiryOf(config, events[k]));
      }
      var k :| i <= k < n && Uses(config, stores[k], events[k], key) && stores[n].nonces[key] == ExpiryOf(config, events[k]);
      assert i <= k < n + 1;
    }
  }

  lemma ReachedLater(events: seq<Event>, i: nat, n: nat, moment: Time)
    requires n < |events|
    ensures Reached(events, i, n, moment) ==> Reached(events, i, n + 1, moment)
  {
    if Reached(events, i, n, moment) {
      var m :| i <= m < n && events[m].Attempt? && moment <= events[m].databaseNow;
      assert m < n + 1;
    }
  }

  lemma RowUntouched(config: Config, s: Store, e: Event, key: (Id, string))
    requires key in s.nonces && !Uses(config, s, e, key)
    ensures key in Happen(config, s, e).nonces && Happen(config, s, e).nonces[key] == s.nonces[key]
  {
  }

  lemma {:induction false} RecordedAlong(config: Config, stores: seq<Store>, events: seq<Event>, i: nat, n: nat, key: (Id, string))
    requires Run(config, stores, events) && i < n <= |events| && Uses(config, stores[i], events[i], key)
    ensures Recorded(config, stores, events, i, n, key)
    decreases n
  {
    if n == i + 1 {
      AcceptedIsRecorded(config, stores[i], events[i]);
    } else {
      RecordedAlong(config, stores, events, i, n - 1, key);
      RecordedNext(config, stores, events, i, n - 1, key);
    }
  }

  /** Over any run, once a request is accepted, a later one with its workload and nonce is accepted exactly when it is
      fine on its own and every request accepted with that workload and nonce in between, the first included, has
      reached the end of its window: also when others reused the nonce. */
  lemma ReplayOverRunExactly(config: Config, stores: seq<Store>, events: seq<Event>, i: nat, j: nat)
    requires Run(config, stores, events) && i < j < |events| && events[i].Attempt? && events[j].Attempt?
    requires Accepted(config, stores[i], events[i])
    requires events[j].workload == events[i].workload && events[j].nonce == events[i].nonce
    ensures var key := (events[j].workload, events[j].nonce);
            Accepted(config, stores[j], events[j])
            <==> OtherwiseFine(config, stores[j], events[j])
                 && forall k | i <= k < j && Uses(config, stores[k], events[k], key) :: ExpiryOf(config, events[k]) <= events[j].databaseNow
  {
    var key := (events[j].workload, events[j].nonce);
    RecordedAlong(config, stores, events, i, j, key);
    AcceptedExactly(config, stores[j], events[j]);
    if stores[j].nonces[key] <= events[j].databaseNow {
      forall k | i <= k < j && Uses(config, stores[k], events[k], key) ensures ExpiryOf(config, events[k]) <= events[j].databaseNow {
        if Reached(events, i, j, ExpiryOf(config, events[k])) {
          var m :| i <= m < j && events[m].Attempt? && ExpiryOf(config, events[k]) <= events[m].databaseNow;
        }
      }
    }
  }

  /** So the same signed request, timestamp and all, is accepted again only between the end of its window on the
      database's clock and the end of the last truncated second on the use case's. */
  lemma ReplayOnlyInLastSecond(config: Config, stores: seq<Store>, events: seq<Event>, i: nat, j: nat)
    requires Run(config, stores, events) && i < j < |events| && events[i].Attempt? && events[j].Attempt?
    requires Accepted(config, stores[i], events[i]) && Accepted(config, stores[j], events[j])
    requires events[j].workload == events[i].workload && events[j].nonce == events[i].nonce && events[j].timestamp == events[i].timestamp
    ensures events[i].timestamp + config.requestWindow <= events[j].databaseNow
    ensures events[j].clock < events[i].timestamp + config.requestWindow + SECOND
  {
    ReplayOverRunExactly(config, stores, events, i, j);
    assert Uses(config, stores[i], events[i], (events[j].workload, events[j].nonce));
  }

  /** An immediate replay of an accepted request is accepted exactly when the row has expired while the window,
      measured in whole seconds, is still open and the key is still good. */
  lemma ReplayExactly(config: Config, s: Store, e: Event, clock: Time, databaseNow: Time)
    requires Accepted(config, s, e)
    ensures var replay := e.(clock := clock, databaseNow := databaseNow);
            Accepted(config, Happen(config, s, e), replay)
            <==> databaseNow >= e.timestamp + config.requestWindow && InWindow(e.timestamp, clock, config.requestWindow)
                 && Accepts(s.workloads[e.workload], e.signer, WholeSecond(clock))
  {
  }

  /** For whole-second timestamps and windows that leaves exactly one second. */
  lemma WindowOutlivesRowByOneSecond(timestamp: Time, window: Duration, clock: Time)
    requires timestamp % SECOND == 0 && window % SECOND == 0 && window > 0 && clock >= timestamp + window
    ensures InWindow(timestamp, clock, window) <==> clock < timestamp + window + SECOND
  {
    var d, t, w := clock - (timestamp + window), timestamp / SECOND, window / SECOND;
    assert timestamp == t * SECOND && window == w * SECOND;
    assert clock == (t + w + d / SECOND) * SECOND + d % SECOND;
    assert WholeSecond(clock) == (t + w + d / SECOND) * SECOND;
  }

  /** A concrete case: half a second after the window, the same signed request is accepted a second time. */
  lemma LastSecondReplay(config: Config, s: Store, e: Event)
    requires Accepted(config, s, e) && config.requestWindow == 30 * SECOND && e.timestamp % SECOND == 0
    requires s.workloads[e.workload].publicKey == e.signer
    ensures var late := e.timestamp + 30 * SECOND + SECOND / 2;
            Accepted(config, Happen(config, s, e), e.(clock := late, databaseNow := late))
  {
    var late := e.timestamp + 30 * SECOND + SECOND / 2;
    WindowOutlivesRowByOneSecond(e.timestamp, config.requestWindow, late);
    ReplayExactly(config, s, e, late, late);
  }
}
