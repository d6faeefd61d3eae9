/** The lease table as a forest, and the recursive queries over it. */
module Lineage {
  import opened Wrappers
  import opened Domain

  type Leases = map<Id, Lease>

  /** What a row says about its place: the checks at issuance make every stored row satisfy it. */
  ghost predicate Placed(leases: Leases, l: Lease) {
    && 0 <= l.depth <= l.maxDepth <= 16
    && match l.parent
       case None => l.depth == 0 && l.rootLease == l.id && l.rootWorkload == l.workload
       case Some(p) =>
         && p in leases && l.depth == leases[p].depth + 1 && l.maxDepth <= leases[p].maxDepth
         && l.rootLease == leases[p].rootLease && l.rootWorkload == leases[p].rootWorkload
  }

  ghost predicate Forest(leases: Leases) {
    && (forall id | id in leases :: leases[id].id == id && leases[id].depth >= 0)
    && (forall id {:trigger Placed(leases, leases[id])} | id in leases :: Placed(leases, leases[id]))
  }

  /** The lineage of a lease found by walking up, root first. */
  ghost function Chain(leases: Leases, id: Id): (chain: seq<Id>)
    requires Forest(leases) && id in leases
    ensures |chain| >= 1 && chain[|chain| - 1] == id
    decreases leases[id].depth
  {
    assert Placed(leases, leases[id]);
    match leases[id].parent
    case None => [id]
    case Some(p) => Chain(leases, p) + [id]
  }

  /** The chain has one lease per depth, from root_lease_id down, all with one root and one root workload,
      and the depth ceiling never rises on the way down. */
  lemma {:induction false} ChainShape(leases: Leases, id: Id)
    requires Forest(leases) && id in leases
    ensures var chain := Chain(leases, id);
            && |chain| == leases[id].depth + 1 && chain[0] == leases[id].rootLease
            && (forall i | 0 <= i < |chain| ::
                  && chain[i] in leases && leases[chain[i]].depth == i
                  && leases[chain[i]].rootLease == leases[id].rootLease
                  && leases[chain[i]].rootWorkload == leases[id].rootWorkload
                  && leases[chain[i]].maxDepth >= leases[id].maxDepth)
            && leases[chain[0]].parent.None?
            && (forall i | 0 < i < |chain| :: leases[chain[i]].parent == Some(chain[i - 1]))
    decreases leases[id].depth
  {
    assert Placed(leases, leases[id]);
    if leases[id].parent.Some? {
      var p := leases[id].parent.value;
      assert Placed(leases, leases[p]);
      ChainShape(leases, p);
    }
  }

  /** A lease has at most 17 leases in its lineage. */
  lemma ChainBounded(leases: Leases, id: Id)
    requires Forest(leases) && id in leases
    ensures |Chain(leases, id)| <= 17
  {
    ChainShape(leases, id);
    assert Placed(leases, leases[id]);
  }

  /** Ancestors of ancestors are ancestors. */
  lemma {:induction false} ChainTransitive(leases: Leases, id: Id, a: Id)
    requires Forest(leases) && id in leases && a in Chain(leases, id)
    ensures a in leases && Chain(leases, a) <= Chain(leases, id)
    decreases leases[id].depth
  {
    assert Placed(leases, leases[id]);
    if a != id {
      assert leases[id].parent.Some?;
      ChainTransitive(leases, leases[id].parent.value, a);
    }
  }

  /** The same parent links give the same chains. */
  lemma {:induction false} ChainStable(leases: Leases, more: Leases, id: Id)
    requires Forest(leases) && Forest(more) && id in leases
    requires forall k | k in leases :: k in more && more[k].parent == leases[k].parent
    ensures Chain(more, id) == Chain(leases, id)
    decreases leases[id].depth
  {
    assert Placed(leases, leases[id]);
    if leases[id].parent.Some? {
      ChainStable(leases, more, leases[id].parent.value);
    }
  }

  ghost predicate Under(leases: Leases, id: Id, seeds: set<Id>)
    requires Forest(leases) && id in leases
  {
    exists a | a in Chain(leases, id) :: a in seeds
  }

  /** Descendants-or-self of the seeds: what the recursive common table expressions select. */
  ghost function Affected(leases: Leases, seeds: set<Id>): set<Id>
    requires Forest(leases)
  {
    set id | id in leases && Under(leases, id, seeds)
  }

  lemma AffectedChild(leases: Leases, seeds: set<Id>, id: Id)
    requires Forest(leases) && id in leases
    ensures id in Affected(leases, seeds)
            <==> id in seeds || (leases[id].parent.Some? && leases[id].parent.value in Affected(leases, seeds))
  {
    assert Placed(leases, leases[id]);
    if leases[id].parent.Some? {
      var p := leases[id].parent.value;
      assert forall a :: a in Chain(leases, id) <==> a in Chain(leases, p) || a == id;
    }
  }

  /** A set that holds the seeds and the children of its members holds every affected lease. */
  lemma {:induction false} ClosedSetHoldsAffected(leases: Leases, seeds: set<Id>, closed: set<Id>, id: Id)
    requires Forest(leases) && id in leases && id in Affected(leases, seeds)
    requires forall k | k in leases && k in seeds :: k in closed
    requires forall k | k in leases && leases[k].parent.Some? && leases[k].parent.value in closed :: k in closed
    ensures id in closed
    decreases leases[id].depth
  {
    AffectedChild(leases, seeds, id);
    assert Placed(leases, leases[id]);
    if id !in seeds {
      ClosedSetHoldsAffected(leases, seeds, closed, leases[id].parent.value);
    }
  }

  /** UPDATE leases SET revoked_at = at WHERE id IN ids AND revoked_at IS NULL */
  function MarkRevoked(leases: Leases, ids: set<Id>, at: int): Leases {
    map id | id in leases :: if id in ids && leases[id].revokedAt.None? then leases[id].(revokedAt := Some(at)) else leases[id]
  }

  lemma MarkingKeepsForest(leases: Leases, ids: set<Id>, at: int)
    requires Forest(leases)
    ensures Forest(MarkRevoked(leases, ids, at))
  {
    var marked := MarkRevoked(leases, ids, at);
    forall id | id in marked ensures Placed(marked, marked[id]) {
      assert Placed(leases, leases[id]);
    }
  }

  function Unrevoked(leases: Leases, ids: set<Id>): set<Id> {
    set id | id in ids && id in leases && leases[id].revokedAt.None?
  }

  // ---- The queries, as the database runs them ----

  /** The working-table evaluation of the recursive query: each round adds the children of the last round. */
  method AffectedQuery(leases: Leases, seeds: set<Id>) returns (affected: set<Id>)
    requires Forest(leases)
    ensures affected == Affected(leases, seeds)
  {
    affected := set id | id in leases && id in seeds;
    var frontier := affected;
    forall id | id in affected ensures id in Affected(leases, seeds) {
      AffectedChild(leases, seeds, id);
    }
    while frontier != {}
      invariant frontier <= affected <= Affected(leases, seeds)
      invariant forall id | id in leases && id in seeds :: id in affected
      invariant forall id | id in leases && leases[id].parent.Some? && leases[id].parent.value in affected - frontier :: id in affected
      decreases leases.Keys - affected, |frontier|
    {
      var next := set id | id in leases && id !in affected && leases[id].parent.Some? && leases[id].parent.value in frontier;
      forall id | id in next ensures id in Affected(leases, seeds) {
        AffectedChild(leases, seeds, id);
      }
      if next != {} {
        var one :| one in next;
        assert one in leases.Keys - affected && one !in leases.Keys - (affected + next);
      }
      affected := affected + next;
      frontier := next;
    }
    forall id | id in Affected(leases, seeds) ensures id in affected {
      ClosedSetHoldsAffected(leases, seeds, affected, id);
    }
  }

  /** The root found by lockLineage. */
  method RootQuery(leases: Leases, id: Id) returns (root: Option<Id>)
    requires Forest(leases)
    ensures root == if id in leases then Some(leases[id].rootLease) else None
  {
    if id !in leases {
      return None;
    }
    var current := id;
    assert Placed(leases, leases[id]);
    while leases[current].parent.Some?
      invariant current in leases && Placed(leases, leases[current])
      invariant leases[current].rootLease == leases[id].rootLease
      decreases leases[current].depth
    {
      current := leases[current].parent.value;
      assert Placed(leases, leases[current]);
    }
    root := Some(current);
  }

  /** TraceLease: climbing yields the rows deepest first, so each goes in front to order them by depth. */
  method TraceQuery(leases: Leases, id: Id) returns (r: Result<seq<Lease>, DomainError>)
    requires Forest(leases)
    ensures r == if id in leases then Ok(Trace(leases, id)) else Err(LeaseNotFound)
  {
    if id !in leases {
      return Err(LeaseNotFound);
    }
    var current := id;
    var lineage := [leases[id]];
    while leases[current].parent.Some?
      invariant current in leases
      invariant Trace(leases, id) == TraceAbove(leases, current) + lineage
      decreases leases[current].depth
    {
      assert Placed(leases, leases[current]);
      current := leases[current].parent.value;
      lineage := [leases[current]] + lineage;
    }
    assert TraceAbove(leases, current) + lineage == lineage;
    r := Ok(lineage);
  }

  ghost function Trace(leases: Leases, id: Id): seq<Lease>
    requires Forest(leases) && id in leases
    decreases leases[id].depth, 1
  {
    TraceAbove(leases, id) + [leases[id]]
  }

  ghost function TraceAbove(leases: Leases, id: Id): seq<Lease>
    requires Forest(leases) && id in leases
    decreases leases[id].depth, 0
  {
    assert Placed(leases, leases[id]);
    match leases[id].parent case None => [] case Some(p) => Trace(leases, p)
  }

  /** A trace has exactly depth + 1 rows, at depths 0 to depth, from the row root_lease_id names to the lease
      itself, each row the parent of the next. */
  lemma {:induction false} TraceShape(leases: Leases, id: Id)
    requires Forest(leases) && id in leases
    ensures var rows := Trace(leases, id);
            && |rows| == leases[id].depth + 1 && rows[0].id == leases[id].rootLease && rows[leases[id].depth] == leases[id]
            && (forall i | 0 <= i < |rows| :: rows[i].depth == i && rows[i].id in leases && leases[rows[i].id] == rows[i])
            && (forall i | 0 < i < |rows| :: rows[i].parent == Some(rows[i - 1].id))
    decreases leases[id].depth
  {
    assert Placed(leases, leases[id]);
    if leases[id].parent.Some? {
      TraceShape(leases, leases[id].parent.value);
    }
  }
}
