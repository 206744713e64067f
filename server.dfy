/**
 * The bookkeeping of SEvServer: the registry of event stages by name,
 * the set of live connections, and the list of hung-up connections that
 * are still referenced and so wait to be freed.  Deleting a connection
 * is modelled by appending it to the server's `deleted` list.
 */
module Server {
  import opened CText

  /** The parts of an SConnection the server reads and writes. */
  class Connection {
    /** RefCount(): the stages still holding the connection. */
    var refCount: nat
    /** Set by SetState(STATE_CLOSED). */
    var closed: bool
    var socketOpen: bool

    constructor (refs: nat)
      ensures refCount == refs && !closed && socketOpen
    {
      refCount := refs;
      closed := false;
      socketOpen := true;
    }
  }

  predicate NoDuplicates<T(==)>(s: seq<T>) {
    forall i, j :: 0 <= i < j < |s| ==> s[i] != s[j]
  }

  /**
   * The closed connections whose reference count is non-zero (held) or
   * zero (not held), in their order.
   */
  function Marked(cs: seq<Connection>, held: bool): (r: seq<Connection>)
    reads cs
    ensures |r| <= |cs|
    ensures forall k :: 0 <= k < |r| ==> r[k] in cs && (r[k].refCount != 0) == held
    ensures forall k :: 0 <= k < |cs| && (cs[k].refCount != 0) == held ==> cs[k] in r
    decreases |cs|
  {
    if cs == [] then []
    else Marked(cs[..|cs| - 1], held) + (if (cs[|cs| - 1].refCount != 0) == held then [cs[|cs| - 1]] else [])
  }

  /** The last connection joins exactly one of the two parts. */
  lemma {:induction false} MarkedLast(cs: seq<Connection>)
    requires cs != []
    ensures multiset(Marked(cs, true)) + multiset(Marked(cs, false)) ==
      multiset(Marked(cs[..|cs| - 1], true)) + multiset(Marked(cs[..|cs| - 1], false)) + multiset{cs[|cs| - 1]}
  {
    var init, last := cs[..|cs| - 1], cs[|cs| - 1];
    var t, f := Marked(init, true), Marked(init, false);
    if last.refCount != 0 {
      assert Marked(cs, true) == t + [last] && Marked(cs, false) == f;
      assert multiset(t + [last]) == multiset(t) + multiset{last};
    } else {
      assert Marked(cs, true) == t && Marked(cs, false) == f + [last];
      assert multiset(f + [last]) == multiset(f) + multiset{last};
    }
  }

  /** Every closed connection lands in exactly one of the two parts. */
  lemma {:induction false} MarkedSplits(cs: seq<Connection>)
    ensures multiset(Marked(cs, true)) + multiset(Marked(cs, false)) == multiset(cs)
    decreases |cs|
  {
    if cs != [] {
      var init, last := cs[..|cs| - 1], cs[|cs| - 1];
      assert multiset(cs) == multiset(init) + multiset{last} by {
        assert cs == init + [last];
      }
      MarkedSplits(init);
      MarkedLast(cs);
    }
  }

  /** Filtering keeps a list free of repeats. */
  lemma {:induction false} MarkedDistinct(cs: seq<Connection>, held: bool)
    requires NoDuplicates(cs)
    ensures NoDuplicates(Marked(cs, held))
    decreases |cs|
  {
    if cs != [] {
      var init := cs[..|cs| - 1];
      assert NoDuplicates(init);
      MarkedDistinct(init, held);
      var last := cs[|cs| - 1];
      if (last.refCount != 0) == held {
        var r := Marked(init, held) + [last];
        forall i, j | 0 <= i < j < |r| ensures r[i] != r[j] {
          if j == |r| - 1 {
            assert r[i] in init;
            var k :| 0 <= k < |init| && init[k] == r[i];
            assert cs[k] == init[k];
          }
        }
      }
    }
  }

  class EvServer<S> {
    /** eventStages: stage by name. */
    var eventStages: map<string, S>
    /** connections: the live connections. */
    var connections: set<Connection>
    /** closedConnections: hung up but still referenced. */
    var closedConnections: seq<Connection>
    /** The connections deleted so far, in order. */
    var deleted: seq<Connection>

    /**
     * A live connection is not deleted; a waiting closed connection is
     * closed, not deleted, not live, and listed once.
     */
    ghost predicate Valid()
      reads this, closedConnections
    {
      (forall k :: 0 <= k < |deleted| ==> deleted[k] !in connections) &&
      (forall k :: 0 <= k < |closedConnections| ==>
        closedConnections[k].closed && closedConnections[k] !in deleted &&
        closedConnections[k] !in connections) &&
      NoDuplicates(closedConnections)
    }

    constructor ()
      ensures Valid() && eventStages == map[] && connections == {}
      ensures closedConnections == [] && deleted == []
    {
      eventStages := map[];
      connections := {};
      closedConnections := [];
      deleted := [];
    }

    /** SetStage(name, stage): registers the stage, replacing any stage of that name. */
    method SetStage(name: string, stage: S)
      modifies this
      ensures eventStages == old(eventStages)[name := stage]
      ensures connections == old(connections) && closedConnections == old(closedConnections)
      ensures deleted == old(deleted)
    {
      if name !in eventStages {
        eventStages := eventStages[name := stage];
      } else {
        eventStages := eventStages[name := stage];
      }
    }

    /** GetStage(name): the stage registered under name, or NULL. */
    method GetStage(name: string) returns (stage: Option<S>)
      ensures stage == StageOf(eventStages, name)
    {
      if name !in eventStages {
        return None;
      }
      return Some(eventStages[name]);
    }

    /** ConnectionComplete: a live connection leaves the set and is deleted; any other is left alone. */
    method ConnectionComplete(c: Connection)
      requires Valid()
      modifies this
      ensures Valid()
      ensures connections == old(connections) - {c}
      ensures deleted == old(deleted) + (if c in old(connections) then [c] else [])
      ensures eventStages == old(eventStages) && closedConnections == old(closedConnections)
    {
      if c in connections {
        connections := connections - {c};
        deleted := deleted + [c];
      }
    }

    /**
     * The hang-up branch of the event loop: the connection is marked
     * CLOSED, leaves the live set and has its socket closed; it is
     * deleted at once when nothing references it, else it waits in
     * closedConnections.
     */
    method HangUp(c: Connection)
      requires Valid() && c in connections
      modifies this, c
      ensures Valid()
      ensures c.closed && !c.socketOpen && c.refCount == old(c.refCount)
      ensures connections == old(connections) - {c}
      ensures old(c.refCount) == 0 ==>
        deleted == old(deleted) + [c] && closedConnections == old(closedConnections)
      ensures old(c.refCount) != 0 ==>
        deleted == old(deleted) && closedConnections == old(closedConnections) + [c]
      ensures eventStages == old(eventStages)
    {
      c.closed := true;
      connections := connections - {c};
      c.socketOpen := false;
      if c.refCount == 0 {
        deleted := deleted + [c];
      } else {
        closedConnections := closedConnections + [c];
      }
    }

    /**
     * CloseMarkedConnections: deletes every waiting connection whose count
     * has reached 0 and keeps the others, both in their order.
     */
    method CloseMarkedConnections()
      requires Valid()
      modifies this
      ensures Valid()
      ensures closedConnections == old(Marked(closedConnections, true))
      ensures deleted == old(deleted) + old(Marked(closedConnections, false))
      ensures connections == old(connections) && eventStages == old(eventStages)
    {
      var waiting := closedConnections;
      var kept, dropped := Sweep(waiting);
      MarkedDistinct(waiting, true);
      forall k | 0 <= k < |dropped| ensures dropped[k] in waiting && dropped[k] !in connections {
      }
      forall k | 0 <= k < |kept|
        ensures kept[k].closed && kept[k] !in deleted && kept[k] !in dropped && kept[k] !in connections
      {
        assert kept[k] in waiting;
      }
      deleted := deleted + dropped;
      closedConnections := kept;
    }
  }

  /**
   * The loop of CloseMarkedConnections: walks the waiting connections in
   * order, keeping the referenced ones and collecting the others for
   * deletion.
   */
  method Sweep(waiting: seq<Connection>) returns (kept: seq<Connection>, dropped: seq<Connection>)
    ensures kept == Marked(waiting, true) && dropped == Marked(waiting, false)
  {
    kept, dropped := [], [];
    var i := 0;
    while i < |waiting|
      invariant 0 <= i <= |waiting|
      invariant kept == Marked(waiting[..i], true)
      invariant dropped == Marked(waiting[..i], false)
      decreases |waiting| - i
    {
      var c := waiting[i];
      assert waiting[..i + 1][..i] == waiting[..i];
      if c.refCount == 0 {
        dropped := dropped + [c];
      } else {
        kept := kept + [c];
      }
      i := i + 1;
    }
    assert waiting[..i] == waiting;
  }

  /** What GetStage returns: the registered stage, or NULL. */
  function StageOf<S>(stages: map<string, S>, name: string): Option<S> {
    if name in stages then Some(stages[name]) else None
  }

  /** After SetStage(name, s), GetStage(name) is s and every other name reads as before. */
  lemma {:induction false} SetStageThenGet<S>(stages: map<string, S>, name: string, stage: S, other: string)
    ensures StageOf(stages[name := stage], name) == Some(stage)
    ensures other != name ==> StageOf(stages[name := stage], other) == StageOf(stages, other)
  {
  }
}
