/**
 * SListenerManager: an ordered list of listeners without repeats.
 * AddListener appends a listener that is not already there;
 * RemoveListener removes it (list::remove drops every equal element);
 * Count is the list's length.
 */
module Listeners {

  /** The list with every element equal to x dropped, in order (std::list::remove). */
  function Without<L(==)>(s: seq<L>, x: L): seq<L>
    decreases |s|
  {
    if s == [] then []
    else if s[|s| - 1] == x then Without(s[..|s| - 1], x)
    else Without(s[..|s| - 1], x) + [s[|s| - 1]]
  }

  predicate NoDuplicates<L(==)>(s: seq<L>) {
    forall i, j :: 0 <= i < j < |s| ==> s[i] != s[j]
  }

  /** The last element of a list without repeats is not among the others. */
  lemma {:induction false} LastIsNew<L>(s: seq<L>)
    requires s != [] && NoDuplicates(s)
    ensures NoDuplicates(s[..|s| - 1]) && s[|s| - 1] !in s[..|s| - 1]
  {
    var init := s[..|s| - 1];
    forall k | 0 <= k < |init| ensures init[k] != s[|s| - 1] {
      assert init[k] == s[k];
    }
  }

  /** RemoveListener's result holds exactly the other listeners. */
  lemma {:induction false} WithoutMembers<L>(s: seq<L>, x: L)
    ensures forall y :: y in Without(s, x) <==> y in s && y != x
    decreases |s|
  {
    if s != [] {
      var init := s[..|s| - 1];
      WithoutMembers(init, x);
      assert s == init + [s[|s| - 1]];
    }
  }

  /** Removing an absent listener leaves the list as it was. */
  lemma {:induction false} WithoutAbsent<L>(s: seq<L>, x: L)
    requires x !in s
    ensures Without(s, x) == s
    decreases |s|
  {
    if s != [] {
      var init := s[..|s| - 1];
      assert s == init + [s[|s| - 1]];
      WithoutAbsent(init, x);
    }
  }

  /** Removing from a list without repeats keeps it without repeats, and removes one element when present. */
  lemma {:induction false} WithoutDistinct<L>(s: seq<L>, x: L)
    requires NoDuplicates(s)
    ensures NoDuplicates(Without(s, x))
    ensures |Without(s, x)| == if x in s then |s| - 1 else |s|
    decreases |s|
  {
    if s != [] {
      var init := s[..|s| - 1];
      var last := s[|s| - 1];
      LastIsNew(s);
      assert s == init + [last];
      WithoutDistinct(init, x);
      if last == x {
        WithoutAbsent(init, x);
      } else {
        WithoutMembers(init, x);
        var r := Without(init, x) + [last];
        forall i, j | 0 <= i < j < |r| ensures r[i] != r[j] {
          if j == |r| - 1 {
            assert r[i] in Without(init, x);
          }
        }
      }
    }
  }

  /** The list AddListener leaves. */
  function Added<L(==)>(s: seq<L>, x: L): seq<L> {
    if x in s then s else s + [x]
  }

  /** AddListener keeps the list free of repeats and adds the listener. */
  lemma {:induction false} AddedDistinct<L>(s: seq<L>, x: L)
    requires NoDuplicates(s)
    ensures NoDuplicates(Added(s, x))
    ensures forall y :: y in Added(s, x) <==> y in s || y == x
    ensures |Added(s, x)| == if x in s then |s| else |s| + 1
  {
    if x !in s {
      var r := s + [x];
      forall i, j | 0 <= i < j < |r| ensures r[i] != r[j] {
        if j == |s| {
          assert r[i] == s[i];
        }
      }
    }
  }

  /** An add (true) or remove (false) of a listener. */
  type Op<L> = (bool, L)

  /** The list after the operations, from an empty manager. */
  function Replay<L(==)>(ops: seq<Op<L>>): seq<L>
    decreases |ops|
  {
    if ops == [] then []
    else
      var prior := Replay(ops[..|ops| - 1]);
      var op := ops[|ops| - 1];
      if op.0 then Added(prior, op.1) else Without(prior, op.1)
  }

  /** The listeners added and not removed since, as a set. */
  ghost function Live<L>(ops: seq<Op<L>>): set<L>
    decreases |ops|
  {
    if ops == [] then {}
    else
      var prior := Live(ops[..|ops| - 1]);
      var op := ops[|ops| - 1];
      if op.0 then prior + {op.1} else prior - {op.1}
  }

  /**
   * After any adds and removes the list has no repeats, holds exactly the
   * listeners added and not removed since, and Count is their number.
   */
  lemma {:induction false} ReplayMatchesLive<L>(ops: seq<Op<L>>)
    ensures NoDuplicates(Replay(ops))
    ensures forall y :: y in Replay(ops) <==> y in Live(ops)
    ensures |Replay(ops)| == |Live(ops)|
    decreases |ops|
  {
    if ops != [] {
      var prior := ops[..|ops| - 1];
      ReplayMatchesLive(prior);
      var op := ops[|ops| - 1];
      var before := Replay(prior);
      if op.0 {
        AddedDistinct(before, op.1);
        if op.1 in before {
          assert Live(ops) == Live(prior);
        } else {
          assert |Live(prior) + {op.1}| == |Live(prior)| + 1;
        }
      } else {
        WithoutDistinct(before, op.1);
        WithoutMembers(before, op.1);
        if op.1 in before {
          assert |Live(prior) - {op.1}| == |Live(prior)| - 1;
        } else {
          assert Live(ops) == Live(prior);
        }
      }
    }
  }

  class ListenerManager<L(==)> {
    /** listeners */
    var listeners: seq<L>

    constructor ()
      ensures listeners == []
    {
      listeners := [];
    }

    /** std::find: whether x is in the list, by a scan from the front. */
    method Find(x: L) returns (found: bool)
      ensures found <==> x in listeners
    {
      var i := 0;
      while i < |listeners|
        invariant 0 <= i <= |listeners|
        invariant x !in listeners[..i]
        decreases |listeners| - i
      {
        if listeners[i] == x {
          return true;
        }
        assert listeners[..i + 1] == listeners[..i] + [listeners[i]];
        i := i + 1;
      }
      assert listeners[..i] == listeners;
      return false;
    }

    /** AddListener: append unless already present. */
    method AddListener(x: L)
      modifies this
      ensures listeners == Added(old(listeners), x)
    {
      var found := Find(x);
      if found {
        return;
      }
      listeners := listeners + [x];
    }

    /** RemoveListener: nothing if absent, else drop every element equal to it. */
    method RemoveListener(x: L)
      modifies this
      ensures listeners == Without(old(listeners), x)
    {
      var found := Find(x);
      if !found {
        WithoutAbsent(listeners, x);
        return;
      }
      var kept: seq<L> := [];
      var i := 0;
      while i < |listeners|
        invariant 0 <= i <= |listeners|
        invariant kept == Without(listeners[..i], x)
        decreases |listeners| - i
      {
        assert listeners[..i + 1][..i] == listeners[..i];
        if listeners[i] != x {
          kept := kept + [listeners[i]];
        }
        i := i + 1;
      }
      assert listeners[..i] == listeners;
      listeners := kept;
    }

    /** Count: the number of listeners. */
    method Count() returns (n: int)
      ensures n == |listeners|
    {
      n := |listeners|;
    }
  }
}
