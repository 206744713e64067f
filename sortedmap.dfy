/**
 * Maps keyed by std::string as std::map keeps them: a sequence of entries in
 * strictly ascending byte-wise key order.  Iterating a std::map visits the
 * entries in this order.  The JSON object node, the header table and the
 * file module's document roots use this view.
 */
module SortedMap {
  import opened CText

  /** The entries are in strictly ascending key order, so every key occurs once. */
  predicate Ordered<V>(e: seq<(string, V)>) {
    forall i, j :: 0 <= i < j < |e| ==> StrLess(e[i].0, e[j].0)
  }

  /** The keys of the entries. */
  function Keys<V>(e: seq<(string, V)>): (r: set<string>)
    ensures forall i :: 0 <= i < |e| ==> e[i].0 in r
    ensures forall k :: k in r ==> exists i :: 0 <= i < |e| && e[i].0 == k
  {
    if e == [] then {} else {e[0].0} + Keys(e[1..])
  }

  /** std::map::find: the value stored under name, if any. */
  function Lookup<V(==)>(e: seq<(string, V)>, name: string): (r: Option<V>)
    ensures r.Some? <==> name in Keys(e)
    ensures r.Some? ==> exists i :: 0 <= i < |e| && e[i] == (name, r.value)
  {
    if e == [] then None else if e[0].0 == name then Some(e[0].1) else Lookup(e[1..], name)
  }

  /** Set on the entries (std::map::operator[] assignment): insert in key order, or replace the value of an existing key. */
  function {:induction false} Insert<V(==)>(e: seq<(string, V)>, name: string, child: V): (r: seq<(string, V)>)
    requires Ordered(e)
    ensures Ordered(r) && Keys(r) == Keys(e) + {name}
    ensures Lookup(r, name) == Some(child)
    ensures forall k :: k != name ==> Lookup(r, k) == Lookup(e, k)
    ensures forall p :: p in r ==> p == (name, child) || p in e
  {
    if e == [] then [(name, child)]
    else if e[0].0 == name then
      InsertReplaces(e, name, child);
      [(name, child)] + e[1..]
    else if StrLess(name, e[0].0) then
      InsertInFront(e, name, child);
      [(name, child)] + e
    else
      OrderedTail(e);
      var rest := Insert(e[1..], name, child);
      InsertAfterFirst(e, name, child, rest);
      [e[0]] + rest
  }

  /** Setting the first key replaces its value. */
  lemma {:induction false} InsertReplaces<V>(e: seq<(string, V)>, name: string, child: V)
    requires Ordered(e) && e != [] && e[0].0 == name
    ensures var r := [(name, child)] + e[1..];
      Ordered(r) && Keys(r) == Keys(e) + {name} && Lookup(r, name) == Some(child) &&
      (forall k :: k != name ==> Lookup(r, k) == Lookup(e, k)) &&
      (forall p :: p in r ==> p == (name, child) || p in e)
  {
    OrderedTail(e);
    TailKeysAbove(e);
    OrderedCons((name, child), e[1..]);
    assert e == [e[0]] + e[1..];
  }

  /** A key below the first goes in front. */
  lemma {:induction false} InsertInFront<V>(e: seq<(string, V)>, name: string, child: V)
    requires Ordered(e) && e != [] && StrLess(name, e[0].0)
    ensures var r := [(name, child)] + e;
      Ordered(r) && Keys(r) == Keys(e) + {name} && Lookup(r, name) == Some(child) &&
      (forall k :: k != name ==> Lookup(r, k) == Lookup(e, k)) &&
      (forall p :: p in r ==> p == (name, child) || p in e)
  {
    OrderedTail(e);
    TailKeysAbove(e);
    forall k | k in Keys(e) ensures StrLess(name, k) {
      if k != e[0].0 { StrLessTransitive(name, e[0].0, k); }
    }
    OrderedCons((name, child), e);
  }

  /** A key above the first goes into the rest. */
  lemma {:induction false} InsertAfterFirst<V>(e: seq<(string, V)>, name: string, child: V, rest: seq<(string, V)>)
    requires Ordered(e) && e != [] && e[0].0 != name && !StrLess(name, e[0].0)
    requires Ordered(rest) && Keys(rest) == Keys(e[1..]) + {name}
    requires Lookup(rest, name) == Some(child)
    requires forall k :: k != name ==> Lookup(rest, k) == Lookup(e[1..], k)
    requires forall p :: p in rest ==> p == (name, child) || p in e[1..]
    ensures var r := [e[0]] + rest;
      Ordered(r) && Keys(r) == Keys(e) + {name} && Lookup(r, name) == Some(child) &&
      (forall k :: k != name ==> Lookup(r, k) == Lookup(e, k)) &&
      (forall p :: p in r ==> p == (name, child) || p in e)
  {
    FirstBelowRest(e, name, rest);
    OrderedCons(e[0], rest);
    ConsSplit(e);
    ConsLookups(e[0], rest, e[1..], name);
    ConsMembers(e[0], rest, e[1..], (name, child));
  }

  /** The first key is below every key of the rest once a key above it is set there. */
  lemma {:induction false} FirstBelowRest<V>(e: seq<(string, V)>, name: string, rest: seq<(string, V)>)
    requires Ordered(e) && e != [] && e[0].0 != name && !StrLess(name, e[0].0)
    requires Keys(rest) == Keys(e[1..]) + {name}
    ensures forall k :: k in Keys(rest) ==> StrLess(e[0].0, k)
  {
    TailKeysAbove(e);
    StrLessTotal(name, e[0].0);
  }

  lemma {:induction false} ConsSplit<T>(e: seq<T>)
    requires e != []
    ensures e == [e[0]] + e[1..]
  {
  }

  /** A first entry in front of entries that agree with others off one key agrees with the whole off that key. */
  lemma {:induction false} ConsLookups<V>(x: (string, V), rest: seq<(string, V)>, tail: seq<(string, V)>, name: string)
    requires x.0 != name
    requires forall k :: k != name ==> Lookup(rest, k) == Lookup(tail, k)
    ensures Lookup([x] + rest, name) == Lookup(rest, name)
    ensures forall k :: k != name ==> Lookup([x] + rest, k) == Lookup([x] + tail, k)
  {
    assert ([x] + rest)[1..] == rest && ([x] + tail)[1..] == tail;
  }

  /** The members of [x] + rest, when every member of rest is p or in tail. */
  lemma {:induction false} ConsMembers<V>(x: (string, V), rest: seq<(string, V)>, tail: seq<(string, V)>, p: (string, V))
    requires forall q :: q in rest ==> q == p || q in tail
    ensures forall q :: q in [x] + rest ==> q == p || q in [x] + tail
  {
    forall q | q in [x] + rest ensures q == p || q in [x] + tail {
      if q != x { assert q in rest; }
    }
  }

  lemma OrderedTail<V>(e: seq<(string, V)>)
    requires Ordered(e) && e != []
    ensures Ordered(e[1..])
  {
  }

  /** In ordered entries every later key is above the first. */
  lemma TailKeysAbove<V>(e: seq<(string, V)>)
    requires Ordered(e) && e != []
    ensures forall k :: k in Keys(e[1..]) ==> StrLess(e[0].0, k)
  {
    forall k | k in Keys(e[1..]) ensures StrLess(e[0].0, k) {
      var i :| 0 <= i < |e[1..]| && e[1..][i].0 == k;
      assert e[i + 1].0 == k;
    }
  }

  /** An entry below every key of ordered entries can go in front. */
  lemma OrderedCons<V>(x: (string, V), e: seq<(string, V)>)
    requires Ordered(e) && forall k :: k in Keys(e) ==> StrLess(x.0, k)
    ensures Ordered([x] + e)
    ensures Keys([x] + e) == {x.0} + Keys(e)
  {
    var r := [x] + e;
    assert r[1..] == e;
    forall i, j | 0 <= i < j < |r| ensures StrLess(r[i].0, r[j].0) {
      if i == 0 {
        assert r[j].0 == e[j - 1].0;
      } else {
        assert r[i] == e[i - 1] && r[j] == e[j - 1];
      }
    }
  }


  /** std::map::erase(key): remove the entry for name, if any, keeping the order of the others. */
  function {:induction false} Remove<V(==)>(e: seq<(string, V)>, name: string): (r: seq<(string, V)>)
    requires Ordered(e)
    ensures Ordered(r) && Keys(r) == Keys(e) - {name}
    ensures Lookup(r, name).None?
    ensures forall k :: k != name ==> Lookup(r, k) == Lookup(e, k)
    ensures forall p :: p in r ==> p in e
  {
    if e == [] then []
    else
      OrderedTail(e);
      TailKeysAbove(e);
      if e[0].0 == name then
        StrLessIrreflexive(name);
        e[1..]
      else
        var rest := Remove(e[1..], name);
        OrderedCons(e[0], rest);
        [e[0]] + rest
  }

  /** Remove leaves the map unchanged when the key is absent. */
  lemma {:induction false} RemoveAbsent<V>(e: seq<(string, V)>, name: string)
    requires Ordered(e) && name !in Keys(e)
    ensures Remove(e, name) == e
  {
    if e != [] {
      OrderedTail(e);
      RemoveAbsent(e[1..], name);
    }
  }
}
