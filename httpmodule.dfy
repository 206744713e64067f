/**
 * The per-request state of the HTTP output modules: the queue that hands
 * body parts to a module strictly in index order, the counter that numbers
 * the parts the module passes on, and the handler's list of per-module data.
 */
module HttpModule {
  import opened CText
  import opened BodyParts

  // ---------------------------------------------------------------------
  // The body-part queue

  /**
   * The queue of body parts as the sequence in which SBPComparer's priority
   * queue would hand them out: by ascending index.
   */
  predicate SortedByIndex(q: seq<Part>) {
    forall i, j :: 0 <= i < j < |q| ==> q[i].index <= q[j].index
  }

  /** The number of leading parts whose index is not above p's: where push puts p. */
  function InsertPos(q: seq<Part>, p: Part): (i: nat)
    ensures i <= |q|
    ensures forall k :: 0 <= k < i ==> q[k].index <= p.index
    ensures i < |q| ==> p.index < q[i].index
    decreases |q|
  {
    if q == [] || p.index < q[0].index then 0 else 1 + InsertPos(q[1..], p)
  }

  /** push: the part joins the queue, behind the parts of no larger index. */
  function Enqueue(q: seq<Part>, p: Part): (r: seq<Part>)
    ensures multiset(r) == multiset(q) + multiset{p}
    ensures SortedByIndex(q) ==> SortedByIndex(r)
  {
    var i := InsertPos(q, p);
    assert q == q[..i] + q[i..];
    assert multiset(q[..i] + [p] + q[i..]) == multiset(q[..i]) + multiset{p} + multiset(q[i..]);
    InsertKeepsOrder(q, p, i);
    q[..i] + [p] + q[i..]
  }

  /** Inserting p at InsertPos keeps a sorted queue sorted. */
  lemma {:induction false} InsertKeepsOrder(q: seq<Part>, p: Part, i: nat)
    requires i == InsertPos(q, p)
    ensures SortedByIndex(q) ==> SortedByIndex(q[..i] + [p] + q[i..])
  {
    if SortedByIndex(q) {
      var r := q[..i] + [p] + q[i..];
      assert |r| == |q| + 1 && r[i] == p;
      assert forall k :: 0 <= k < i ==> r[k] == q[k];
      assert forall k :: i < k < |r| ==> r[k] == q[k - 1];
      forall a, b | 0 <= a < b < |r| ensures r[a].index <= r[b].index {
        if a == i {
          assert i < |q| && q[i].index <= q[b - 1].index;
        }
      }
    }
  }

  /** The first part of a sorted queue is one of least index: the top of the priority queue. */
  lemma {:induction false} HeadIsTop(q: seq<Part>)
    requires SortedByIndex(q) && q != []
    ensures IsTop(q, q[0])
  {
    forall p | p in q ensures !Comparer(q[0], p) {
      var k :| 0 <= k < |q| && q[k] == p;
      assert k == 0 || q[0].index <= q[k].index;
    }
  }

  /** There is a queued part of least index, and its index is n: the part NextBodyPart may release. */
  ghost predicate TopHasIndex(q: seq<Part>, n: nat) {
    exists t :: IsTop(q, t) && t.index == n
  }

  /** All tops of a queue share one index, so in a sorted queue the test is on the first part. */
  lemma {:induction false} TopHasIndexAtHead(q: seq<Part>, n: nat)
    requires SortedByIndex(q)
    ensures TopHasIndex(q, n) <==> q != [] && q[0].index == n
  {
    if q != [] {
      HeadIsTop(q);
      if TopHasIndex(q, n) {
        var t :| IsTop(q, t) && t.index == n;
        assert !Comparer(t, q[0]) && !Comparer(q[0], t);
      }
    }
  }

  /**
   * NextBodyPart on a queue and the count nextBP: the first part, when its
   * index is the one expected, leaves the queue and the count goes up.
   */
  function Release(q: seq<Part>, nextBP: nat): (r: (Option<Part>, seq<Part>, nat))
    ensures r.0.Some? ==> r.0.value.index == nextBP && r.2 == nextBP + 1 && |r.1| == |q| - 1
    ensures r.0.None? ==> r.1 == q && r.2 == nextBP
  {
    if q != [] && q[0].index == nextBP then (Some(q[0]), q[1..], nextBP + 1)
    else (None, q, nextBP)
  }

  /** What Release takes out plus what it leaves is what was queued, and a sorted queue stays sorted. */
  lemma {:induction false} ReleaseKeepsParts(q: seq<Part>, nextBP: nat)
    ensures var r := Release(q, nextBP);
      (SortedByIndex(q) ==> SortedByIndex(r.1))
      && (r.0.Some? ==> multiset(r.1) + multiset{r.0.value} == multiset(q))
  {
    if q != [] && q[0].index == nextBP {
      assert q == [q[0]] + q[1..];
    }
  }

  /**
   * A part is released exactly when a part of least index has the index
   * expected, and the part released is such a part.
   */
  lemma {:induction false} ReleaseTakesTop(q: seq<Part>, nextBP: nat)
    requires SortedByIndex(q)
    ensures var r := Release(q, nextBP);
      (r.0.Some? <==> TopHasIndex(q, nextBP)) && (r.0.Some? ==> IsTop(q, r.0.value))
  {
    TopHasIndexAtHead(q, nextBP);
    if q != [] {
      HeadIsTop(q);
    }
  }

  // ---------------------------------------------------------------------
  // Runs of queue operations

  /** What a module does to its queue: PutBodyPart (NULL included) or NextBodyPart. */
  datatype QueueOp = Put(part: Option<Part>) | Next

  /** The part an operation puts into the queue, if any. */
  function PutOf(op: QueueOp): (r: multiset<Part>)
    ensures |r| <= 1
  {
    if op.Put? && op.part.Some? then multiset{op.part.value} else multiset{}
  }

  /** The parts a run puts into the queue. */
  function PutParts(ops: seq<QueueOp>): (r: multiset<Part>)
    ensures |r| <= |ops|
  {
    if ops == [] then multiset{} else PutOf(ops[0]) + PutParts(ops[1..])
  }

  /** A run of queue operations from queue q and count n: the parts released, the queue and the count after. */
  function RunQueue(q: seq<Part>, n: nat, ops: seq<QueueOp>): (r: (seq<Part>, seq<Part>, nat))
    ensures SortedByIndex(q) ==> SortedByIndex(r.1)
    decreases |ops|
  {
    if ops == [] then ([], q, n)
    else if ops[0].Put? then
      var p := ops[0].part;
      RunQueue(if p.Some? then Enqueue(q, p.value) else q, n, ops[1..])
    else
      var rel := Release(q, n);
      ReleaseKeepsParts(q, n);
      var rest := RunQueue(rel.1, rel.2, ops[1..]);
      (if rel.0.Some? then [rel.0.value] + rest.0 else rest.0, rest.1, rest.2)
  }

  /**
   * Over any interleaving of puts and nexts, the parts released carry the
   * consecutive indices n, n+1, ..., and the count ends past the last of
   * them: no part is released before every part of lower index.
   */
  lemma {:induction false} ReleasedInIndexOrder(q: seq<Part>, n: nat, ops: seq<QueueOp>)
    ensures var r := RunQueue(q, n, ops);
      (forall i :: 0 <= i < |r.0| ==> r.0[i].index == n + i) && r.2 == n + |r.0|
    decreases |ops|
  {
    if ops != [] {
      var r := RunQueue(q, n, ops);
      if ops[0].Put? {
        var p := ops[0].part;
        var q1 := if p.Some? then Enqueue(q, p.value) else q;
        assert r == RunQueue(q1, n, ops[1..]);
        ReleasedInIndexOrder(q1, n, ops[1..]);
      } else {
        var rel := Release(q, n);
        var r1 := RunQueue(rel.1, rel.2, ops[1..]);
        assert r == (if rel.0.Some? then [rel.0.value] + r1.0 else r1.0, r1.1, r1.2);
        ReleasedInIndexOrder(rel.1, rel.2, ops[1..]);
        if rel.0.Some? {
          assert forall i :: 1 <= i < |r.0| ==> r.0[i] == r1.0[i - 1];
        }
      }
    }
  }

  /** Over any run, every part put is either released or still queued, and nothing else is. */
  lemma {:induction false} ReleasedOrQueued(q: seq<Part>, n: nat, ops: seq<QueueOp>)
    ensures var r := RunQueue(q, n, ops);
      multiset(r.0) + multiset(r.1) == multiset(q) + PutParts(ops)
    decreases |ops|
  {
    if ops == [] {
      assert RunQueue(q, n, ops) == ([], q, n) && PutParts(ops) == multiset{};
    } else {
      var r := RunQueue(q, n, ops);
      assert PutParts(ops) == PutOf(ops[0]) + PutParts(ops[1..]);
      if ops[0].Put? {
        var p := ops[0].part;
        var q1 := if p.Some? then Enqueue(q, p.value) else q;
        assert multiset(q1) == multiset(q) + PutOf(ops[0]);
        assert r == RunQueue(q1, n, ops[1..]);
        ReleasedOrQueued(q1, n, ops[1..]);
      } else {
        var rel := Release(q, n);
        var r1 := RunQueue(rel.1, rel.2, ops[1..]);
        assert r == (if rel.0.Some? then [rel.0.value] + r1.0 else r1.0, r1.1, r1.2);
        ReleaseKeepsParts(q, n);
        ReleasedOrQueued(rel.1, rel.2, ops[1..]);
        assert PutParts(ops) == PutParts(ops[1..]);
        if rel.0.Some? {
          assert multiset(r.0) == multiset{rel.0.value} + multiset(r1.0);
          UnionShift(multiset{rel.0.value}, multiset(r1.0), multiset(r1.1), multiset(rel.1), PutParts(ops[1..]));
        }
      }
    }
  }

  /** Moving one multiset from the left of an equation of unions to the right. */
  lemma {:induction false} UnionShift(o: multiset<Part>, x: multiset<Part>, y: multiset<Part>, z: multiset<Part>, w: multiset<Part>)
    requires x + y == z + w
    ensures (o + x) + y == (z + o) + w
  {
    calc {
      (o + x) + y;
      o + (x + y);
      o + (z + w);
      (z + o) + w;
    }
  }

  // ---------------------------------------------------------------------
  // Draining the queue

  /**
   * The drain loop of an output module: NextBodyPart until it returns
   * NULL. The parts released, the queue left and the count reached.
   */
  function Drained(q: seq<Part>, n: nat): (r: (seq<Part>, seq<Part>, nat))
    decreases |q|
  {
    var rel := Release(q, n);
    if rel.0.None? then ([], q, n)
    else
      var rest := Drained(rel.1, rel.2);
      ([rel.0.value] + rest.0, rest.1, rest.2)
  }

  /**
   * A drain releases consecutive indices from n, and stops at a gap: what
   * is left does not start with the index the count has reached.
   */
  lemma {:induction false} DrainedStopsAtGap(q: seq<Part>, n: nat)
    ensures var r := Drained(q, n);
      (forall i :: 0 <= i < |r.0| ==> r.0[i].index == n + i) && r.2 == n + |r.0|
      && Release(r.1, r.2).0.None?
    decreases |q|
  {
    var rel := Release(q, n);
    if rel.0.Some? {
      DrainedStopsAtGap(rel.1, rel.2);
      var rest := Drained(rel.1, rel.2);
      var r := Drained(q, n);
      assert r.0 == [rel.0.value] + rest.0;
      forall i | 0 <= i < |r.0| ensures r.0[i].index == n + i {
        if i > 0 {
          assert r.0[i] == rest.0[i - 1];
        }
      }
    }
  }

  /** Once NextBodyPart returns NULL, further calls return NULL and change nothing. */
  lemma {:induction false} StuckStaysStuck(q: seq<Part>, n: nat, k: nat)
    requires Release(q, n).0.None?
    ensures RunQueue(q, n, Nexts(k)) == ([], q, n)
    decreases k
  {
    if k > 0 {
      var ops := Nexts(k);
      assert ops[0] == Next && ops[1..] == Nexts(k - 1);
      StuckStaysStuck(q, n, k - 1);
    }
  }

  /**
   * The drain loop is the run of as many NextBodyPart calls as there are
   * queued parts: so what it releases carries consecutive indices and
   * every part is released or left queued (ReleasedInIndexOrder,
   * ReleasedOrQueued).
   */
  lemma {:induction false} DrainedIsRunOfNexts(q: seq<Part>, n: nat, k: nat)
    requires k >= |q|
    ensures RunQueue(q, n, Nexts(k)) == Drained(q, n)
    decreases |q|
  {
    var rel := Release(q, n);
    if rel.0.None? {
      StuckStaysStuck(q, n, k);
    } else {
      DrainedIsRunOfNexts(rel.1, rel.2, k - 1);
      var ops := Nexts(k);
      assert ops[0] == Next && ops[1..] == Nexts(k - 1);
    }
  }

  /**
   * What a drain still yields when `done` has been handled and `out` is the
   * part just released from `q`: the loop state of a module draining its queue.
   */
  ghost function Pending(done: seq<Part>, out: Option<Part>, q: seq<Part>, n: nat): (seq<Part>, seq<Part>, nat) {
    if out.None? then (done, q, n)
    else
      var r := Drained(q, n);
      (done + [out.value] + r.0, r.1, r.2)
  }

  /** The first release of a drain starts the loop state. */
  lemma {:induction false} PendingStart(q: seq<Part>, n: nat)
    ensures var r := Release(q, n); Drained(q, n) == Pending([], r.0, r.1, r.2)
  {
    var r := Release(q, n);
    if r.0.Some? {
      assert [] + [r.0.value] + Drained(r.1, r.2).0 == [r.0.value] + Drained(r.1, r.2).0;
    }
  }

  /** Handling the released part and releasing the next keeps the loop state. */
  lemma {:induction false} PendingStep(done: seq<Part>, o: Part, q: seq<Part>, n: nat)
    ensures var r := Release(q, n); Pending(done, Some(o), q, n) == Pending(done + [o], r.0, r.1, r.2)
  {
    var r := Release(q, n);
    if r.0.Some? {
      var rest := Drained(r.1, r.2);
      assert done + [o] + ([r.0.value] + rest.0) == done + [o] + [r.0.value] + rest.0;
    } else {
      assert Drained(q, n).0 == [];
      assert done + [o] + [] == done + [o];
    }
  }

  // ---------------------------------------------------------------------
  // SHttpModuleData

  /** The state a module keeps for one request. */
  class ModuleData {
    /** The index of the next part the module is to process. */
    var nextBP: nat
    /** The index stamped on the next part the module sends on. */
    var nextBPToSend: nat
    /** Set while the module is draining its queue. */
    var processing: bool
    /** The parts not yet processed, in the order the queue releases them. */
    var bodyParts: seq<Part>

    predicate Valid()
      reads this
    {
      SortedByIndex(bodyParts)
    }

    /** SHttpModuleData(): both counts 0, not processing, nothing queued. */
    constructor ()
      ensures Valid() && nextBP == 0 && nextBPToSend == 0 && !processing && bodyParts == []
    {
      nextBP := 0;
      nextBPToSend := 0;
      processing := false;
      bodyParts := [];
    }

    /** Reset: both counts 0 and not processing; the queue is kept. */
    method Reset()
      modifies this
      ensures nextBP == 0 && nextBPToSend == 0 && !processing && bodyParts == old(bodyParts)
    {
      nextBP := 0;
      nextBPToSend := 0;
      processing := false;
    }

    /** SetProcessing(yes). */
    method SetProcessing(yes: bool)
      modifies this
      ensures processing == yes
      ensures nextBP == old(nextBP) && nextBPToSend == old(nextBPToSend) && bodyParts == old(bodyParts)
    {
      processing := yes;
    }

    /**
     * NextBodyPart: the part of least index when that index is nextBP,
     * which then leaves the queue while nextBP goes up by one; otherwise
     * NULL, and nothing changes.
     */
    method NextBodyPart() returns (out: Option<Part>)
      requires Valid()
      modifies this
      ensures Valid()
      ensures (out, bodyParts, nextBP) == Release(old(bodyParts), old(nextBP))
      ensures nextBPToSend == old(nextBPToSend) && processing == old(processing)
    {
      out := None;
      if bodyParts != [] {
        var top := bodyParts[0];
        if top.index == nextBP {
          nextBP := nextBP + 1;
          out := Some(top);
          bodyParts := bodyParts[1..];
        }
      }
    }

    /** PutBodyPart: NULL is ignored, any other part is queued. */
    method PutBodyPart(part: Option<Part>)
      requires Valid()
      modifies this
      ensures Valid()
      ensures bodyParts == if part.Some? then Enqueue(old(bodyParts), part.value) else old(bodyParts)
      ensures nextBP == old(nextBP) && nextBPToSend == old(nextBPToSend) && processing == old(processing)
    {
      if part.Some? {
        bodyParts := Enqueue(bodyParts, part.value);
      }
    }

    /** PutAndGetBodyPart: PutBodyPart, then NextBodyPart. */
    method PutAndGetBodyPart(part: Option<Part>) returns (out: Option<Part>)
      requires Valid()
      modifies this
      ensures Valid()
      ensures (out, bodyParts, nextBP) == Release(if part.Some? then Enqueue(old(bodyParts), part.value) else old(bodyParts), old(nextBP))
      ensures nextBPToSend == old(nextBPToSend) && processing == old(processing)
    {
      PutBodyPart(part);
      out := NextBodyPart();
    }
  }

  /**
   * SendBodyPartToModule: a part (not NULL) is stamped with the module's
   * nextBPToSend, which goes up by one; the part is what the next module
   * receives.
   */
  method SendBodyPartToModule(md: ModuleData, part: Option<Part>) returns (sent: Option<Part>)
    modifies md
    ensures part.None? ==> sent.None? && md.nextBPToSend == old(md.nextBPToSend)
    ensures part.Some? ==> sent == Some(part.value.(index := old(md.nextBPToSend)))
    ensures part.Some? ==> md.nextBPToSend == old(md.nextBPToSend) + 1
    ensures md.nextBP == old(md.nextBP) && md.processing == old(md.processing) && md.bodyParts == old(md.bodyParts)
  {
    if part.Some? {
      sent := Some(part.value.(index := md.nextBPToSend));
      md.nextBPToSend := md.nextBPToSend + 1;
    } else {
      sent := None;
    }
  }

  /** The parts a module sends on, stamped one after another from count n. */
  function Stamp(parts: seq<Part>, n: nat): (r: seq<Part>)
    ensures |r| == |parts|
    ensures forall i :: 0 <= i < |r| ==> r[i] == parts[i].(index := n + i)
    decreases |parts|
  {
    if parts == [] then []
    else [parts[0].(index := n)] + Stamp(parts[1..], n + 1)
  }

  /**
   * The numbering a module gives out meets the queue of the next module:
   * once every stamped part has been put there, in the order sent, its
   * drain loop releases them all, in that order, and leaves nothing queued.
   */
  lemma {:induction false} StampedPartsDrainInOrder(parts: seq<Part>, n: nat)
    ensures Drained(PutAll([], Stamp(parts, n)), n) == (Stamp(parts, n), [], n + |parts|)
  {
    ConsecutiveDrainInOrder(Stamp(parts, n), n, n + |parts|);
  }

  /** Parts numbered n, n+1, ... put in order and then drained come out as they went in. */
  lemma {:induction false} ConsecutiveDrainInOrder(s: seq<Part>, n: nat, end: nat)
    requires Consecutive(s, n) && end == n + |s|
    ensures Drained(PutAll([], s), n) == (s, [], end)
  {
    PutAllConsecutive(s, n, 0, [], s);
    DrainConsecutive(s, n);
  }

  /** k calls of NextBodyPart. */
  function Nexts(k: nat): (ops: seq<QueueOp>)
    ensures |ops| == k && forall i :: 0 <= i < k ==> ops[i] == Next
  {
    seq(k, _ => Next)
  }

  /** The queue after putting every part of s, in order. */
  function PutAll(q: seq<Part>, s: seq<Part>): seq<Part>
    decreases |s|
  {
    if s == [] then q else PutAll(Enqueue(q, s[0]), s[1..])
  }

  /** Parts numbered n, n+1, ... */
  predicate Consecutive(q: seq<Part>, n: nat) {
    forall i :: 0 <= i < |q| ==> q[i].index == n + i
  }

  /** Putting the stamped parts one by one, from the first k of them queued, builds the whole sequence. */
  lemma {:induction false} PutAllConsecutive(s: seq<Part>, n: nat, k: nat, q: seq<Part>, rest: seq<Part>)
    requires Consecutive(s, n) && k <= |s| && q == s[..k] && rest == s[k..]
    ensures PutAll(q, rest) == s
    decreases |s| - k
  {
    if k == |s| {
      assert q == s && rest == [];
    } else {
      assert InsertPos(q, s[k]) == k;
      var q1 := Enqueue(q, s[k]);
      assert q1 == s[..k + 1];
      assert rest[0] == s[k] && rest[1..] == s[k + 1..];
      assert PutAll(q, rest) == PutAll(q1, rest[1..]);
      PutAllConsecutive(s, n, k + 1, q1, rest[1..]);
    }
  }

  /** The drain loop on a queue numbered n, n+1, ... releases the whole queue in order. */
  lemma {:induction false} DrainConsecutive(q: seq<Part>, n: nat)
    requires Consecutive(q, n)
    ensures Drained(q, n) == (q, [], n + |q|)
    decreases |q|
  {
    if q != [] {
      var q' := q[1..];
      ConsecutiveTail(q, q', n);
      DrainConsecutive(q', n + 1);
      assert Release(q, n) == (Some(q[0]), q', n + 1);
      assert [q[0]] + q' == q;
    }
  }

  /** Dropping the first of parts numbered from n leaves parts numbered from n + 1. */
  lemma {:induction false} ConsecutiveTail(q: seq<Part>, q': seq<Part>, n: nat)
    requires Consecutive(q, n) && q != [] && q' == q[1..]
    ensures Consecutive(q', n + 1) && q[0].index == n
  {
    forall i | 0 <= i < |q'| ensures q'[i].index == n + 1 + i {
      assert q'[i] == q[i + 1];
    }
  }

  // ---------------------------------------------------------------------
  // SHttpHandlerData

  /** A module, by identity. */
  type ModuleId = nat
  /** A request queued on a connection, by identity. */
  type RequestId = nat

  /** The position of the first entry for module m. */
  function FindModule(entries: seq<(ModuleId, ModuleData)>, m: ModuleId): (r: Option<nat>)
    ensures r.Some? ==> r.value < |entries| && entries[r.value].0 == m
    ensures r.Some? ==> forall j :: 0 <= j < r.value ==> entries[j].0 != m
    ensures r.None? ==> forall j :: 0 <= j < |entries| ==> entries[j].0 != m
    decreases |entries|
  {
    if entries == [] then None
    else if entries[0].0 == m then Some(0)
    else match FindModule(entries[1..], m)
      case Some(k) => Some(k + 1)
      case None => None
  }

  /** The data GetModuleData finds for module m without creating any. */
  function DataOf(entries: seq<(ModuleId, ModuleData)>, m: ModuleId): (r: Option<ModuleData>)
  {
    match FindModule(entries, m)
    case Some(i) => Some(entries[i].1)
    case None => None
  }

  /** The position SetModuleData replaces: the first entry for m holding other data than d. */
  function FindOther(entries: seq<(ModuleId, ModuleData)>, m: ModuleId, d: ModuleData): (r: Option<nat>)
    ensures r.Some? ==> r.value < |entries| && entries[r.value].0 == m && entries[r.value].1 != d
    ensures r.Some? ==> forall j :: 0 <= j < r.value ==> !(entries[j].0 == m && entries[j].1 != d)
    ensures r.None? ==> forall j :: 0 <= j < |entries| ==> !(entries[j].0 == m && entries[j].1 != d)
    decreases |entries|
  {
    if entries == [] then None
    else if entries[0].0 == m && entries[0].1 != d then Some(0)
    else match FindOther(entries[1..], m, d)
      case Some(k) => Some(k + 1)
      case None => None
  }

  /** The list after SetModuleData(m, d). */
  function SetData(entries: seq<(ModuleId, ModuleData)>, m: ModuleId, d: ModuleData): (r: seq<(ModuleId, ModuleData)>)
  {
    match FindOther(entries, m, d)
    case Some(i) => entries[i := (m, d)]
    case None => entries + [(m, d)]
  }

  /** After SetModuleData(m, d), module m finds d, and every other module finds what it found before. */
  lemma {:induction false} SetDataThenFind(entries: seq<(ModuleId, ModuleData)>, m: ModuleId, d: ModuleData, other: ModuleId)
    requires other != m
    ensures DataOf(SetData(entries, m, d), m) == Some(d)
    ensures DataOf(SetData(entries, m, d), other) == DataOf(entries, other)
  {
    var r := SetData(entries, m, d);
    var fo := FindModule(entries, other);
    match FindOther(entries, m, d)
    case Some(i) =>
      assert r[i] == (m, d) && |r| == |entries|;
      var k := if FindModule(entries, m).Some? && FindModule(entries, m).value < i then FindModule(entries, m).value else i;
      FindModuleIs(r, m, Some(k));
      FindModuleIs(r, other, fo);
    case None =>
      assert r[|entries|] == (m, d) && |r| == |entries| + 1;
      var k := if FindModule(entries, m).Some? then FindModule(entries, m).value else |entries|;
      FindModuleIs(r, m, Some(k));
      FindModuleIs(r, other, fo);
  }

  /** FindModule is the first position whose module is m: any position with that property is its result. */
  lemma {:induction false} FindModuleIs(entries: seq<(ModuleId, ModuleData)>, m: ModuleId, r: Option<nat>)
    requires r.Some? ==> r.value < |entries| && entries[r.value].0 == m
    requires r.Some? ==> forall j :: 0 <= j < r.value ==> entries[j].0 != m
    requires r.None? ==> forall j :: 0 <= j < |entries| ==> entries[j].0 != m
    ensures FindModule(entries, m) == r
  {
    var f := FindModule(entries, m);
    if f.Some? && r.Some? {
      assert !(f.value < r.value) && !(r.value < f.value);
    }
  }

  /**
   * Setting a module's data to the data it already has does not find a
   * different entry to replace, so the list grows by a duplicate entry.
   */
  lemma {:induction false} SetSameDataDuplicates(entries: seq<(ModuleId, ModuleData)>, m: ModuleId, d: ModuleData)
    requires forall j :: 0 <= j < |entries| && entries[j].0 == m ==> entries[j].1 == d
    ensures SetData(entries, m, d) == entries + [(m, d)]
  {
  }

  /** The per-connection state of the handler stage. */
  class HandlerData {
    /** The (module, module data) pairs, in the order they were added. */
    var moduleData: seq<(ModuleId, ModuleData)>
    /** The requests waiting on the connection, oldest first. */
    var requests: seq<RequestId>

    /** SHttpHandlerData(): no module data and no requests. */
    constructor ()
      ensures moduleData == [] && requests == []
    {
      moduleData := [];
      requests := [];
    }

    /**
     * GetModuleData(module, create): the data of the first entry for the
     * module; without one, NULL, or with create a new data object, reset and
     * appended to the list.
     */
    method GetModuleData(m: ModuleId, create: bool) returns (d: ModuleData?)
      modifies this
      ensures requests == old(requests)
      ensures DataOf(old(moduleData), m).Some? ==> d == DataOf(old(moduleData), m).value && moduleData == old(moduleData)
      ensures DataOf(old(moduleData), m).None? && !create ==> d == null && moduleData == old(moduleData)
      ensures DataOf(old(moduleData), m).None? && create ==>
        d != null && fresh(d) && d.Valid() && moduleData == old(moduleData) + [(m, d)] &&
        d.nextBP == 0 && d.nextBPToSend == 0 && !d.processing && d.bodyParts == []
    {
      var i := 0;
      while i < |moduleData|
        invariant i <= |moduleData| && moduleData == old(moduleData)
        invariant forall j :: 0 <= j < i ==> moduleData[j].0 != m
      {
        if moduleData[i].0 == m {
          FindModuleIs(moduleData, m, Some(i));
          return moduleData[i].1;
        }
        i := i + 1;
      }
      d := null;
      if create {
        var created := new ModuleData();
        created.Reset();
        moduleData := moduleData + [(m, created)];
        d := created;
      }
    }

    /**
     * SetModuleData(module, data): the first entry for the module that
     * holds other data now holds this data; without one, a new entry is
     * appended.
     */
    method SetModuleData(m: ModuleId, d: ModuleData)
      modifies this
      ensures moduleData == SetData(old(moduleData), m, d) && requests == old(requests)
    {
      var i := 0;
      while i < |moduleData|
        invariant i <= |moduleData| && moduleData == old(moduleData)
        invariant forall j :: 0 <= j < i ==> !(moduleData[j].0 == m && moduleData[j].1 != d)
      {
        if moduleData[i].0 == m && moduleData[i].1 != d {
          assert FindOther(moduleData, m, d) == Some(i) by {
            FindOtherAt(moduleData, m, d, i);
          }
          moduleData := moduleData[i := (m, d)];
          return;
        }
        i := i + 1;
      }
      moduleData := moduleData + [(m, d)];
    }

    /** ResetModuleData: every entry's data is reset; the entries stay. */
    method ResetModuleData()
      modifies set e | e in moduleData :: e.1
      ensures forall e :: e in moduleData ==>
        e.1.nextBP == 0 && e.1.nextBPToSend == 0 && !e.1.processing && e.1.bodyParts == old(e.1.bodyParts)
    {
      var i := 0;
      while i < |moduleData|
        invariant i <= |moduleData|
        invariant forall j :: 0 <= j < i ==>
          moduleData[j].1.nextBP == 0 && moduleData[j].1.nextBPToSend == 0 && !moduleData[j].1.processing
        invariant forall e :: e in moduleData ==> e.1.bodyParts == old(e.1.bodyParts)
      {
        moduleData[i].1.Reset();
        i := i + 1;
      }
    }

    /** DestroyRequest: the oldest request, if any, is dropped. */
    method DestroyRequest()
      modifies this
      ensures requests == if old(requests) == [] then [] else old(requests)[1..]
      ensures moduleData == old(moduleData)
    {
      if requests != [] {
        requests := requests[1..];
      }
    }
  }

  /** FindOther is the first position matching its test. */
  lemma {:induction false} FindOtherAt(entries: seq<(ModuleId, ModuleData)>, m: ModuleId, d: ModuleData, i: nat)
    requires i < |entries| && entries[i].0 == m && entries[i].1 != d
    requires forall j :: 0 <= j < i ==> !(entries[j].0 == m && entries[j].1 != d)
    ensures FindOther(entries, m, d) == Some(i)
  {
    var r := FindOther(entries, m, d);
    assert r.Some?;
    assert !(r.value < i) && !(i < r.value);
  }
}
