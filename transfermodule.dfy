/**
 * The transfer module (STransferModule): the output module that applies the
 * response's Transfer-Encoding to every data part. With "chunked" each data
 * part becomes one chunk of section 4.1 of RFC 7230; finishing parts are
 * passed on as they are. Every part handled is stamped with the module's
 * send counter, and parts are drained from the module's queue in index
 * order as in every output module.
 */
module TransferModule {
  import opened CText
  import opened BodyParts
  import opened HttpModule
  import opened Headers

  /** `unsigned` is 32 bits wide: a part's size is taken modulo 2^32. */
  const UintRange: nat := 0x1_0000_0000

  // ---------------------------------------------------------------------
  // Chunks

  /** One chunk: the size in lower-case hexadecimal, CRLF, the data, CRLF. */
  function Chunk(size: nat, d: string): string {
    NatToHex(size) + CRLF + d + CRLF
  }

  /**
   * The body of a data part once the Transfer-Encoding is applied: a chunk
   * of its (32-bit) size when the encoding is exactly "chunked", otherwise
   * the body as it was.
   */
  function Framed(encoding: string, d: string): string {
    if encoding == "chunked" then Chunk(|d| % UintRange, d) else d
  }

  /** The length of the run of lower-case hexadecimal digits at the start of `s`. */
  function HexRun(s: string): (n: nat)
    ensures n <= |s|
    ensures forall i :: 0 <= i < n ==> IsLowerHex(s[i])
    ensures n < |s| ==> !IsLowerHex(s[n])
  {
    if s == [] || !IsLowerHex(s[0]) then 0 else 1 + HexRun(s[1..])
  }

  /**
   * Reading one chunk back, as a recipient does under section 4.1 of
   * RFC 7230: the hexadecimal size, CRLF, exactly that many bytes, CRLF
   * and nothing after it. None when the frame is not one whole chunk.
   */
  function ChunkData(frame: string): (r: Option<string>)
    ensures r.Some? ==> |r.value| < |frame|
  {
    var h := HexRun(frame);
    var rest := frame[h..];
    if h == 0 || !StartsWith(rest, CRLF) then None
    else
      var size := HexValue(frame[..h]);
      var body := rest[2..];
      if |body| == size + 2 && body[size..] == CRLF then Some(body[..size]) else None
  }

  lemma {:induction false} HexRunOfHex(d: string, rest: string)
    requires forall i :: 0 <= i < |d| ==> IsLowerHex(d[i])
    requires rest == [] || !IsLowerHex(rest[0])
    ensures HexRun(d + rest) == |d|
    decreases |d|
  {
    if d != [] {
      assert (d + rest)[1..] == d[1..] + rest;
      HexRunOfHex(d[1..], rest);
    } else {
      assert d + rest == rest;
    }
  }

  /**
   * A chunk reads back as the data it frames: the recipient recovers every
   * data part whose size fits the 32-bit count.
   */
  lemma {:induction false} ChunkRoundTrip(d: string)
    requires |d| < UintRange
    ensures ChunkData(Framed("chunked", d)) == Some(d)
  {
    var hex := NatToHex(|d|);
    var tail := CRLF + d + CRLF;
    var frame := Framed("chunked", d);
    assert frame == hex + tail;
    HexRunOfHex(hex, tail);
    assert frame[..|hex|] == hex && frame[|hex|..] == tail;
    HexValueOfHex(|d|);
    assert tail[2..] == d + CRLF;
    assert (d + CRLF)[..|d|] == d && (d + CRLF)[|d|..] == CRLF;
  }

  /**
   * The comparison with "chunked" is exact: any other Transfer-Encoding,
   * "Chunked" and the empty value of a missing header included, leaves the
   * body byte for byte as it was.
   */
  lemma {:induction false} OnlyExactChunkedFrames(encoding: string, d: string)
    ensures Framed(encoding, d) == d <==> encoding != "chunked"
    ensures Framed("Chunked", d) == d && Framed("", d) == d
  {
    if encoding == "chunked" {
      assert |Framed(encoding, d)| > |d|;
    }
  }

  // ---------------------------------------------------------------------
  // Handling one part

  /** The value a part has once handled, before it is stamped: data parts are framed, finishing parts kept. */
  function Transformed(encoding: string, p: Part): Part {
    if IsFinish(p) then p else p.(data := Framed(encoding, p.data))
  }

  /**
   * HandleBodyPart with the double send removed: the part is stamped with
   * the counter n once, data parts are framed, and the one part is sent on.
   * Returns the parts sent and the new counter.
   */
  function TransferStep(encoding: string, n: nat, p: Part): (r: (seq<Part>, nat))
    ensures |r.0| == 1 && r.1 == n + 1
  {
    ([Transformed(encoding, p).(index := n)], n + 1)
  }

  /**
   * HandleBodyPart as written: the part is stamped with n (line 69); a
   * finishing part is then sent through SendBodyPartToModule, which stamps
   * it again with n + 1, and is output a second time after the branch.
   */
  function TransferStepAsWritten(encoding: string, n: nat, p: Part): (r: (seq<Part>, nat))
    ensures IsFinish(p) ==> |r.0| == 2
  {
    if IsFinish(p) then
      var q := p.(index := n + 1);
      ([q, q], n + 2)
    else ([Transformed(encoding, p).(index := n)], n + 1)
  }

  /**
   * The defect: a finishing part handled with counter n reaches the next
   * module twice, both times numbered n + 1, and no part numbered n is ever
   * sent. The next module, waiting for part n, releases neither copy: the
   * end of the content is never processed downstream.
   */
  lemma {:induction false} FinishSentTwiceAsWritten(encoding: string, n: nat, p: Part)
    requires IsFinish(p)
    ensures var r := TransferStepAsWritten(encoding, n, p);
      r.0 == [p.(index := n + 1), p.(index := n + 1)] && r.1 == n + 2
      && Drained(PutAll([], r.0), n).0 == []
  {
    var q := p.(index := n + 1);
    var q1 := Enqueue([], q);
    assert q1 == [q];
    assert PutAll([], [q, q]) == PutAll(q1, [q]);
    assert [q, q][1..] == [q];
    var q2 := Enqueue(q1, q);
    assert PutAll(q1, [q]) == PutAll(q2, []);
    assert q2[0] == q;
  }

  /**
   * Without the double send a finishing part goes on once, numbered with
   * the counter, and no last-chunk ("0" CRLF CRLF) is added to it, even
   * under "chunked".
   */
  lemma {:induction false} FinishSentOnce(encoding: string, n: nat, p: Part)
    requires IsFinish(p)
    ensures TransferStep(encoding, n, p).0 == [p.(index := n)]
    ensures Drained(PutAll([], TransferStep(encoding, n, p).0), n).0 == [p.(index := n)]
  {
    var q := p.(index := n);
    assert PutAll([], [q]) == PutAll(Enqueue([], q), [q][1..]);
    assert Enqueue([], q) == [q];
    assert [q][1..] == [];
    var d := Drained([q], n);
    assert Release([q], n) == (Some(q), [], n + 1);
    assert Drained([], n + 1).0 == [];
  }

  /** The parts sent for a run of parts handled in order from counter n. */
  function TransferAll(encoding: string, n: nat, parts: seq<Part>): (r: (seq<Part>, nat))
    decreases |parts|
  {
    if parts == [] then ([], n)
    else
      var h := TransferAll(encoding, n, parts[..|parts| - 1]);
      var s := TransferStep(encoding, h.1, parts[|parts| - 1]);
      (h.0 + s.0, s.1)
  }

  /** Each part handled goes on transformed, and numbered one after another from n. */
  lemma {:induction false} TransferAllNumbers(encoding: string, n: nat, parts: seq<Part>)
    ensures var r := TransferAll(encoding, n, parts);
      |r.0| == |parts| && r.1 == n + |parts|
      && forall i :: 0 <= i < |parts| ==> r.0[i] == Transformed(encoding, parts[i]).(index := n + i)
    decreases |parts|
  {
    if parts != [] {
      var init := parts[..|parts| - 1];
      TransferAllNumbers(encoding, n, init);
      var h := TransferAll(encoding, n, init);
      var r := TransferAll(encoding, n, parts);
      assert r.0 == h.0 + TransferStep(encoding, h.1, parts[|parts| - 1]).0;
      forall i | 0 <= i < |parts|
        ensures r.0[i] == Transformed(encoding, parts[i]).(index := n + i)
      {
        if i < |init| {
          assert r.0[i] == h.0[i] && parts[i] == init[i];
        }
      }
    }
  }

  /** The transformed parts. */
  function TransformedAll(encoding: string, parts: seq<Part>): (r: seq<Part>)
    ensures |r| == |parts| && forall i :: 0 <= i < |parts| ==> r[i] == Transformed(encoding, parts[i])
  {
    seq(|parts|, i requires 0 <= i < |parts| => Transformed(encoding, parts[i]))
  }

  /**
   * Without the double send the numbering meets the next module's queue:
   * once everything sent is put there in order, its drain releases every
   * part, transformed, in the order handled, and leaves nothing queued.
   */
  lemma {:induction false} SentPartsDrainDownstream(encoding: string, n: nat, parts: seq<Part>)
    ensures var r := TransferAll(encoding, n, parts);
      Drained(PutAll([], r.0), n) == (r.0, [], n + |parts|)
      && r.0 == Stamp(TransformedAll(encoding, parts), n)
  {
    TransferAllNumbers(encoding, n, parts);
    var r := TransferAll(encoding, n, parts);
    var t := TransformedAll(encoding, parts);
    assert r.0 == Stamp(t, n);
    StampedPartsDrainInOrder(t, n);
  }

  // ---------------------------------------------------------------------
  // STransferModule

  /**
   * HandleBodyPart: the response's Transfer-Encoding is read, the part is
   * stamped with the send counter, which goes up by one, a data part is
   * framed, and the part is output. The second send of a finishing part is
   * not made (see TransferStepAsWritten).
   */
  method HandleBodyPart(md: ModuleData, headers: HeaderTable, p: Part) returns (sent: seq<Part>)
    modifies md
    ensures (sent, md.nextBPToSend) == TransferStep(headers.Header("Transfer-Encoding"), old(md.nextBPToSend), p)
    ensures md.nextBP == old(md.nextBP) && md.bodyParts == old(md.bodyParts) && md.processing == old(md.processing)
  {
    var transferEncoding := headers.Header("Transfer-Encoding");
    var part := p.(index := md.nextBPToSend);
    md.nextBPToSend := md.nextBPToSend + 1;
    if !IsFinish(part) {
      var size := |part.data| % UintRange;
      if transferEncoding == "chunked" {
        part := part.(data := NatToHex(size) + CRLF + part.data + CRLF);
      }
    }
    sent := [part];
  }

  /**
   * ProcessOutput: while the module is already processing, nothing
   * happens; a NULL part is sent on as it is; otherwise the part is queued
   * and every part the queue then releases, in index order, is handled.
   * The processing flag is as it was on exit.
   */
  method ProcessOutput(md: ModuleData, headers: HeaderTable, part: Option<Part>) returns (sent: seq<Part>, forwardedNull: bool)
    requires md.Valid()
    modifies md
    ensures md.Valid() && md.processing == old(md.processing)
    ensures old(md.processing) || part.None? ==>
      sent == [] && md.nextBPToSend == old(md.nextBPToSend)
      && md.bodyParts == old(md.bodyParts) && md.nextBP == old(md.nextBP)
    ensures forwardedNull <==> !old(md.processing) && part.None?
    ensures !old(md.processing) && part.Some? ==>
      var d := Drained(Enqueue(old(md.bodyParts), part.value), old(md.nextBP));
      var t := TransferAll(headers.Header("Transfer-Encoding"), old(md.nextBPToSend), d.0);
      md.bodyParts == d.1 && md.nextBP == d.2 && md.nextBPToSend == t.1 && sent == t.0
  {
    sent, forwardedNull := [], false;
    if md.processing {
      return;
    }
    md.SetProcessing(true);
    if part.None? {
      var _ := SendBodyPartToModule(md, None);
      forwardedNull := true;
    } else {
      sent := DrainQueue(md, headers, part.value);
    }
    md.SetProcessing(false);
  }

  /** The drain loop of ProcessOutput: queue the part, then handle every part released. */
  method DrainQueue(md: ModuleData, headers: HeaderTable, part: Part) returns (sent: seq<Part>)
    requires md.Valid() && md.processing
    modifies md
    ensures md.Valid() && md.processing
    ensures var d := Drained(Enqueue(old(md.bodyParts), part), old(md.nextBP));
      var t := TransferAll(headers.Header("Transfer-Encoding"), old(md.nextBPToSend), d.0);
      md.bodyParts == d.1 && md.nextBP == d.2 && md.nextBPToSend == t.1 && sent == t.0
  {
    ghost var q0 := Enqueue(md.bodyParts, part);
    ghost var n0 := md.nextBP;
    ghost var c0 := md.nextBPToSend;
    ghost var enc := headers.Header("Transfer-Encoding");
    PendingStart(q0, n0);
    sent := [];
    var out := md.PutAndGetBodyPart(Some(part));
    ghost var done: seq<Part> := [];
    while out.Some?
      invariant md.Valid() && md.processing
      invariant Drained(q0, n0) == Pending(done, out, md.bodyParts, md.nextBP)
      invariant TransferAll(enc, c0, done) == (sent, md.nextBPToSend)
      decreases |md.bodyParts| + (if out.Some? then 1 else 0)
    {
      PendingStep(done, out.value, md.bodyParts, md.nextBP);
      TransferAllSnoc(enc, c0, done, out.value);
      var s := HandleBodyPart(md, headers, out.value);
      done := done + [out.value];
      sent := sent + s;
      out := md.NextBodyPart();
    }
  }

  /** Handling one more part extends the run by that part's step. */
  lemma {:induction false} TransferAllSnoc(encoding: string, n: nat, parts: seq<Part>, p: Part)
    ensures var h := TransferAll(encoding, n, parts); var s := TransferStep(encoding, h.1, p);
      TransferAll(encoding, n, parts + [p]) == (h.0 + s.0, s.1)
  {
    assert (parts + [p])[..|parts|] == parts;
  }
}
