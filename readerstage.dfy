/**
 * SHttpReaderState and SHttpReaderStage::AssembleRequest: the incremental
 * reader that turns the bytes arriving on a connection into a request.  It
 * collects a line at a time (the request line of section 3.1.1 of RFC 7230,
 * then the header fields of section 3.2, folded lines included) and then
 * the message body, whose length is the Content-Length header.
 *
 * The functions below describe one call on a buffer as a value: a `Reader`
 * holds what the reader's fields and its request hold, and `Process` is the
 * outcome of ProcessBytes on the bytes buf[p..].  The class then runs the
 * same steps on the fields and is proved to reach that outcome.
 */
module ReaderStage {
  import opened CText
  import opened SortedMap
  import opened Headers
  import opened Message
  import opened BodyParts
  import opened Request

  /** The values of a 32-bit `unsigned`: the body size and the count read. */
  const UintRange: nat := 0x1_0000_0000
  /** The values of a 64-bit `size_t`. */
  const SizeRange: nat := 0x1_0000_0000_0000_0000

  /** The states of the reader. */
  datatype Phase =
    | ReadingFirstLine
    | ReadingHeaders
    | ReadingBody
    | ReadingChunkSize
    | ReadingChunkBody

  /** The states in which input is collected a line at a time. */
  predicate ReadsLine(p: Phase) {
    p == ReadingFirstLine || p == ReadingHeaders || p == ReadingChunkSize
  }

  /** The states in which input is body data. */
  predicate ReadsBody(p: Phase) {
    p == ReadingBody || p == ReadingChunkBody
  }

  /**
   * The reader as a value: its state, the pending (possibly folded) header
   * line, the line being collected, the body size and the count read, the
   * fully-read flag, the request's header table and lock, the bytes of the
   * body part (None while there is no body part) and the request line last
   * given to ParseFirstLine.
   */
  datatype Reader = Reader(
    phase: Phase,
    headerLine: string,
    line: string,
    bodySize: nat,
    bodyRead: nat,
    fullyRead: bool,
    headers: seq<(string, string)>,
    locked: bool,
    body: Option<string>,
    requestLine: Option<string>)

  /**
   * The counters fit an `unsigned`, and a chunk body, whose size the
   * unfinished chunk-size step always sets to 0, has read nothing.
   */
  predicate WellFormed(r: Reader) {
    r.bodySize < UintRange && r.bodyRead < UintRange &&
    (r.phase == ReadingChunkBody ==> r.bodySize == 0 && r.bodyRead == 0)
  }

  /** The bytes of the body part, or none while there is no body part. */
  function BodyText(b: Option<string>): (s: string)
    ensures b.None? ==> s == []
  {
    match b
    case Some(t) => t
    case None => []
  }

  // ---------------------------------------------------------------------
  // ProcessCurrentLine

  /** The header table once the pending header line is parsed into it, or None when it does not parse. */
  function StoreHeader(r: Reader): (h: Option<seq<(string, string)>>)
    requires Ordered(r.headers)
    ensures h.Some? ==> Ordered(h.value)
  {
    if r.headerLine == [] then Some(r.headers)
    else StoreLine(r.headers, r.locked, r.headerLine)
  }

  /** The table h once ParseHeaderLine has parsed l into it, with the table locked or not. */
  function StoreLine(h: seq<(string, string)>, locked: bool, l: string): (o: Option<seq<(string, string)>>)
    requires Ordered(h)
    ensures o.Some? ==> Ordered(o.value)
  {
    match ParseLine(l)
    case None => None
    case Some(nv) => Some(if locked then h else SetEntry(h, nv.0, nv.1, false))
  }

  /** strcasecmp(value.c_str(), "chunked") == 0. */
  predicate IsChunked(te: string) {
    EqualsIgnoreCase(CStr(te), "chunked")
  }

  /** The first line goes to ParseFirstLine, which succeeds on every line; the header block follows. */
  function FirstLineStep(r: Reader): (o: (bool, Reader))
  {
    (true, r.(phase := ReadingHeaders, headerLine := "", line := "", requestLine := Some(r.line)))
  }

  /** The chunk-size line is not parsed: the chunk is taken to be empty. */
  function ChunkSizeStep(r: Reader): (o: (bool, Reader))
  {
    (true, r.(bodySize := 0, bodyRead := 0, phase := ReadingChunkBody, line := ""))
  }

  /**
   * A line of the header block: a line starting with white space is folded
   * into the pending header (obs-fold, section 3.2.4 of RFC 7230); any
   * other line first stores the pending header, then becomes the pending
   * header itself or, when blank, ends the block.
   */
  function HeaderStep(r: Reader): (o: (bool, Reader))
    requires Ordered(r.headers)
    ensures Ordered(o.1.headers)
  {
    if r.line != [] && IsSpace(r.line[0]) then
      (true, r.(headerLine := r.headerLine + r.line, line := ""))
    else
      match StoreHeader(r)
      case None => (false, r)
      case Some(h) =>
        if r.line != [] then (true, r.(headers := h, headerLine := r.line, line := ""))
        else BlankLineStep(r.(headers := h, headerLine := ""))
  }

  /**
   * The blank line ending the header block: a body follows, or a chunk
   * size when Transfer-Encoding is "chunked" in any case; any other
   * Transfer-Encoding fails.
   */
  function BlankLineStep(r: Reader): (o: (bool, Reader))
  {
    var r1 := r.(bodySize := 0, bodyRead := 0);
    match Lookup(r.headers, "Transfer-Encoding")
    case None => (true, r1.(phase := ReadingBody, line := ""))
    case Some(te) =>
      if IsChunked(te) then (true, r1.(phase := ReadingChunkSize, line := ""))
      else (false, r1)
  }

  /**
   * ProcessCurrentLine on r.line: the result and the new state.  On a
   * failure the line is not cleared, and what was changed before the
   * failing step stays changed.
   */
  function LineStep(r: Reader): (o: (bool, Reader))
    requires Ordered(r.headers)
    ensures Ordered(o.1.headers)
  {
    match r.phase
    case ReadingFirstLine => FirstLineStep(r)
    case ReadingChunkSize => ChunkSizeStep(r)
    case ReadingHeaders => HeaderStep(r)
    case _ => (true, r.(line := ""))
  }

  // ---------------------------------------------------------------------
  // ProcessBodyData

  /** The size_t value of the int ContentLength returns: sign extension. */
  function SizeOf(n: Int32): (s: nat)
    ensures s < SizeRange
    ensures n >= 0 ==> s == n
    ensures n < 0 ==> s == n + SizeRange
  {
    if n < 0 then n + SizeRange else n
  }

  /**
   * ProcessBodyData on the bytes avail between pStart and pLast: the new
   * state and the number of bytes consumed.  The pointer comparison
   * pStart + currBodyLeft < pLast is a comparison of the two lengths.
   */
  function BodyStep(r: Reader, avail: string): (o: (Reader, nat))
    ensures o.1 <= |avail|
  {
    var contLength := if r.phase == ReadingBody then SizeOf(ContentLengthOf(r.headers)) else r.bodySize;
    var size := if r.phase == ReadingBody then contLength % UintRange else r.bodySize;
    var m := Consumed(contLength, r.bodyRead, |avail|);
    var read := (r.bodyRead + m) % UintRange;
    (r.(bodySize := size, bodyRead := read, body := BodyAppend(r.body, avail[..m]),
        fullyRead := r.fullyRead || BodyDone(r.phase, read, size)), m)
  }

  /**
   * The bytes consumed: currBodyLeft, the size_t difference of the body
   * length and the count read, but no more than are available.
   */
  function Consumed(contLength: nat, read: nat, avail: nat): (m: nat)
    ensures m <= avail
  {
    var left := (contLength - read) % SizeRange;
    if left < avail then left else avail
  }

  /** AppendToBody of the bytes, on a new body part when there is none; nothing when there are no bytes. */
  function BodyAppend(b: Option<string>, bytes: string): (o: Option<string>)
    ensures BodyText(o) == BodyText(b) + bytes
    ensures o.None? <==> b.None? && bytes == []
  {
    if |bytes| > 0 then Some(BodyText(b) + bytes) else b
  }

  /**
   * The body is complete: the count read reached the size, in a body whose
   * length is given by Content-Length, or in a chunk of size 0.
   */
  predicate BodyDone(p: Phase, read: nat, size: nat) {
    read == size && (p == ReadingBody || (p == ReadingChunkBody && size == 0))
  }

  // ---------------------------------------------------------------------
  // ProcessBytes

  predicate IsLineBreak(c: char) { c == CR || c == LF }

  /** The first CR or LF at or after p, or the end of the buffer. */
  function LineEnd(buf: string, p: nat): (e: nat)
    requires p <= |buf|
    ensures p <= e <= |buf|
    ensures forall k :: p <= k < e ==> !IsLineBreak(buf[k])
    ensures e < |buf| ==> IsLineBreak(buf[e])
    decreases |buf| - p
  {
    if p == |buf| || IsLineBreak(buf[p]) then p else LineEnd(buf, p + 1)
  }

  /**
   * Where the next line starts: one past an LF, two past a CR whatever
   * follows it, but no further than the end of the buffer.
   */
  function LineAdvance(buf: string, e: nat): (n: nat)
    requires e < |buf|
    ensures e < n <= |buf|
  {
    if buf[e] == CR then (if e + 2 <= |buf| then e + 2 else |buf|) else e + 1
  }

  /**
   * The loop of ProcessBytes as the source has it (AsWritten), and with
   * the scanning pointer moved past the body bytes that ProcessBodyData
   * consumed (Fixed).
   */
  datatype Variant = AsWritten | Fixed

  /** The result, the reader and where pStart is left; or Loops when the call never returns. */
  datatype Outcome = Done(ok: bool, reader: Reader, start: nat) | Loops

  /** ProcessBytes(pStart, pLast) on buf with pStart at p and pLast at the end of buf. */
  function Process(r: Reader, buf: string, p: nat, v: Variant): (o: Outcome)
    requires Ordered(r.headers)
    requires p <= |buf|
  {
    if p < |buf| then Scan(r, buf, p, v) else Done(false, r, p)
  }

  /** The loops of ProcessBytes from the scanning pointer p, with pStart at p too. */
  function Scan(r: Reader, buf: string, p: nat, v: Variant): (o: Outcome)
    requires Ordered(r.headers)
    requires p < |buf|
    decreases |buf| - p, 3
  {
    if ReadsLine(r.phase) then LineAt(r, buf, p, v) else BodyAt(r, buf, p, v)
  }

  /** A line from p: its bytes up to the next CR or LF are added to the line being collected. */
  function LineAt(r: Reader, buf: string, p: nat, v: Variant): (o: Outcome)
    requires Ordered(r.headers)
    requires p < |buf|
    decreases |buf| - p, 2
  {
    var e := LineEnd(buf, p);
    var r1 := r.(line := r.line + buf[p..e]);
    if e == |buf| then Done(true, r1, e) else LineDone(r1, buf, p, e, v)
  }

  /**
   * The line started at p ended at e: it is processed and the scan goes
   * on past its end, in the body branch when the reader now reads a body.
   */
  function LineDone(r: Reader, buf: string, p: nat, e: nat, v: Variant): (o: Outcome)
    requires Ordered(r.headers)
    requires p <= e < |buf|
    decreases |buf| - p, 1
  {
    var step := LineStep(r);
    if !step.0 then Done(false, step.1, p)
    else
      var next := LineAdvance(buf, e);
      if ReadsBody(step.1.phase) then BodyAt(step.1, buf, next, v)
      else if next < |buf| then Scan(step.1, buf, next, v)
      else Done(false, step.1, next)
  }

  /** The body branch of ProcessBytes with the scanning pointer at q. */
  function BodyAt(r: Reader, buf: string, q: nat, v: Variant): (o: Outcome)
    requires Ordered(r.headers)
    requires q <= |buf|
    decreases |buf| - q, 0
  {
    if v == AsWritten then BodyRounds(r, buf, q, UintRange)
    else
      var step := BodyStep(r, buf[q..]);
      if step.0.fullyRead then Done(true, step.0, q + step.1)
      else if q + step.1 == |buf| then Done(false, step.0, q + step.1)
      else if step.1 == 0 then Loops
      else Scan(step.0, buf, q + step.1, v)
  }

  /**
   * The body branch as written: the scanning pointer stays at q, so every
   * round after the first sets pStart back to q and hands ProcessBodyData
   * the same bytes again.  While the request is not fully read nothing else
   * changes between rounds but the unsigned count, so a call that has not
   * returned after 2^32 rounds repeats a state and never returns.
   */
  function BodyRounds(r: Reader, buf: string, q: nat, fuel: nat): (o: Outcome)
    requires Ordered(r.headers)
    requires q <= |buf|
    decreases fuel
  {
    var step := BodyStep(r, buf[q..]);
    if step.0.fullyRead then Done(true, step.0, q + step.1)
    else if q == |buf| then Done(false, step.0, q + step.1)
    else if fuel == 0 then Loops
    else BodyRounds(step.0, buf, q, fuel - 1)
  }

  // ---------------------------------------------------------------------
  // The reader object

  /** SHttpReaderState: the state of the reader and the request it is filling. */
  class ReaderState {
    var phase: Phase
    /** The pending header line, folded lines included. */
    var headerLine: string
    const request: Request
    var bodyPart: BodyPart?
    var bodySize: nat
    var bodyRead: nat
    /** The line being collected. */
    var line: string
    var fullyRead: bool
    /** The request line last given to ParseFirstLine since the last Reset. */
    ghost var requestLine: Option<string>

    /** The reader as a value. */
    ghost function Snapshot(): (r: Reader)
      reads this, request, request.message, request.message.headers, bodyPart
    {
      Reader(phase, headerLine, line, bodySize, bodyRead, fullyRead,
             request.message.headers.headers, request.message.headers.locked,
             if bodyPart == null then None else Some(bodyPart.data), requestLine)
    }

    ghost predicate Valid()
      reads this, request, request.message, request.message.headers, request.response,
        request.response.message, request.response.message.headers, bodyPart
    {
      request.Valid() && WellFormed(Snapshot())
    }

    /** SHttpReaderState(): empty lines, then Reset. */
    constructor ()
      ensures Valid() && fresh(request)
      ensures Snapshot() == Reader(ReadingFirstLine, "", "", 0, 0, false, DefaultHeaders, false, None, None)
    {
      request := new Request();
      headerLine := "";
      line := "";
      new;
      Reset();
    }

    /**
     * Reset: the first line is awaited again, with no body part, zero
     * counters and a reset request; the line and the pending header line
     * are kept as they were.
     */
    method Reset()
      requires request.Valid()
      modifies this, request.message, request.message.headers, request.response.message,
        request.response.message.headers, request.contentBody
      ensures Valid()
      ensures Snapshot() == Reader(ReadingFirstLine, old(headerLine), old(line), 0, 0, false, DefaultHeaders, false, None, None)
    {
      phase := ReadingFirstLine;
      bodyPart := null;
      bodySize := 0;
      bodyRead := 0;
      fullyRead := false;
      requestLine := None;
      request.Reset();
    }

    /** ProcessCurrentLine: the step LineStep describes, on the fields. */
    method ProcessCurrentLine() returns (ok: bool)
      requires Valid()
      modifies this, request, request.message, request.message.headers
      ensures Valid() && (ok, Snapshot()) == LineStep(old(Snapshot()))
      ensures bodyPart == old(bodyPart)
    {
      if phase == ReadingFirstLine {
        ok := ProcessFirstLine();
      } else if phase == ReadingChunkSize {
        bodySize, bodyRead := 0, 0;
        phase := ReadingChunkBody;
        line := "";
        ok := true;
      } else if phase == ReadingHeaders {
        ok := ProcessHeaderLine();
      } else {
        line := "";
        ok := true;
      }
    }

    /**
     * The first line goes to ParseFirstLine, which returns true on every
     * path and sets the request's method, target and version from the
     * line's three fields. The reader's own fields and the request are
     * disjoint, so entering the header block before the parse, rather
     * than after it, gives the same state.
     */
    method ProcessFirstLine() returns (ok: bool)
      requires Valid()
      modifies this, request, request.message
      ensures Valid() && (ok, Snapshot()) == FirstLineStep(old(Snapshot()))
      ensures bodyPart == old(bodyPart)
      ensures request.methodName == FirstLine(old(line)).0 && request.message.version == FirstLine(old(line)).2
      ensures request.HoldsTarget(FirstLine(old(line)).1, old(request.host))
    {
      var currLine := line;
      EnterHeaders();
      ghost var entered := Snapshot();
      ok := ParseRequestLine(currLine);
      assert Snapshot() == entered;
    }

    /** The state change after the first line: the pending header line is emptied and the header block begins. */
    method EnterHeaders()
      requires Valid()
      modifies this
      ensures Valid() && Snapshot() == FirstLineStep(old(Snapshot())).1
      ensures bodyPart == old(bodyPart)
    {
      requestLine := Some(line);
      headerLine := "";
      phase := ReadingHeaders;
      line := "";
    }

    /**
     * The request's ParseFirstLine on l, which sets the method, the
     * version and the target as Request.ParseFirstLine states; the reader
     * keeps only the line itself, as requestLine.
     */
    method ParseRequestLine(l: string) returns (ok: bool)
      requires request.Valid()
      modifies request, request.message
      ensures ok && request.Valid()
      ensures request.contentBody == old(request.contentBody)
      ensures request.message.bpCount == old(request.message.bpCount)
      ensures request.methodName == FirstLine(l).0 && request.message.version == FirstLine(l).2
      ensures request.HoldsTarget(FirstLine(l).1, old(request.host))
      ensures unchanged(request.message.headers) && (bodyPart != null ==> bodyPart.data == old(bodyPart.data))
    {
      // The reader and its body part are objects of other classes than the request and its message.
      ghost var part: object? := bodyPart;
      ghost var self: object := this;
      assert part != request && part != request.message && self != request && self != request.message;
      ok := request.ParseFirstLine(l);
    }

    /** A line in the header block: folded into the pending header, or it ends the pending header. */
    method ProcessHeaderLine() returns (ok: bool)
      requires Valid()
      modifies this, request.message.headers
      ensures Valid() && (ok, Snapshot()) == HeaderStep(old(Snapshot()))
      ensures bodyPart == old(bodyPart)
    {
      var currLine := line;
      if currLine != [] && IsSpace(currLine[0]) {
        headerLine := headerLine + currLine;
        line := "";
        return true;
      }
      ok := StorePending();
      if !ok {
        return;
      }
      if currLine == [] {
        ok := EndOfHeaders();
      } else {
        headerLine := currLine;
        line := "";
      }
    }

    /** The pending header line, when there is one, is parsed into the headers; then it is emptied. */
    method StorePending() returns (ok: bool)
      requires request.message.headers.Valid() && WellFormed(Snapshot())
      modifies this, request.message.headers
      ensures request.message.headers.Valid() && WellFormed(Snapshot()) && bodyPart == old(bodyPart)
      ensures ok == StoreHeader(old(Snapshot())).Some?
      ensures ok ==> Snapshot() == old(Snapshot()).(headers := StoreHeader(old(Snapshot())).value, headerLine := "")
      ensures !ok ==> Snapshot() == old(Snapshot())
    {
      if headerLine != [] {
        ghost var before := Snapshot();
        assert bodyPart == null || bodyPart as object != request.message.headers;
        ok := ParseInto(request.message.headers, headerLine);
        if ok {
          headerLine := "";
          assert Snapshot() == before.(headers := request.message.headers.headers, headerLine := "");
        } else {
          assert Snapshot() == before;
        }
      } else {
        ok := true;
      }
    }

    /** The table's ParseHeaderLine on l, seen through StoreLine. */
    static method ParseInto(t: HeaderTable, l: string) returns (ok: bool)
      requires t.Valid()
      modifies t
      ensures t.Valid() && t.locked == old(t.locked)
      ensures !ok ==> t.headers == old(t.headers)
      ensures StoreLine(old(t.headers), old(t.locked), l) == if ok then Some(t.headers) else None
    {
      var name, value;
      ok, name, value := t.ParseHeaderLine(l, "", "");
    }

    /** The blank line at the end of the header block. */
    method EndOfHeaders() returns (ok: bool)
      requires WellFormed(Snapshot())
      modifies this
      ensures WellFormed(Snapshot()) && (ok, Snapshot()) == BlankLineStep(old(Snapshot()))
      ensures bodyPart == old(bodyPart)
    {
      bodySize, bodyRead := 0, 0;
      var (found, te) := request.message.headers.HeaderIfExists("Transfer-Encoding", "");
      if found {
        if EqualsIgnoreCase(CStr(te), "chunked") {
          phase := ReadingChunkSize;
        } else {
          return false;
        }
      } else {
        phase := ReadingBody;
      }
      line := "";
      ok := true;
    }

    /**
     * ProcessBodyData on the bytes buf[q..]: the step BodyStep describes;
     * a body part is created for the first bytes, and once the body is
     * complete it becomes the request's content body.
     */
    method ProcessBodyData(buf: string, q: nat) returns (m: nat)
      requires Valid() && q <= |buf|
      modifies this, request, request.message, bodyPart
      ensures Valid() && (Snapshot(), m) == BodyStep(old(Snapshot()), buf[q..])
      ensures old(bodyPart) != null ==> bodyPart == old(bodyPart)
      ensures bodyPart != old(bodyPart) ==> fresh(bodyPart)
      ensures fullyRead && !old(fullyRead) ==> request.contentBody == bodyPart
    {
      var size;
      size, m := BodyCounts(buf, q);
      assert buf[q..][..m] == buf[q..q + m];
      AppendBodyBytes(buf[q..q + m]);
      UpdateCounts(size, m);
    }

    /** The body size and the bytes ProcessBodyData consumes from buf[q..]. */
    method BodyCounts(buf: string, q: nat) returns (size: nat, m: nat)
      requires Valid() && q <= |buf|
      ensures var o := BodyStep(Snapshot(), buf[q..]); size == o.0.bodySize && m == o.1
    {
      var contLength: nat;
      if phase == ReadingBody {
        var n := request.message.ContentLength();
        contLength := SizeOf(n);
        size := contLength % UintRange;
      } else {
        contLength := bodySize;
        size := bodySize;
      }
      m := Consumed(contLength, bodyRead, |buf| - q);
    }

    /** AppendToBody of the chunk, on a body part created for it when there is none yet. */
    method AppendBodyBytes(chunk: string)
      requires Valid()
      modifies request.message, bodyPart, `bodyPart
      ensures Valid() && Snapshot() == old(Snapshot()).(body := BodyAppend(old(Snapshot()).body, chunk))
      ensures old(bodyPart) != null ==> bodyPart == old(bodyPart)
      ensures bodyPart != old(bodyPart) ==> fresh(bodyPart)
    {
      if |chunk| > 0 {
        if bodyPart == null {
          bodyPart := request.message.NewBodyPart(Raw);
        }
        bodyPart.AppendToBody(chunk);
      }
    }

    /**
     * The counters after m more bytes of a body of the given size; a
     * complete body becomes the request's content body.
     */
    method UpdateCounts(size: nat, m: nat)
      requires Valid() && size < UintRange
      requires phase == ReadingChunkBody ==> size == 0 && m == 0
      modifies this, request
      ensures Valid()
      ensures Snapshot() == old(Snapshot()).(bodySize := size, bodyRead := (old(bodyRead) + m) % UintRange,
        fullyRead := old(fullyRead) || BodyDone(phase, (old(bodyRead) + m) % UintRange, size))
      ensures bodyPart == old(bodyPart)
      ensures BodyDone(phase, bodyRead, size) ==> request.contentBody == bodyPart
    {
      bodySize := size;
      bodyRead := (bodyRead + m) % UintRange;
      if BodyDone(phase, bodyRead, bodySize) {
        request.SetContentBody(bodyPart);
        fullyRead := true;
      }
    }

    /** The scan to the next CR or LF: the bytes before it are added to the line. */
    method ReadLine(buf: string, p: nat) returns (e: nat)
      requires Valid() && p <= |buf|
      modifies this
      ensures Valid() && e == LineEnd(buf, p)
      ensures Snapshot() == old(Snapshot()).(line := old(line) + buf[p..e])
      ensures bodyPart == old(bodyPart)
    {
      e := p;
      while e < |buf| && !IsLineBreak(buf[e])
        invariant p <= e <= |buf| && LineEnd(buf, e) == LineEnd(buf, p)
      {
        e := e + 1;
      }
      line := line + buf[p..e];
    }

    /**
     * One line of ProcessBytes from p: the line is collected and, when it
     * is complete, processed.  done: the call returns ok with pStart at
     * next; otherwise scanning goes on at next, with the body branch when
     * the reader now reads body data.
     */
    method LineRound(buf: string, p: nat) returns (done: bool, ok: bool, next: nat)
      requires Valid() && p < |buf| && ReadsLine(phase)
      modifies this, request, request.message, request.message.headers
      ensures Valid() && bodyPart == old(bodyPart)
      ensures done ==> LineAt(old(Snapshot()), buf, p, Fixed) == Done(ok, Snapshot(), next)
      ensures !done ==> p < next <= |buf|
      ensures !done && ReadsBody(phase) ==> LineAt(old(Snapshot()), buf, p, Fixed) == BodyAt(Snapshot(), buf, next, Fixed)
      ensures !done && !ReadsBody(phase) ==> LineAt(old(Snapshot()), buf, p, Fixed) == Process(Snapshot(), buf, next, Fixed)
    {
      var e := ReadLine(buf, p);
      if e == |buf| {
        return true, true, e;
      }
      ok := ProcessCurrentLine();
      if !ok {
        return true, false, p;
      }
      done, next := false, LineAdvance(buf, e);
    }

    /**
     * The body branch of ProcessBytes from q.  done: the call returns ok
     * with pStart at next (the body is complete, or the buffer is used
     * up); otherwise scanning goes on at next, past the bytes consumed.
     */
    method BodyRound(buf: string, q: nat) returns (done: bool, ok: bool, next: nat)
      requires Valid() && q <= |buf| && ReadsBody(phase)
      modifies this, request, request.message, bodyPart
      ensures Valid()
      ensures done ==> BodyAt(old(Snapshot()), buf, q, Fixed) == Done(ok, Snapshot(), next)
      ensures !done ==> q < next < |buf| && BodyAt(old(Snapshot()), buf, q, Fixed) == Process(Snapshot(), buf, next, Fixed)
      ensures old(bodyPart) != null ==> bodyPart == old(bodyPart)
      ensures bodyPart != old(bodyPart) ==> fresh(bodyPart)
    {
      BodyStepProgress(Snapshot(), buf[q..]);
      var m := ProcessBodyData(buf, q);
      next := q + m;
      FixedBodyAt(old(Snapshot()), buf, q, Snapshot(), m, next);
      done := fullyRead || next == |buf|;
      ok := fullyRead;
    }

    /**
     * ProcessBytes(pStart, pLast) on buf from p0, with the scanning
     * pointer moved past the body bytes each round consumes: the result
     * and where pStart is left, as Process states.
     */
    method ProcessBytes(buf: string, p0: nat) returns (ok: bool, start: nat)
      requires Valid() && p0 <= |buf|
      modifies this, request, request.message, request.message.headers, bodyPart
      ensures Valid()
      ensures Process(old(Snapshot()), buf, p0, Fixed) == Done(ok, Snapshot(), start)
      ensures old(bodyPart) != null ==> bodyPart == old(bodyPart)
      ensures bodyPart != old(bodyPart) ==> fresh(bodyPart)
    {
      ghost var goal := Process(Snapshot(), buf, p0, Fixed);
      var pCurr := p0;
      ok, start := false, p0;
      while pCurr < |buf|
        invariant Valid() && p0 <= pCurr <= |buf| && start == pCurr
        invariant goal == Process(Snapshot(), buf, pCurr, Fixed)
        invariant old(bodyPart) != null ==> bodyPart == old(bodyPart)
        invariant bodyPart != old(bodyPart) ==> fresh(bodyPart)
        decreases |buf| - pCurr
      {
        var done, next;
        if ReadsLine(phase) {
          done, ok, next := LineRound(buf, pCurr);
          if done {
            return ok, next;
          }
          pCurr, start := next, next;
          if !ReadsBody(phase) {
            continue;
          }
        }
        done, ok, next := BodyRound(buf, pCurr);
        if done {
          return ok, next;
        }
        pCurr, start := next, next;
      }
      ok := false;
    }

    /**
     * AssembleRequest: the request once ProcessBytes succeeds with the
     * request fully read, and null otherwise.
     */
    method AssembleRequest(buf: string, p: nat) returns (out: Request?, start: nat)
      requires Valid() && p <= |buf|
      modifies this, request, request.message, request.message.headers, bodyPart
      ensures Valid()
      ensures var o := Process(old(Snapshot()), buf, p, Fixed);
        o.Done? && o.reader == Snapshot() && o.start == start &&
        (out != null <==> o.ok && o.reader.fullyRead) && (out != null ==> out == request)
    {
      var ok;
      ok, start := ProcessBytes(buf, p);
      out := if ok && fullyRead then request else null;
    }
  }

  /**
   * A body round on bytes that are there either completes the request or
   * consumes at least one byte: the counters of a well-formed reader never
   * leave the scanning pointer stuck.
   */
  lemma {:induction false} BodyStepProgress(r: Reader, avail: string)
    requires WellFormed(r) && ReadsBody(r.phase)
    ensures var o := BodyStep(r, avail); WellFormed(o.0) && ReadsBody(o.0.phase)
    ensures var o := BodyStep(r, avail); |avail| > 0 && !o.0.fullyRead ==> o.1 > 0
  {
    var contLength := if r.phase == ReadingBody then SizeOf(ContentLengthOf(r.headers)) else r.bodySize;
    ConsumedNothing(contLength, r.bodyRead, |avail|);
    if contLength == r.bodyRead {
      assert contLength % UintRange == contLength;
    }
  }

  /** Nothing is consumed exactly when nothing is available or the count read has reached the length. */
  lemma {:induction false} ConsumedNothing(contLength: nat, read: nat, avail: nat)
    requires contLength < SizeRange && read < SizeRange
    ensures Consumed(contLength, read, avail) == 0 <==> avail == 0 || contLength == read
  {
    SizeDifference(contLength, read);
  }

  /**
   * In the body branch as fixed, a round that consumed m bytes into the
   * reader r1, and completed the body or consumed bytes, either returns,
   * with the body complete or the buffer used up, or scans on from n, past
   * the bytes consumed.
   */
  lemma {:induction false} FixedBodyAt(r: Reader, buf: string, q: nat, r1: Reader, m: nat, n: nat)
    requires Ordered(r.headers) && q <= |buf| && n == q + m
    requires (r1, m) == BodyStep(r, buf[q..])
    requires r1.fullyRead || q + m == |buf| || m > 0
    ensures n <= |buf| && Ordered(r1.headers)
    ensures BodyAt(r, buf, q, Fixed) ==
      if r1.fullyRead || n == |buf| then Done(r1.fullyRead, r1, n)
      else Process(r1, buf, n, Fixed)
  {
  }

  /** The size_t difference a - b of two size_t values. */
  lemma {:induction false} SizeDifference(a: nat, b: nat)
    requires a < SizeRange && b < SizeRange
    ensures (a - b) % SizeRange == if a >= b then a - b else a - b + SizeRange
  {
    if a >= b {
      assert 0 <= a - b < SizeRange;
    } else {
      assert (a - b) == (a - b + SizeRange) - SizeRange;
    }
  }
}

module ReaderStageProperties {
  import opened CText
  import opened SortedMap
  import opened Message
  import opened ReaderStage

  /** One round of ProcessBodyData with a Content-Length of len: min(len - bodyRead, |avail|) bytes are consumed. */
  lemma {:induction false} BodyStepWithLength(r: Reader, avail: string)
    requires r.phase == ReadingBody && WellFormed(r)
    requires 0 <= ContentLengthOf(r.headers) && r.bodyRead <= ContentLengthOf(r.headers)
    ensures var len := ContentLengthOf(r.headers) as nat;
      var k := len - r.bodyRead;
      var n := if k <= |avail| then k else |avail|;
      BodyStep(r, avail) ==
        (r.(bodySize := len, bodyRead := r.bodyRead + n, body := BodyAppend(r.body, avail[..n]),
            fullyRead := r.fullyRead || k <= |avail|), n)
  {
    var len := ContentLengthOf(r.headers) as nat;
    SizeDifference(len, r.bodyRead);
    assert len % UintRange == len;
  }

  /**
   * A line that has not ended when the buffer does is kept, whole, for the
   * next call: ProcessBytes returns true with pStart at the end.
   */
  lemma {:induction false} PartialLineKept(r: Reader, buf: string, p: nat, v: Variant)
    requires Ordered(r.headers) && ReadsLine(r.phase) && p < |buf|
    requires forall k :: p <= k < |buf| ==> !IsLineBreak(buf[k])
    ensures Process(r, buf, p, v) == Done(true, r.(line := r.line + buf[p..]), |buf|)
  {
    var e := LineEnd(buf, p);
    if e < |buf| {
      assert false;
    }
    assert Scan(r, buf, p, v) == LineAt(r, buf, p, v);
  }

  /**
   * The blank line ending a header block without Content-Length or
   * Transfer-Encoding completes the request at once, even when the buffer
   * ends with it.
   */
  lemma {:induction false} BlankLineCompletesBodilessRequest(r: Reader, buf: string, p: nat)
    requires Ordered(r.headers) && r.phase == ReadingHeaders && r.line == [] && r.headerLine == []
    requires "Transfer-Encoding" !in Keys(r.headers) && "Content-Length" !in Keys(r.headers)
    requires p < |buf| && IsLineBreak(buf[p])
    ensures var o := Process(r, buf, p, Fixed);
      o.Done? && o.ok && o.reader.fullyRead && o.reader.body == r.body && o.start == LineAdvance(buf, p)
  {
    assert LineEnd(buf, p) == p;
    assert buf[p..p] == [];
    assert r.(line := r.line + buf[p..p]) == r;
    assert StoreHeader(r) == Some(r.headers);
    var step := LineStep(r);
    assert step == (true, r.(bodySize := 0, bodyRead := 0, phase := ReadingBody));
    var next := LineAdvance(buf, p);
    assert Scan(r, buf, p, Fixed) == LineAt(r, buf, p, Fixed) == BodyAt(step.1, buf, next, Fixed);
    BodyStepWithLength(step.1, buf[next..]);
    var round := BodyStep(step.1, buf[next..]);
    FixedBodyAt(step.1, buf, next, round.0, round.1, next + round.1);
  }

  /**
   * The chunk-size line is not read: once it ends, the chunked body is
   * complete, with no bytes added to it.
   */
  lemma {:induction false} ChunkedBodyEndsAtFirstSizeLine(r: Reader, buf: string, p: nat)
    requires Ordered(r.headers) && r.phase == ReadingChunkSize && p < |buf|
    requires LineEnd(buf, p) < |buf|
    ensures var o := Process(r, buf, p, Fixed);
      o.Done? && o.ok && o.reader.fullyRead && o.reader.body == r.body &&
      o.start == LineAdvance(buf, LineEnd(buf, p))
  {
    var e := LineEnd(buf, p);
    var step := LineStep(r.(line := r.line + buf[p..e]));
    var next := LineAdvance(buf, e);
    assert step.0 && step.1.phase == ReadingChunkBody && step.1.bodySize == 0 && step.1.bodyRead == 0;
    assert Scan(r, buf, p, Fixed) == LineAt(r, buf, p, Fixed) == BodyAt(step.1, buf, next, Fixed);
    assert Consumed(0, 0, |buf| - next) == 0;
    assert buf[next..][..0] == [];
  }

  /**
   * The body branch as written hands ProcessBodyData the same bytes again
   * each round: with Content-Length 4 and "ab" in the buffer the body
   * becomes "abab" and the request is taken as complete, where consuming
   * the bytes once leaves "ab" read and the request waiting for more.
   */
  lemma {:induction false} BodyBytesReadTwice()
    ensures var r := Reader(ReadingBody, "", "", 0, 0, false, [("Content-Length", "4")], false, None, None);
      Process(r, "ab", 0, AsWritten) ==
        Done(true, r.(bodySize := 4, bodyRead := 4, body := Some("abab"), fullyRead := true), 2) &&
      Process(r, "ab", 0, Fixed) ==
        Done(false, r.(bodySize := 4, bodyRead := 2, body := Some("ab")), 2)
  {
    var r := Reader(ReadingBody, "", "", 0, 0, false, [("Content-Length", "4")], false, None, None);
    AtoiOfDecimal(4);
    assert IntToDecimal(4) == "4";
    assert ContentLengthOf(r.headers) == 4;
    var buf := "ab";
    assert buf[0..] == buf && buf[..2] == "ab";
    assert BodyText(None) == [];
    assert |"ab"| > 0;
    assert BodyAppend(None, "ab") == Some(BodyText(None) + "ab");
    assert BodyText(None) + "ab" == "ab";
    assert BodyText(Some("ab")) + "ab" == "abab";
    assert BodyAppend(None, "ab") == Some("ab") && BodyAppend(Some("ab"), "ab") == Some("abab");
    var s1 := BodyStep(r, buf);
    BodyStepWithLength(r, buf);
    assert s1 == (r.(bodySize := 4, bodyRead := 2, body := Some("ab")), 2);
    var s2 := BodyStep(s1.0, buf);
    BodyStepWithLength(s1.0, buf);
    assert s2 == (r.(bodySize := 4, bodyRead := 4, body := Some("abab"), fullyRead := true), 2);
    assert BodyRounds(s1.0, buf, 0, UintRange - 1) == Done(true, s2.0, 2);
    assert BodyRounds(r, buf, 0, UintRange) == Done(true, s2.0, 2);
    assert Scan(r, buf, 0, Fixed) == BodyAt(r, buf, 0, Fixed);
    FixedBodyAt(r, buf, 0, s1.0, 2, 2);
  }
}
