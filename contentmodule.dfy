/**
 * The content module of the output pipeline: it frames the parts of a
 * multipart response with the boundaries opened so far (a stack, innermost
 * first), closes them when the content ends, and keeps Content-Length in
 * step with the body of a single-part response.
 */
module ContentModule {
  import opened CText
  import opened SortedMap
  import opened Headers
  import opened BodyParts
  import opened Message
  import opened HttpModule

  // ---------------------------------------------------------------------
  // Delimiters (section 5.1.1 of RFC 2046)

  /** The close-delimiter of boundary b: CRLF "--" b "--". */
  function CloseDelimiter(b: string): (r: string)
    ensures |r| == |b| + 6 && r[..4] == CRLF + "--" && r[4..4 + |b|] == b && r[4 + |b|..] == "--"
  {
    CRLF + "--" + b + "--"
  }

  /** The close-delimiters of every open boundary, innermost first. */
  function CloseAll(bs: seq<string>): (r: string)
    decreases |bs|
  {
    if bs == [] then "" else CloseDelimiter(bs[0]) + CloseAll(bs[1..])
  }

  /** The text CloseAll leaves for the boundaries past the first k. */
  lemma {:induction false} CloseAllSplit(bs: seq<string>, k: nat)
    requires k < |bs|
    ensures CloseAll(bs[k..]) == CloseDelimiter(bs[k]) + CloseAll(bs[k + 1..])
  {
    assert bs[k..][1..] == bs[k + 1..];
  }

  /** What a data part of a multipart response is preceded by: the delimiter of b and its Content-Length. */
  function Preamble(b: string, size: nat): string {
    CRLF + "--" + b + CRLF + "Content-Length: " + NatToDecimal(size) + CRLF + CRLF
  }

  /** The fixed text a framed part begins with, up to the digits of its length. */
  function PreambleHead(b: string): string {
    CRLF + "--" + b + CRLF + "Content-Length: "
  }

  /**
   * Reading a framed part back: the delimiter of b, the Content-Length
   * line, a blank line, and then exactly as many bytes as that line says.
   */
  function FrameBody(frame: string, b: string): (r: Option<string>)
    ensures r.Some? ==> StartsWith(frame, PreambleHead(b)) && |r.value| < |frame| && r.value == frame[|frame| - |r.value|..]
  {
    var head := PreambleHead(b);
    if !StartsWith(frame, head) then None
    else
      var rest := frame[|head|..];
      var k := DigitRun(rest);
      if k == 0 || !StartsWith(rest[k..], CRLF + CRLF) then None
      else if |rest| - k - 4 == DigitsValue(rest[..k]) then Some(rest[k + 4..])
      else None
  }

  /** A framed part reads back as the body it framed: the Content-Length it carries is the body's size. */
  lemma {:induction false} FrameBodyOfPreamble(b: string, d: string)
    ensures FrameBody(Preamble(b, |d|) + d, b) == Some(d)
  {
    var head := PreambleHead(b);
    var digits := NatToDecimal(|d|);
    var tail := CRLF + CRLF + d;
    var frame := Preamble(b, |d|) + d;
    assert frame == head + (digits + tail);
    var rest := frame[|head|..];
    assert rest == digits + tail;
    DecimalIsDigitRun(|d|, tail);
    assert rest[..|digits|] == digits && rest[|digits|..] == tail;
    DigitsValueOfDecimal(|d|);
    assert rest[|digits| + 4..] == d;
  }

  // ---------------------------------------------------------------------
  // Handling one part

  /**
   * What the content module's handling depends on and changes: the
   * boundary stack, the response headers and the count its next sent
   * part is stamped with (nextBPToSend).
   */
  datatype ContentState = ContentState(boundaries: seq<string>, headers: seq<(string, string)>, sent: nat)

  /**
   * What handling reads but does not change while a queue drains: whether
   * the response headers are locked and whether the response is multipart.
   */
  datatype Env = Env(locked: bool, multipart: bool)

  /** The outcome of handling parts: the new state, the parts sent on, and whether a part met the empty stack. */
  datatype Step = Step(state: ContentState, emitted: seq<Part>, fault: bool)

  /** The Content-Length the response carries, by atoi, or -1 without one. */
  function CurrentLength(e: seq<(string, string)>): (r: int)
    ensures "Content-Length" !in Keys(e) ==> r == -1
    ensures "Content-Length" in Keys(e) ==> r == ContentLengthOf(e)
  {
    match Lookup(e, "Content-Length")
    case Some(v) => Atoi(v)
    case None => -1
  }

  /**
   * The headers after a single-part body of the given size: a positive
   * size that differs from the current Content-Length is set as the new
   * one (SetIntHeader, which a locked table ignores).
   */
  function SizedHeaders(e: seq<(string, string)>, locked: bool, size: Int32): (r: seq<(string, string)>)
    requires Ordered(e)
    ensures Ordered(r)
  {
    if size > 0 && size != CurrentLength(e) && !locked then SetEntry(e, "Content-Length", IntToDecimal(size), false)
    else e
  }

  /** Sending a part on: it is stamped with the count, which goes up by one. */
  function Send(st: ContentState, p: Part): (r: (ContentState, Part)) {
    (st.(sent := st.sent + 1), p.(index := st.sent))
  }

  /** A CLOSE_SUB_MESSAGE part: the innermost boundary is popped and its close-delimiter sent; none open, it is dropped. */
  function CloseStep(st: ContentState, p: Part): (r: Step) {
    if st.boundaries == [] then Step(st, [], false)
    else
      var s := Send(st.(boundaries := st.boundaries[1..]), Part(p.index, Raw, CloseDelimiter(st.boundaries[0])));
      Step(s.0, [s.1], false)
  }

  /** A finishing part: one part closing every open boundary, if any, then the finishing part itself. */
  function FinishStep(st: ContentState, p: Part): (r: Step) {
    if st.boundaries == [] then
      var s := Send(st, p);
      Step(s.0, [s.1], false)
    else
      var c := Send(st.(boundaries := []), Part(0, Raw, CloseAll(st.boundaries)));
      var s := Send(c.0, p);
      Step(s.0, [c.1, s.1], false)
  }

  /** A data part: framed in a multipart response (a fault with no boundary open), sized in a single-part one. */
  function DataStep(st: ContentState, env: Env, p: Part): (r: Step)
    requires Ordered(st.headers)
  {
    if env.multipart then
      if st.boundaries == [] then Step(st, [], true)
      else
        var s := Send(st, p.(data := Preamble(st.boundaries[0], |p.data|) + p.data));
        Step(s.0, [s.1], false)
    else
      var s := Send(st.(headers := SizedHeaders(st.headers, env.locked, WrapInt32(|p.data|))), p);
      Step(s.0, [s.1], false)
  }

  /** HandleBodyPart on one part released in order. */
  function Handle(st: ContentState, env: Env, p: Part): (r: Step)
    requires Ordered(st.headers)
    ensures Ordered(r.state.headers)
    ensures r.state.sent == st.sent + |r.emitted|
    ensures forall i :: 0 <= i < |r.emitted| ==> r.emitted[i].index == st.sent + i
    ensures r.fault ==> r.emitted == [] && r.state == st
  {
    if p.kind == OpenSubMessage then Step(st.(boundaries := [p.data] + st.boundaries), [], false)
    else if p.kind == CloseSubMessage then CloseStep(st, p)
    else if IsFinish(p) then FinishStep(st, p)
    else DataStep(st, env, p)
  }

  /** HandleBodyPart on each of the parts in turn. */
  function HandleAll(st: ContentState, env: Env, parts: seq<Part>): (r: Step)
    requires Ordered(st.headers)
    ensures Ordered(r.state.headers)
    decreases |parts|
  {
    if parts == [] then Step(st, [], false)
    else
      var h := HandleAll(st, env, parts[..|parts| - 1]);
      var s := Handle(h.state, env, parts[|parts| - 1]);
      Step(s.state, h.emitted + s.emitted, h.fault || s.fault)
  }

  /** Handling one more part extends the run by that part's step. */
  lemma {:induction false} HandleAllSnoc(st: ContentState, env: Env, parts: seq<Part>, p: Part)
    requires Ordered(st.headers)
    ensures var h := HandleAll(st, env, parts); var s := Handle(h.state, env, p);
      HandleAll(st, env, parts + [p]) == Step(s.state, h.emitted + s.emitted, h.fault || s.fault)
  {
    assert (parts + [p])[..|parts|] == parts;
  }

  // ---------------------------------------------------------------------
  // What handling promises

  /**
   * Opening a sub-message and then closing it leaves the stack as it was
   * and sends exactly the close-delimiter of the boundary opened.
   */
  lemma {:induction false} OpenThenClose(st: ContentState, env: Env, open: Part, close: Part)
    requires Ordered(st.headers) && open.kind == OpenSubMessage && close.kind == CloseSubMessage
    ensures var h := HandleAll(st, env, [open, close]);
      h.state == st.(sent := st.sent + 1) && h.emitted == [Part(st.sent, Raw, CloseDelimiter(open.data))] && !h.fault
  {
    assert [open, close][..1] == [open] && [open][..0] == [];
    var h1 := Handle(st, env, open);
    assert HandleAll(st, env, [open]) == Step(h1.state, [] + h1.emitted, false);
    assert h1.state.boundaries[1..] == st.boundaries;
  }

  /** A close with no open boundary is dropped: nothing is sent and nothing changes. */
  lemma {:induction false} UnmatchedCloseDropped(st: ContentState, env: Env, close: Part)
    requires Ordered(st.headers) && close.kind == CloseSubMessage && st.boundaries == []
    ensures Handle(st, env, close) == Step(st, [], false)
  {
  }

  /**
   * Finishing the content closes every open boundary, innermost first, in
   * one part sent before the finishing part itself; the stack ends empty.
   */
  lemma {:induction false} FinishClosesAll(st: ContentState, env: Env, p: Part)
    requires Ordered(st.headers) && IsFinish(p)
    ensures var h := Handle(st, env, p);
      h.state.boundaries == [] && !h.fault && h.emitted[|h.emitted| - 1] == p.(index := h.state.sent - 1)
      && (st.boundaries == [] <==> |h.emitted| == 1)
      && (st.boundaries != [] ==> h.emitted[0].data == CloseAll(st.boundaries) && h.emitted[0].kind == Raw)
  {
  }

  /** k CloseSubMessage parts. */
  function Closes(k: nat): (r: seq<Part>)
    ensures |r| == k && forall i :: 0 <= i < k ==> r[i] == Part(0, CloseSubMessage, "")
  {
    seq(k, _ => Part(0, CloseSubMessage, ""))
  }

  /** The bodies of the parts, one after another. */
  function Bodies(parts: seq<Part>): string
    decreases |parts|
  {
    if parts == [] then "" else Bodies(parts[..|parts| - 1]) + parts[|parts| - 1].data
  }

  /**
   * The part sent when content finishes holds what closing the open
   * boundaries one by one would have sent: k closes take the k innermost
   * boundaries off the stack and send their close-delimiters in order.
   */
  lemma {:induction false} ClosesMatchCloseAll(st: ContentState, env: Env, k: nat)
    requires Ordered(st.headers) && k <= |st.boundaries|
    ensures var h := HandleAll(st, env, Closes(k));
      h.state.boundaries == st.boundaries[k..] && Bodies(h.emitted) + CloseAll(st.boundaries[k..]) == CloseAll(st.boundaries)
    decreases k
  {
    var bs := st.boundaries;
    if k == 0 {
      assert Closes(0) == [] && bs[0..] == bs;
    } else {
      ClosesMatchCloseAll(st, env, k - 1);
      var h0 := HandleAll(st, env, Closes(k - 1));
      OneMoreClose(st, env, k - 1, h0);
      CloseAllSplit(bs, k - 1);
      Regroup(Bodies(h0.emitted), CloseDelimiter(bs[k - 1]), CloseAll(bs[k..]), CloseAll(bs));
    }
  }

  /** One more close sends the close-delimiter of the boundary on top of the stack. */
  lemma {:induction false} OneMoreClose(st: ContentState, env: Env, k: nat, h0: Step)
    requires Ordered(st.headers) && k < |st.boundaries|
    requires h0 == HandleAll(st, env, Closes(k)) && h0.state.boundaries == st.boundaries[k..]
    ensures var h := HandleAll(st, env, Closes(k + 1));
      h.state.boundaries == st.boundaries[k + 1..] && Bodies(h.emitted) == Bodies(h0.emitted) + CloseDelimiter(st.boundaries[k])
  {
    var ps := Closes(k + 1);
    assert ps[..k] == Closes(k);
    var s := Handle(h0.state, env, ps[k]);
    assert s.emitted == [Part(h0.state.sent, Raw, CloseDelimiter(st.boundaries[k]))];
    assert h0.state.boundaries[1..] == st.boundaries[k + 1..];
    var e := HandleAll(st, env, ps).emitted;
    assert e == h0.emitted + s.emitted;
    assert e[..|e| - 1] == h0.emitted;
  }

  /** Moving the middle piece of a concatenation from the right part to the left. */
  lemma {:induction false} Regroup(a: string, d: string, c: string, all: string)
    requires a + (d + c) == all
    ensures (a + d) + c == all
  {
    assert (a + d) + c == a + (d + c);
  }

  /**
   * A data part of a multipart response is framed with the innermost
   * boundary and its own size, and reads back as the original body; with
   * no boundary open, it is a fault and nothing is sent.
   */
  lemma {:induction false} MultipartFraming(st: ContentState, env: Env, p: Part)
    requires Ordered(st.headers) && env.multipart
    requires p.kind != OpenSubMessage && p.kind != CloseSubMessage && !IsFinish(p)
    ensures var h := Handle(st, env, p);
      (h.fault <==> st.boundaries == [])
      && (st.boundaries != [] ==>
            |h.emitted| == 1 && StartsWith(h.emitted[0].data, PreambleHead(st.boundaries[0]))
            && FrameBody(h.emitted[0].data, st.boundaries[0]) == Some(p.data)
            && h.state == st.(sent := st.sent + 1))
  {
    if st.boundaries != [] {
      FrameBodyOfPreamble(st.boundaries[0], p.data);
    }
  }

  /**
   * In a single-part response the body goes on unchanged; when it is not
   * empty, fits an int and the table is not locked, the Content-Length
   * header reads back as its size afterwards, and no other header changes.
   */
  lemma {:induction false} SinglePartLength(st: ContentState, env: Env, p: Part)
    requires Ordered(st.headers) && !env.multipart
    requires p.kind != OpenSubMessage && p.kind != CloseSubMessage && !IsFinish(p)
    ensures var h := Handle(st, env, p);
      h.emitted == [p.(index := st.sent)] && !h.fault && h.state.boundaries == st.boundaries
      && (0 < |p.data| < 0x8000_0000 && !env.locked ==> ContentLengthOf(h.state.headers) == |p.data|)
      && (forall k :: k != "Content-Length" ==> Lookup(h.state.headers, k) == Lookup(st.headers, k))
      && (p.data == [] || env.locked ==> h.state.headers == st.headers)
  {
    var size := WrapInt32(|p.data|);
    if size > 0 && !env.locked {
      if size != CurrentLength(st.headers) {
        ContentLengthReadsBack(st.headers, size);
      }
    }
  }

  /** Over any parts, the parts sent carry the consecutive indices from the count, which ends past them. */
  lemma {:induction false} SentInOrder(st: ContentState, env: Env, parts: seq<Part>)
    requires Ordered(st.headers)
    ensures var h := HandleAll(st, env, parts);
      (forall i :: 0 <= i < |h.emitted| ==> h.emitted[i].index == st.sent + i) && h.state.sent == st.sent + |h.emitted|
    decreases |parts|
  {
    if parts != [] {
      var h0 := HandleAll(st, env, parts[..|parts| - 1]);
      SentInOrder(st, env, parts[..|parts| - 1]);
      var s := Handle(h0.state, env, parts[|parts| - 1]);
      var h := HandleAll(st, env, parts);
      assert h.emitted == h0.emitted + s.emitted;
      forall i | 0 <= i < |h.emitted| ensures h.emitted[i].index == st.sent + i {
        if i >= |h0.emitted| {
          assert h.emitted[i] == s.emitted[i - |h0.emitted|];
        } else {
          assert h.emitted[i] == h0.emitted[i];
        }
      }
    }
  }

  // ---------------------------------------------------------------------
  // SContentModuleData and SContentModule

  /** The module data of the content module: the common module data and the boundary stack. */
  class ContentModuleData {
    const base: ModuleData
    /** The boundaries opened so far, innermost first. */
    var boundaries: seq<string>

    constructor ()
      ensures fresh(base) && base.Valid() && boundaries == []
      ensures base.nextBP == 0 && base.nextBPToSend == 0 && !base.processing && base.bodyParts == []
    {
      base := new ModuleData();
      boundaries := [];
    }

    /** Reset: the common reset, and the stack is cleared. */
    method Reset()
      modifies this, base
      ensures boundaries == [] && base.nextBP == 0 && base.nextBPToSend == 0 && !base.processing
      ensures base.bodyParts == old(base.bodyParts)
    {
      base.Reset();
      boundaries := [];
    }
  }

  /** The state Handle works on, read from the module data and the response headers. */
  function StateOf(md: ContentModuleData, headers: HeaderTable): (st: ContentState)
    reads md, md.base, headers
    ensures st.boundaries == md.boundaries && st.headers == headers.headers && st.sent == md.base.nextBPToSend
  {
    ContentState(md.boundaries, headers.headers, md.base.nextBPToSend)
  }

  /** The environment Handle reads from the response headers. */
  function EnvOf(headers: HeaderTable): (env: Env)
    reads headers
    ensures env.locked == headers.locked && env.multipart == IsMultipartOf(headers.headers)
  {
    Env(headers.locked, IsMultipartOf(headers.headers))
  }

  /** The CLOSE_SUB_MESSAGE branch of HandleBodyPart. */
  method HandleClose(md: ContentModuleData, headers: HeaderTable, p: Part) returns (sent: seq<Part>)
    modifies md, md.base
    ensures md.base.nextBP == old(md.base.nextBP) && md.base.bodyParts == old(md.base.bodyParts)
    ensures md.base.processing == old(md.base.processing)
    ensures var h := CloseStep(old(StateOf(md, headers)), p); StateOf(md, headers) == h.state && sent == h.emitted
  {
    sent := [];
    if md.boundaries != [] {
      var b := md.boundaries[0];
      md.boundaries := md.boundaries[1..];
      var out := SendBodyPartToModule(md.base, Some(Part(p.index, Raw, CloseDelimiter(b))));
      sent := [out.value];
    }
  }

  /** The CLOSE_CONNECTION / CONTENT_FINISHED branch of HandleBodyPart. */
  method HandleFinish(md: ContentModuleData, headers: HeaderTable, p: Part) returns (sent: seq<Part>)
    modifies md, md.base
    ensures md.base.nextBP == old(md.base.nextBP) && md.base.bodyParts == old(md.base.bodyParts)
    ensures md.base.processing == old(md.base.processing)
    ensures var h := FinishStep(old(StateOf(md, headers)), p); StateOf(md, headers) == h.state && sent == h.emitted
  {
    sent := [];
    if md.boundaries != [] {
      ghost var all := md.boundaries;
      var closer := "";
      while md.boundaries != []
        invariant closer + CloseAll(md.boundaries) == CloseAll(all)
        modifies md
        decreases |md.boundaries|
      {
        var b := md.boundaries[0];
        assert CloseAll(md.boundaries) == CloseDelimiter(b) + CloseAll(md.boundaries[1..]);
        md.boundaries := md.boundaries[1..];
        closer := closer + CloseDelimiter(b);
      }
      assert closer == CloseAll(all);
      var out := SendBodyPartToModule(md.base, Some(Part(0, Raw, closer)));
      sent := [out.value];
    }
    var out := SendBodyPartToModule(md.base, Some(p));
    sent := sent + [out.value];
  }

  /** The data branch of HandleBodyPart in a multipart response. */
  method HandleMultipartData(md: ContentModuleData, headers: HeaderTable, p: Part) returns (sent: seq<Part>, fault: bool)
    requires headers.Valid()
    modifies md.base
    ensures md.base.nextBP == old(md.base.nextBP) && md.base.bodyParts == old(md.base.bodyParts)
    ensures md.base.processing == old(md.base.processing)
    ensures var h := DataStep(old(StateOf(md, headers)), Env(headers.locked, true), p);
      StateOf(md, headers) == h.state && sent == h.emitted && fault == h.fault
  {
    sent, fault := [], false;
    if md.boundaries == [] {
      fault := true;
    } else {
      var framed := p.(data := Preamble(md.boundaries[0], |p.data|) + p.data);
      var out := SendBodyPartToModule(md.base, Some(framed));
      sent := [out.value];
    }
  }

  /** The data branch of HandleBodyPart in a single-part response. */
  method HandleSinglePartData(md: ContentModuleData, headers: HeaderTable, p: Part) returns (sent: seq<Part>)
    requires headers.Valid()
    modifies md.base, headers
    ensures headers.Valid() && headers.locked == old(headers.locked) && headers.closeConnection == old(headers.closeConnection)
    ensures headers.headers == SizedHeaders(old(headers.headers), old(headers.locked), WrapInt32(|p.data|))
    ensures md.base.nextBPToSend == old(md.base.nextBPToSend) + 1 && sent == [p.(index := old(md.base.nextBPToSend))]
    ensures md.base.nextBP == old(md.base.nextBP) && md.base.bodyParts == old(md.base.bodyParts)
    ensures md.base.processing == old(md.base.processing)
  {
    var size := WrapInt32(|p.data|);
    if size > 0 {
      var found := headers.HeaderIfExists("Content-Length", "");
      var contLength := if found.0 then Atoi(found.1) else -1;
      assert contLength == CurrentLength(headers.headers);
      if size != contLength {
        OtherNameIsNotClose("Content-Length", IntToDecimal(size));
        headers.SetIntHeader("Content-Length", size);
      }
    }
    var out := SendBodyPartToModule(md.base, Some(p));
    sent := [out.value];
  }

  /** Setting Content-Length leaves the Content-Type, and so the multipart test, as it was. */
  lemma {:induction false} SizedHeadersKeepMultipart(e: seq<(string, string)>, locked: bool, size: Int32)
    requires Ordered(e)
    ensures IsMultipartOf(SizedHeaders(e, locked, size)) == IsMultipartOf(e)
  {
    var r := SizedHeaders(e, locked, size);
    assert Lookup(r, "Content-Type") == Lookup(e, "Content-Type");
  }

  /** SContentModule::HandleBodyPart. */
  method HandleBodyPart(md: ContentModuleData, headers: HeaderTable, p: Part) returns (sent: seq<Part>, fault: bool)
    requires headers.Valid()
    modifies md, md.base, headers
    ensures headers.Valid() && EnvOf(headers) == old(EnvOf(headers)) && headers.closeConnection == old(headers.closeConnection)
    ensures md.base.nextBP == old(md.base.nextBP) && md.base.bodyParts == old(md.base.bodyParts)
    ensures md.base.processing == old(md.base.processing)
    ensures var h := Handle(old(StateOf(md, headers)), old(EnvOf(headers)), p);
      StateOf(md, headers) == h.state && sent == h.emitted && fault == h.fault
  {
    sent, fault := [], false;
    if p.kind == OpenSubMessage {
      md.boundaries := [p.data] + md.boundaries;
    } else if p.kind == CloseSubMessage {
      sent := HandleClose(md, headers, p);
    } else if IsFinish(p) {
      sent := HandleFinish(md, headers, p);
    } else if IsMultipartOf(headers.headers) {
      sent, fault := HandleMultipartData(md, headers, p);
    } else {
      SizedHeadersKeepMultipart(headers.headers, headers.locked, WrapInt32(|p.data|));
      sent := HandleSinglePartData(md, headers, p);
    }
  }

  /**
   * SContentModule::ProcessOutput: while the module is already processing,
   * nothing happens; a NULL part is sent on as it is; otherwise the part
   * is queued and every part the queue then releases, in index order, is
   * handled. The processing flag is as it was on exit.
   */
  method ProcessOutput(md: ContentModuleData, headers: HeaderTable, part: Option<Part>) returns (sent: seq<Part>, forwardedNull: bool)
    requires md.base.Valid() && headers.Valid()
    modifies md, md.base, headers
    ensures md.base.Valid() && headers.Valid() && md.base.processing == old(md.base.processing)
    ensures headers.locked == old(headers.locked) && headers.closeConnection == old(headers.closeConnection)
    ensures old(md.base.processing) || part.None? ==>
      sent == [] && StateOf(md, headers) == old(StateOf(md, headers))
      && md.base.bodyParts == old(md.base.bodyParts) && md.base.nextBP == old(md.base.nextBP)
    ensures forwardedNull <==> !old(md.base.processing) && part.None?
    ensures !old(md.base.processing) && part.Some? ==>
      var d := Drained(Enqueue(old(md.base.bodyParts), part.value), old(md.base.nextBP));
      var h := HandleAll(old(StateOf(md, headers)), old(EnvOf(headers)), d.0);
      md.base.bodyParts == d.1 && md.base.nextBP == d.2 && StateOf(md, headers) == h.state && sent == h.emitted
  {
    sent, forwardedNull := [], false;
    if md.base.processing {
      return;
    }
    md.base.SetProcessing(true);
    if part.None? {
      var _ := SendBodyPartToModule(md.base, None);
      forwardedNull := true;
    } else {
      sent := DrainQueue(md, headers, part.value);
    }
    md.base.SetProcessing(false);
  }

  /** The drain loop of ProcessOutput: queue the part, then handle every part released. */
  method DrainQueue(md: ContentModuleData, headers: HeaderTable, part: Part) returns (sent: seq<Part>)
    requires md.base.Valid() && headers.Valid() && md.base.processing
    modifies md, md.base, headers
    ensures md.base.Valid() && headers.Valid() && md.base.processing
    ensures headers.locked == old(headers.locked) && headers.closeConnection == old(headers.closeConnection)
    ensures var d := Drained(Enqueue(old(md.base.bodyParts), part), old(md.base.nextBP));
      var h := HandleAll(old(StateOf(md, headers)), old(EnvOf(headers)), d.0);
      md.base.bodyParts == d.1 && md.base.nextBP == d.2 && StateOf(md, headers) == h.state && sent == h.emitted
  {
    ghost var q0 := Enqueue(md.base.bodyParts, part);
    ghost var n0 := md.base.nextBP;
    ghost var s0 := StateOf(md, headers);
    ghost var env := EnvOf(headers);
    PendingStart(q0, n0);
    sent := [];
    var out := md.base.PutAndGetBodyPart(Some(part));
    ghost var done: seq<Part> := [];
    while out.Some?
      invariant md.base.Valid() && headers.Valid() && md.base.processing
      invariant EnvOf(headers) == env && headers.closeConnection == old(headers.closeConnection)
      invariant Drained(q0, n0) == Pending(done, out, md.base.bodyParts, md.base.nextBP)
      invariant HandleAll(s0, env, done).state == StateOf(md, headers)
      invariant HandleAll(s0, env, done).emitted == sent
      decreases |md.base.bodyParts| + (if out.Some? then 1 else 0)
    {
      PendingStep(done, out.value, md.base.bodyParts, md.base.nextBP);
      HandleAllSnoc(s0, env, done, out.value);
      var s, _ := HandleBodyPart(md, headers, out.value);
      done := done + [out.value];
      sent := sent + s;
      out := md.base.NextBodyPart();
    }
  }
}
