/**
 * The answer an HTTP module gives a request: a status, the Content-Length,
 * Content-Type and (for a directory listing) Cache-Control headers, an
 * optional body part, and the CONTENT_FINISHED part that ends the reply.
 * SFileModule and SBayeuxModule answer this way.
 */
module Replies {
  import opened CText
  import opened SortedMap
  import opened Headers
  import opened BodyParts
  import opened Message
  import opened Response

  /** What a module sets: an optional status, the three headers, and the body part's bytes if one is sent. */
  datatype Reply = Reply(status: Option<(int, string)>, length: Int32, contentType: string, noCache: bool, body: Option<string>)

  /** The headers a reply sets on an unlocked table, in the order the modules set them. */
  function ReplyHeaders(e: seq<(string, string)>, r: Reply): seq<(string, string)>
    requires Ordered(e)
  {
    var withLength := SetEntry(e, "Content-Length", IntToDecimal(r.length), false);
    var withType := SetEntry(withLength, "Content-Type", r.contentType, false);
    if r.noCache then SetEntry(withType, "Cache-Control", "no-cache", false) else withType
  }

  /** The reply's headers read back: the three it sets, every other name untouched. */
  lemma {:induction false} ReplyHeadersRead(e: seq<(string, string)>, r: Reply)
    requires Ordered(e)
    ensures var h := ReplyHeaders(e, r);
      Lookup(h, "Content-Length") == Some(IntToDecimal(r.length)) &&
      Lookup(h, "Content-Type") == Some(r.contentType) &&
      Lookup(h, "Cache-Control") == (if r.noCache then Some("no-cache") else Lookup(e, "Cache-Control")) &&
      (forall k :: k != "Content-Length" && k != "Content-Type" && k != "Cache-Control" ==> Lookup(h, k) == Lookup(e, k))
  {
  }

  /** What answering changes in the response: the status, the headers and the part count. */
  datatype ResponseState = ResponseState(
    statusCode: int, statusMessage: string,
    headers: seq<(string, string)>, locked: bool, closeConnection: bool,
    bpCount: nat, version: string)

  function StateOf(response: Response): ResponseState
    reads response, response.message, response.message.headers
  {
    var m := response.message;
    ResponseState(response.statusCode, response.statusMessage,
                  m.headers.headers, m.headers.locked, m.headers.closeConnection, m.bpCount, m.version)
  }

  /**
   * The response after a reply: the status when the reply has one, the
   * reply's headers unless the table is locked, and one part number for
   * the body (if any) and one for CONTENT_FINISHED; the close flag, the
   * lock and the version stay.
   */
  function Answered(s: ResponseState, r: Reply): (t: ResponseState)
    requires Ordered(s.headers)
    ensures t.locked == s.locked && t.closeConnection == s.closeConnection && t.version == s.version
    ensures t.bpCount == s.bpCount + |AnswerParts(s.bpCount, r)|
  {
    s.(statusCode := if r.status.Some? then r.status.value.0 else s.statusCode,
       statusMessage := if r.status.Some? then r.status.value.1 else s.statusMessage,
       headers := if s.locked then s.headers else ReplyHeaders(s.headers, r),
       bpCount := s.bpCount + (if r.body.Some? then 2 else 1))
  }

  /** The parts sent: the body, numbered first, then CONTENT_FINISHED. */
  function AnswerParts(bpCount: nat, r: Reply): (parts: seq<Part>) {
    if r.body.Some? then [Part(bpCount, Raw, r.body.value), Part(bpCount + 1, ContentFinished, "")]
    else [Part(bpCount, ContentFinished, "")]
  }

  /**
   * Every reply ends with a CONTENT_FINISHED part, after the body part
   * when there is one, and the parts carry consecutive numbers.
   */
  lemma {:induction false} AnswerEndsWithFinish(bpCount: nat, r: Reply)
    ensures var parts := AnswerParts(bpCount, r);
      |parts| >= 1 && parts[|parts| - 1].kind == ContentFinished &&
      (forall i :: 0 <= i < |parts| - 1 ==> parts[i].kind == Raw && parts[i].data == r.body.value) &&
      (|parts| == 2 <==> r.body.Some?) &&
      (forall i :: 0 <= i < |parts| ==> parts[i].index == bpCount + i)
  {
  }

  /**
   * The steps of answering: a body part is created when there is a
   * body, the status, Content-Length, Content-Type and
   * Cache-Control are set, the body is filled in, and the part and a
   * CONTENT_FINISHED part are sent.
   */
  method Answer(response: Response, r: Reply) returns (sent: seq<Part>)
    requires response.Valid()
    modifies response, response.message, response.message.headers
    ensures response.Valid()
    ensures StateOf(response) == Answered(old(StateOf(response)), r)
    ensures sent == AnswerParts(old(response.message.bpCount), r)
  {
    if r.body.Some? {
      sent := AnswerWithBody(response, r);
    } else {
      sent := AnswerWithoutBody(response, r);
    }
  }

  /** A reply with a body: the raw part is created before the head is set. */
  method AnswerWithBody(response: Response, r: Reply) returns (sent: seq<Part>)
    requires response.Valid() && r.body.Some?
    modifies response, response.message, response.message.headers
    ensures response.Valid()
    ensures StateOf(response) == Answered(old(StateOf(response)), r)
    ensures sent == AnswerParts(old(response.message.bpCount), r)
  {
    var part := NewRawPart(response.message, r.body.value);
    AnswerHead(response, r);
    var last := FinishPart(response.message);
    sent := [part, last];
  }

  /** A reply without a body: the head, then CONTENT_FINISHED. */
  method AnswerWithoutBody(response: Response, r: Reply) returns (sent: seq<Part>)
    requires response.Valid() && r.body.None?
    modifies response, response.message, response.message.headers
    ensures response.Valid()
    ensures StateOf(response) == Answered(old(StateOf(response)), r)
    ensures sent == AnswerParts(old(response.message.bpCount), r)
  {
    AnswerHead(response, r);
    var last := FinishPart(response.message);
    sent := [last];
  }

  /** The status, when the reply has one, then the reply's headers. */
  method AnswerHead(response: Response, r: Reply)
    requires response.Valid()
    modifies response, response.message.headers
    ensures response.Valid()
    ensures StateOf(response) == old(StateOf(response)).(
      statusCode := if r.status.Some? then r.status.value.0 else old(response.statusCode),
      statusMessage := if r.status.Some? then r.status.value.1 else old(response.statusMessage),
      headers := if old(response.message.headers.locked) then old(response.message.headers.headers)
                 else ReplyHeaders(old(response.message.headers.headers), r))
  {
    if r.status.Some? {
      response.SetStatus(r.status.value.0, r.status.value.1);
    }
    SetReplyHeaders(response.message.headers, r);
  }

  /** NewBodyPart() and SetBody(data): a raw part holding data, numbered by the message. */
  method NewRawPart(message: Message, data: string) returns (part: Part)
    modifies message
    ensures part == Part(old(message.bpCount), Raw, data)
    ensures message.bpCount == old(message.bpCount) + 1 && message.version == old(message.version)
  {
    var p := message.NewBodyPart(Raw);
    p.SetBody(data);
    part := p.Value();
  }

  /** NewBodyPart(CONTENT_FINISHED): the empty part that ends the reply. */
  method FinishPart(message: Message) returns (part: Part)
    modifies message
    ensures part == Part(old(message.bpCount), ContentFinished, "")
    ensures message.bpCount == old(message.bpCount) + 1 && message.version == old(message.version)
  {
    var p := message.NewBodyPart(ContentFinished);
    part := p.Value();
  }

  /** Content-Length, Content-Type and, for a listing, Cache-Control, in that order. */
  method SetReplyHeaders(headers: HeaderTable, r: Reply)
    requires headers.Valid()
    modifies headers
    ensures headers.Valid()
    ensures headers.headers == (if old(headers.locked) then old(headers.headers) else ReplyHeaders(old(headers.headers), r))
    ensures headers.locked == old(headers.locked) && headers.closeConnection == old(headers.closeConnection)
  {
    ghost var e0 := headers.headers;
    OtherNameIsNotClose("Content-Length", IntToDecimal(r.length));
    headers.SetIntHeader("Content-Length", r.length);
    ghost var e1 := headers.headers;
    assert !headers.locked ==> e1 == SetEntry(e0, "Content-Length", IntToDecimal(r.length), false);
    OtherNameIsNotClose("Content-Type", r.contentType);
    headers.SetHeader("Content-Type", r.contentType, false);
    assert !headers.locked ==> headers.headers == SetEntry(e1, "Content-Type", r.contentType, false);
    if r.noCache {
      ghost var e2 := headers.headers;
      OtherNameIsNotClose("Cache-Control", "no-cache");
      headers.SetHeader("Cache-Control", "no-cache", false);
      assert !headers.locked ==> headers.headers == SetEntry(e2, "Cache-Control", "no-cache", false);
    }
  }
}
