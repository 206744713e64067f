/**
 * SHttpMessage: what requests and responses share, a version, a header
 * table and the counter that numbers the message's body parts.
 */
module Message {
  import opened CText
  import opened SortedMap
  import opened Headers
  import opened BodyParts

  /** The headers of a new or reset message: only "Content-Type: text/html". */
  const DefaultHeaders: seq<(string, string)> := [("Content-Type", "text/html")]

  /** "Content-Type: text/html" is not "Connection: close": setting it never raises the close flag. */
  lemma ContentTypeIsNotClose()
    ensures !IsCloseHeader("Content-Type", "text/html")
  {
    CStrOfPlain("Content-Type");
  }

  /** ContentLength: atoi of the Content-Length header, or 0 without one. */
  function ContentLengthOf(e: seq<(string, string)>): (r: Int32)
    ensures "Content-Length" !in Keys(e) ==> r == 0
  {
    match Lookup(e, "Content-Length")
    case Some(v) => Atoi(v)
    case None => 0
  }

  /** A Content-Length set with SetIntHeader reads back as the same number. */
  lemma {:induction false} ContentLengthReadsBack(e: seq<(string, string)>, n: Int32)
    requires Ordered(e)
    ensures ContentLengthOf(SetEntry(e, "Content-Length", IntToDecimal(n), false)) == n
  {
    IntHeaderReadsBack(e, "Content-Length", n);
  }

  /** IsMultipart: the Content-Type, or "" without one, starts with "multipart". */
  predicate IsMultipartOf(e: seq<(string, string)>) {
    var hdr := match Lookup(e, "Content-Type") case Some(v) => v case None => "";
    StrnEqual("multipart", CStr(hdr), 9)
  }

  /** A message is multipart exactly when its Content-Type begins with the 9 characters "multipart". */
  lemma {:induction false} MultipartIsPrefix(e: seq<(string, string)>)
    ensures IsMultipartOf(e) <==> "Content-Type" in Keys(e) && StartsWith(CStr(Lookup(e, "Content-Type").value), "multipart")
  {
    var hdr := match Lookup(e, "Content-Type") case Some(v) => v case None => "";
    StrnEqualIsPrefix("multipart", CStr(hdr));
  }

  /** The default "text/html" message is not multipart. */
  lemma DefaultIsSinglePart()
    ensures !IsMultipartOf(DefaultHeaders)
  {
    MultipartIsPrefix(DefaultHeaders);
    CStrOfPlain("text/html");
  }

  /** ReadMessageBody: the base message reads no body. */
  function ReadMessageBody(): bool {
    false
  }

  /**
   * ReadFromStream: the first line, then the headers, then the body, each
   * only when the one before succeeded; since no body is ever read, this is
   * never true.
   */
  function ReadFromStream(readFirstLine: bool, readHeaders: bool): (r: bool)
    ensures !r
  {
    readFirstLine && readHeaders && ReadMessageBody()
  }

  class Message {
    /** The protocol version, e.g. "HTTP/1.1". */
    var version: string
    const headers: HeaderTable
    /** The number of body parts this message has created. */
    var bpCount: nat

    predicate Valid()
      reads this, headers
    {
      headers.Valid()
    }

    /** SHttpMessage(): version HTTP/1.1, no body parts, Content-Type text/html. */
    constructor ()
      ensures Valid() && fresh(headers)
      ensures version == "HTTP/1.1" && bpCount == 0
      ensures headers.headers == DefaultHeaders && !headers.locked && !headers.closeConnection
    {
      version := "HTTP/1.1";
      bpCount := 0;
      var h := new HeaderTable();
      ContentTypeIsNotClose();
      h.SetHeader("Content-Type", "text/html", false);
      headers := h;
    }

    /** Reset: the headers are cleared first, then the state of a new message is restored. */
    method Reset()
      requires Valid()
      modifies this, headers
      ensures Valid()
      ensures version == "HTTP/1.1" && bpCount == 0
      ensures headers.headers == DefaultHeaders && !headers.locked && !headers.closeConnection
    {
      headers.Reset();
      version := "HTTP/1.1";
      bpCount := 0;
      ContentTypeIsNotClose();
      headers.SetHeader("Content-Type", "text/html", false);
    }

    /** NewBodyPart(type): a new empty part numbered with the count so far, which then grows by one. */
    method NewBodyPart(kind: PartType) returns (p: BodyPart)
      modifies this
      ensures fresh(p) && p.index == old(bpCount) && p.kind == kind && p.data == [] && p.bytesWritten == 0
      ensures bpCount == old(bpCount) + 1 && version == old(version)
    {
      p := new BodyPart(bpCount, kind);
      bpCount := bpCount + 1;
    }

    /** SetVersion. */
    method SetVersion(v: string)
      modifies this
      ensures version == v && bpCount == old(bpCount)
    {
      version := v;
    }

    /** ContentLength(), read through HeaderIfExists. */
    function ContentLength(): (r: Int32)
      reads this, headers
      ensures r == ContentLengthOf(headers.headers)
    {
      var (found, length) := headers.HeaderIfExists("Content-Length", "");
      if found then Atoi(length) else 0
    }

    /** IsMultipart(), read through HeaderIfExists into an empty string. */
    function IsMultipart(): (r: bool)
      reads this, headers
      ensures r == IsMultipartOf(headers.headers)
    {
      var (_, hdr) := headers.HeaderIfExists("Content-Type", "");
      StrnEqual("multipart", CStr(hdr), 9)
    }

    /** WriteToStream: the header block; the body parts are written elsewhere. */
    method WriteToStream() returns (ok: bool, written: string)
      ensures ok && written == HeaderLines(headers.headers) + CRLF
    {
      written := headers.WriteToStream();
      ok := true;
    }
  }
}
