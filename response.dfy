/**
 * SHttpResponse: a message with a status code and a reason phrase, written
 * as a status line (section 3.1.2 of RFC 7230) followed by the headers.
 */
module Response {
  import opened CText
  import opened Headers
  import opened Message

  /** The status line: version, SP, the code in decimal, SP, the reason phrase, CRLF. */
  function StatusLine(version: string, code: int, reason: string): (r: string)
    ensures |r| == |version| + |IntToDecimal(code)| + |reason| + 4
    ensures r[..|version|] == version && r[|version|] == ' '
    ensures r[|r| - 2..] == CRLF
  {
    version + " " + IntToDecimal(code) + " " + reason + CRLF
  }

  /** The three fields of a status line are read back by splitting at the first two spaces. */
  lemma {:induction false} StatusLineFields(version: string, code: int, reason: string)
    requires ' ' !in version
    ensures var r := StatusLine(version, code, reason);
      var d := IntToDecimal(code);
      r[..|version|] == version &&
      r[|version| + 1..|version| + 1 + |d|] == d &&
      r[|version| + 1 + |d|] == ' ' &&
      r[|version| + 2 + |d|..|r| - 2] == reason
  {
  }

  class Response {
    const message: Message
    var statusCode: int
    var statusMessage: string

    predicate Valid()
      reads this, message, message.headers
    {
      message.Valid()
    }

    /** SHttpResponse(): a new message with status 200 "OK". */
    constructor ()
      ensures Valid() && fresh(message) && fresh(message.headers)
      ensures statusCode == 200 && statusMessage == "OK"
      ensures message.version == "HTTP/1.1" && message.headers.headers == DefaultHeaders
    {
      message := new Message();
      statusCode := 200;
      statusMessage := "OK";
    }

    /** Reset: the message's Reset; the status is kept. */
    method Reset()
      requires Valid()
      modifies message, message.headers
      ensures Valid()
      ensures message.version == "HTTP/1.1" && message.bpCount == 0
      ensures message.headers.headers == DefaultHeaders && !message.headers.locked
      ensures unchanged(this)
    {
      message.Reset();
    }

    /** StatusCode(). */
    function StatusCode(): (r: int)
      reads this
      ensures r == statusCode
    {
      statusCode
    }

    /** StatusMessage(). */
    function StatusMessage(): (r: string)
      reads this
      ensures r == statusMessage
    {
      statusMessage
    }

    /** SetStatus(code, message): both fields change and nothing else. */
    method SetStatus(code: int, msg: string)
      modifies this
      ensures statusCode == code && statusMessage == msg
      ensures StatusCode() == code && StatusMessage() == msg
    {
      statusCode := code;
      statusMessage := msg;
    }

    /** WriteToStream: the status line, then the header block; no body bytes. */
    method WriteToStream() returns (ok: bool, written: string)
      ensures ok
      ensures written == StatusLine(message.version, statusCode, statusMessage) + HeaderLines(message.headers.headers) + CRLF
    {
      var line := StatusLine(message.version, statusCode, statusMessage);
      var rest;
      ok, rest := message.WriteToStream();
      written := line + rest;
    }
  }
}
