/**
 * SBayeuxModule: the Comet (Bayeux protocol) handler.  A request body
 * holds one message object or a list of them; each message is routed by
 * its "channel" name to a handler, and a message without a channel ends
 * the processing with an error text that is sent back with status 500.
 * The handlers are stubs that accept every message.
 *
 * The parsed body is a parameter (a `Ptr` that is None when the parse
 * yields the empty pointer).  Dereferencing an empty pointer, which the
 * module does in three places, is reported as a crash.
 */
module Bayeux {
  import opened CText
  import opened Json
  import opened BodyParts
  import opened Message
  import opened Response
  import opened Replies

  /** The handler a channel name selects. */
  datatype Route = Handshake | Connect | Disconnect | Subscribe | Unsubscribe | MetaMessage | Publish

  const MetaPrefix: string := "/meta/"
  const MissingChannel: string := "Channel name missing"
  const InvalidMessage: string := "Invalid bayeux message."

  /** The five meta channels with a handler of their own: "/meta/handshake" and so on. */
  function MetaRoute(channel: string): Option<Route> {
    if channel == MetaPrefix + "handshake" then Some(Handshake)
    else if channel == MetaPrefix + "connect" then Some(Connect)
    else if channel == MetaPrefix + "disconnect" then Some(Disconnect)
    else if channel == MetaPrefix + "subscribe" then Some(Subscribe)
    else if channel == MetaPrefix + "unsubscribe" then Some(Unsubscribe)
    else None
  }

  /** The dispatch of ProcessMessage: exact meta names, then the "/meta/" prefix (strncmp), then publish. */
  function RouteOf(channel: string): (r: Route)
    ensures r == MetaMessage <==> MetaRoute(channel).None? && StrnEqual(channel, MetaPrefix, 6)
    ensures r == Publish <==> MetaRoute(channel).None? && !StrnEqual(channel, MetaPrefix, 6)
  {
    match MetaRoute(channel)
    case Some(route) => route
    case None => if StrnEqual(channel, MetaPrefix, 6) then MetaMessage else Publish
  }

  /**
   * Every channel under "/meta/" goes to a meta handler and every other
   * channel is a publish: the exact meta names all carry the prefix.
   */
  lemma {:induction false} MetaChannelsArePrefixed(channel: string)
    requires '\0' !in channel
    ensures RouteOf(channel) != Publish <==> StartsWith(channel, MetaPrefix)
  {
    StrnEqualIsPrefix(MetaPrefix, channel);
    assert |MetaPrefix| == 6;
    if channel == MetaPrefix + "handshake" {
      Prefixed("handshake");
    } else if channel == MetaPrefix + "connect" {
      Prefixed("connect");
    } else if channel == MetaPrefix + "disconnect" {
      Prefixed("disconnect");
    } else if channel == MetaPrefix + "subscribe" {
      Prefixed("subscribe");
    } else if channel == MetaPrefix + "unsubscribe" {
      Prefixed("unsubscribe");
    }
  }

  lemma {:induction false} Prefixed(name: string)
    ensures StartsWith(MetaPrefix + name, MetaPrefix)
  {
    assert (MetaPrefix + name)[..|MetaPrefix|] == MetaPrefix;
  }

  /** The handler of each route: all of them are stubs that accept the message and leave the output alone. */
  function Handle(route: Route, message: Node, output: Ptr): (r: (bool, Ptr))
    ensures r.0 && r.1 == output
  {
    (true, output)
  }

  /** message->Get<std::string>("channel", ""): the channel name, or "" when missing or not a string. */
  function Channel(message: Node): string {
    ValueToString(GetName(message, "channel"), "")
  }

  /** The output a channel-bearing message leaves: the list there already, else a new empty list. */
  function AsList(output: Ptr): Ptr {
    if output.Some? && output.value.ListNode? then output else Some(ListNode([]))
  }

  /**
   * ProcessMessage(message, output): false with the error text as output
   * when the message names no channel; otherwise what the routed handler
   * returns, with the output made a list first.
   */
  function ProcessMessage(message: Node, output: Ptr): (r: (bool, Ptr))
    ensures !r.0 <==> Channel(message) == ""
    ensures !r.0 ==> r.1 == Some(StringNode(MissingChannel))
    ensures r.0 ==> r.1.Some? && r.1.value.ListNode?
    ensures r.0 && output.Some? && output.value.ListNode? ==> r.1 == output
  {
    var channel := Channel(message);
    if channel == "" then (false, Some(StringNode(MissingChannel)))
    else Handle(RouteOf(channel), message, AsList(output))
  }

  /**
   * The loop over a list body: messages in order until one fails.  None
   * when an empty element is reached (its dereference crashes).
   */
  function ProcessList(items: seq<Ptr>, output: Ptr): Option<Ptr>
    decreases |items|
  {
    if items == [] then Some(output)
    else match items[0]
      case None => None
      case Some(message) =>
        var (ok, out) := ProcessMessage(message, output);
        if ok then ProcessList(items[1..], out) else Some(out)
  }

  /** Messages that all name a channel leave an empty list, or the output untouched when there are none. */
  lemma {:induction false} AllRoutedLeaveList(items: seq<Ptr>, output: Ptr)
    requires forall k :: 0 <= k < |items| ==> items[k].Some? && Channel(items[k].value) != ""
    ensures ProcessList(items, output) == Some(if items == [] then output else AsList(output))
    decreases |items|
  {
    if items != [] {
      var out := ProcessMessage(items[0].value, output).1;
      assert out == AsList(output);
      AllRoutedLeaveList(items[1..], out);
      assert items[1..] != [] ==> AsList(out) == out;
    }
  }

  /**
   * The first message without a channel stops the loop: the messages
   * after it are never looked at and the output is the error text.
   */
  lemma {:induction false} FirstFailureStops(done: seq<Ptr>, bad: Node, rest: seq<Ptr>, output: Ptr)
    requires forall k :: 0 <= k < |done| ==> done[k].Some? && Channel(done[k].value) != ""
    requires Channel(bad) == ""
    ensures ProcessList(done + [Some(bad)] + rest, output) == Some(Some(StringNode(MissingChannel)))
    decreases |done|
  {
    if done == [] {
      assert (done + [Some(bad)] + rest)[0] == Some(bad);
    } else {
      var items := done + [Some(bad)] + rest;
      assert items[0] == done[0];
      assert items[1..] == done[1..] + [Some(bad)] + rest;
      FirstFailureStops(done[1..], bad, rest, ProcessMessage(done[0].value, output).1);
    }
  }

  /** What a request body leads to. */
  datatype Verdict =
    | NullBody                  // the parse gave the empty pointer: line 51 dereferences it
    | NullItem                  // a list element is empty: ProcessMessage dereferences it
    | NotMessages               // neither list nor object: 500 and CONTENT_FINISHED, then the empty output is dereferenced
    | NoOutput                  // an empty list: the output is still empty when it is dereferenced
    | ErrorText(text: string)   // the output is a string: it is sent back with status 500
    | Accepted                  // the output is a list: nothing is sent

  /** The output after the messages, classified as ProcessInput acts on it. */
  function OutputVerdict(output: Ptr): Verdict {
    match output
    case None => NoOutput
    case Some(StringNode(text)) => ErrorText(text)
    case Some(_) => Accepted
  }

  function VerdictOf(messages: Ptr): (v: Verdict) {
    match messages
    case None => NullBody
    case Some(ListNode(items)) =>
      (match ProcessList(items, None)
       case None => NullItem
       case Some(output) => OutputVerdict(output))
    case Some(ObjectNode(entries)) => OutputVerdict(ProcessMessage(ObjectNode(entries), None).1)
    case Some(_) => NotMessages
  }

  /** The reply for an error text: status 500, its length and text/text, the text as the body. */
  function ErrorReply(text: string): Reply {
    Reply(Some((500, InvalidMessage)), WrapInt32(|text|), "text/text", false, Some(text))
  }

  /**
   * The verdicts as the Bayeux handler promises them: a single message
   * or a list whose messages all name a channel is accepted; the first
   * message without one makes the error text the reply; an empty list
   * and a body of any other type end in a dereference of the empty output.
   */
  lemma {:induction false} VerdictCases(messages: Ptr)
    ensures messages.Some? && messages.value.ObjectNode? ==>
      VerdictOf(messages) == (if Channel(messages.value) == "" then ErrorText(MissingChannel) else Accepted)
    ensures messages.Some? && messages.value.ListNode? && messages.value.items == [] ==>
      VerdictOf(messages) == NoOutput
    ensures (messages.Some? && messages.value.ListNode? && messages.value.items != [] &&
             forall k :: 0 <= k < |messages.value.items| ==>
               messages.value.items[k].Some? && Channel(messages.value.items[k].value) != "") ==>
      VerdictOf(messages) == Accepted
    ensures messages.Some? && !messages.value.ListNode? && !messages.value.ObjectNode? ==>
      VerdictOf(messages) == NotMessages
  {
    if messages.Some? && messages.value.ListNode? {
      var items := messages.value.items;
      if items != [] && forall k :: 0 <= k < |items| ==> items[k].Some? && Channel(items[k].value) != "" {
        AllRoutedLeaveList(items, None);
      }
    }
  }

  /** A list whose k-th message is the first without a channel is answered with the error text. */
  lemma {:induction false} ListErrorReply(items: seq<Ptr>, k: nat)
    requires k < |items| && items[k].Some? && Channel(items[k].value) == ""
    requires forall j :: 0 <= j < k ==> items[j].Some? && Channel(items[j].value) != ""
    ensures VerdictOf(Some(ListNode(items))) == ErrorText(MissingChannel)
  {
    assert items == items[..k] + [items[k]] + items[k + 1..];
    FirstFailureStops(items[..k], items[k].value, items[k + 1..], None);
  }

  class BayeuxModule {
    constructor ()
    {
    }

    /**
     * The message loop of ProcessInput over a list body: in order,
     * stopping at the first message that fails; None when an empty
     * element is dereferenced.
     */
    method ProcessItems(items: seq<Ptr>) returns (output: Option<Ptr>)
      ensures output == ProcessList(items, None)
    {
      var out: Ptr := None;
      var i := 0;
      while i < |items|
        invariant 0 <= i <= |items|
        invariant ProcessList(items, None) == ProcessList(items[i..], out)
        decreases |items| - i
      {
        assert items[i..][1..] == items[i + 1..];
        if items[i].None? {
          return None;
        }
        var ok;
        ok, out := ProcessMessage(items[i].value, out).0, ProcessMessage(items[i].value, out).1;
        if !ok {
          assert ProcessList(items, None) == Some(out);
          return Some(out);
        }
        i := i + 1;
      }
      assert items[i..] == [];
      return Some(out);
    }

    /**
     * ProcessInput: the parsed body's messages are processed; an error
     * text is sent back with status 500, a list output sends nothing, and
     * a body that is neither list nor object first gets a bare 500 and
     * CONTENT_FINISHED.  `crashed` reports the dereference of an empty
     * pointer, after which nothing else happens.
     */
    method ProcessInput(response: Response, messages: Ptr) returns (sent: seq<Part>, crashed: bool)
      requires response.Valid()
      modifies response, response.message, response.message.headers
      ensures response.Valid()
      ensures crashed <==> VerdictOf(messages) in {NullBody, NullItem, NotMessages, NoOutput}
      ensures VerdictOf(messages).ErrorText? ==>
        StateOf(response) == Answered(old(StateOf(response)), ErrorReply(VerdictOf(messages).text)) &&
        sent == AnswerParts(old(response.message.bpCount), ErrorReply(VerdictOf(messages).text))
      ensures VerdictOf(messages) == NotMessages ==>
        StateOf(response) == old(StateOf(response)).(statusCode := 500, statusMessage := InvalidMessage,
          bpCount := old(response.message.bpCount) + 1) &&
        sent == [Part(old(response.message.bpCount), ContentFinished, "")]
      ensures VerdictOf(messages) in {NullBody, NullItem, NoOutput, Accepted} ==>
        StateOf(response) == old(StateOf(response)) && sent == []
    {
      if messages.None? {
        return [], true;
      }
      var node := messages.value;
      if !node.ListNode? && !node.ObjectNode? {
        // the output is still empty when it is dereferenced after this
        sent := Reject(response);
        return sent, true;
      }
      var output := Collect(node);
      if output.None? {
        return [], true;
      }
      assert VerdictOf(messages) == OutputVerdict(output.value);
      sent, crashed := Respond(response, output.value);
    }

    /** The messages of a list or object body; None when an empty list element is dereferenced. */
    method Collect(node: Node) returns (output: Option<Ptr>)
      requires node.ListNode? || node.ObjectNode?
      ensures node.ListNode? ==> output == ProcessList(node.items, None)
      ensures node.ObjectNode? ==> output == Some(ProcessMessage(node, None).1)
    {
      if node.ListNode? {
        output := ProcessItems(node.items);
      } else {
        output := Some(ProcessMessage(node, None).1);
      }
    }

    /** A body of another type: status 500 and CONTENT_FINISHED. */
    method Reject(response: Response) returns (sent: seq<Part>)
      requires response.Valid()
      modifies response, response.message
      ensures response.Valid()
      ensures StateOf(response) == old(StateOf(response)).(statusCode := 500, statusMessage := InvalidMessage,
        bpCount := old(response.message.bpCount) + 1)
      ensures sent == [Part(old(response.message.bpCount), ContentFinished, "")]
    {
      response.SetStatus(500, InvalidMessage);
      var last := FinishPart(response.message);
      sent := [last];
    }

    /**
     * The end of ProcessInput: the output is dereferenced; a string
     * output is sent back as the error reply and any other output sends
     * nothing.
     */
    method Respond(response: Response, output: Ptr) returns (sent: seq<Part>, crashed: bool)
      requires response.Valid()
      modifies response, response.message, response.message.headers
      ensures response.Valid()
      ensures crashed <==> output.None?
      ensures OutputVerdict(output).ErrorText? ==>
        StateOf(response) == Answered(old(StateOf(response)), ErrorReply(OutputVerdict(output).text)) &&
        sent == AnswerParts(old(response.message.bpCount), ErrorReply(OutputVerdict(output).text))
      ensures !OutputVerdict(output).ErrorText? ==> StateOf(response) == old(StateOf(response)) && sent == []
    {
      if output.None? {
        return [], true;
      }
      sent := [];
      if output.value.StringNode? {
        sent := Answer(response, ErrorReply(output.value.s));
      }
      crashed := false;
    }
  }
}
