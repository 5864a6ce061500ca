/**
 * The shapes the commands receive from the chat platform: the event that
 * carries the command, the message it replies to, and the tree of a
 * forwarded-message bundle.
 */
module Events {
  import opened Wrappers

  /** One message of a forwarded bundle: who sent it and its parts. */
  datatype ForwardNode = ForwardNode(sender: string, messages: seq<SubMessage>)

  /** A part of a forwarded message, by its `type`. */
  datatype SubMessage =
    | Text(text: string)                    // type "text"
    | Forward(content: seq<ForwardNode>)    // type "forward": a nested bundle
    | OtherPart(kind: string)               // images, faces, replies, ...

  /** The event kinds the commands can see; user and group ids are integers. */
  datatype Event =
    | PrivateMessage(userId: int)
    | GroupMessage(userId: int, groupId: int)
    | OtherEvent

  /** A segment of the message being replied to. */
  datatype Segment = ForwardSegment(content: seq<ForwardNode>) | OtherSegment(kind: string)

  /**
   * A command as a handler sees it: the event, the command word that
   * triggered it, the plain text of the message, and the segments of the
   * replied-to message when there is one.
   */
  datatype Request = Request(event: Event, trigger: string, text: string, reply: Option<seq<Segment>>)

  /**
   * The quoted forward both handlers insist on: the reply exists, is not
   * empty, and its first segment is a forwarded bundle.
   */
  function QuotedForward(req: Request): (r: Option<seq<ForwardNode>>)
    ensures r.Some? <==> req.reply.Some? && |req.reply.value| > 0 && req.reply.value[0].ForwardSegment?
    ensures r.Some? ==> req.reply.value[0] == ForwardSegment(r.value)
  {
    match req.reply
    case None => None
    case Some(segments) =>
      if |segments| > 0 && segments[0].ForwardSegment? then Some(segments[0].content) else None
  }

  /** The transcript line of one text part: `"{sender}: {text}"`. */
  function SenderLine(sender: string, text: string): (r: string)
    ensures |r| == |sender| + 2 + |text|
    ensures r[..|sender|] == sender && r[|sender|..|sender| + 2] == ": " && r[|sender| + 2..] == text
  {
    sender + ": " + text
  }
}
