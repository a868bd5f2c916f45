/**
 * The request-reply client of cmd/provider/main.go: it publishes one
 * "get-reviews" request with a fresh correlation id and a reply queue,
 * then reads the reply queue until the first delivery that carries its
 * correlation id, and decodes that delivery's body as a list of reviews.
 *
 * The correlation id, the JSON encoder's result, the broker's answer to
 * the publish and the reply stream are inputs. A fatal error (log.Fatalf)
 * ends the program; it is an outcome here.
 */
module Provider {
  import opened Wrappers
  import opened ReviewModel
  import opened Schemas
  import opened MessageRouter

  /** The durable queue the service consumes requests from. */
  const RequestQueue: string := "reviews_queue"

  /** The request envelope: the "get-reviews" pattern with the zero review as data. */
  function RequestMessage(): (m: Message)
    ensures RouteOf(m.pattern) == ReadAll && m.data == EmptyReview()
  {
    Message(ReadReviewsPattern, EmptyReview())
  }

  /** An outgoing publish: exchange, routing key and the publishing itself. */
  datatype Request = Request(exchange: string, routingKey: string, msg: Publishing)

  /**
   * The request as published: to the default exchange under the request
   * queue, persistent, with the correlation id, the reply queue's name,
   * the JSON content type and the encoded envelope.
   */
  function MakeRequest(corrId: string, replyQueue: string, body: seq<byte>): (r: Request)
    ensures r.exchange == "" && r.routingKey == RequestQueue
    ensures r.msg.deliveryMode == Persistent && r.msg.contentType == "application/json"
    ensures r.msg.correlationId == corrId && r.msg.replyTo == replyQueue && r.msg.body == body
  {
    Request("", RequestQueue, Publishing("application/json", corrId, replyQueue, Persistent, body))
  }

  /** A delivery on the reply queue: its correlation id and its body decoded as a list of reviews, if it decodes. */
  datatype Incoming = Incoming(correlationId: string, body: Option<seq<Review>>)

  /** How the program ends. */
  datatype Outcome =
    | MarshalFailed
    | PublishFailed
    | DecodeFailed
    | Got(reviews: seq<Review>)
    | StreamEnded

  /** The position of the first delivery that carries corrId, if any. */
  function FirstMatch(corrId: string, replies: seq<Incoming>): (r: Option<nat>)
    ensures r.Some? ==> r.value < |replies| && replies[r.value].correlationId == corrId
    ensures r.Some? ==> forall j :: 0 <= j < r.value ==> replies[j].correlationId != corrId
    ensures r.None? <==> forall j :: 0 <= j < |replies| ==> replies[j].correlationId != corrId
  {
    if replies == [] then None
    else if replies[0].correlationId == corrId then Some(0)
    else
      match FirstMatch(corrId, replies[1..])
      case None => None
      case Some(i) => Some(i + 1)
  }

  /** What a matched delivery leads to: its reviews, or a fatal decode error. */
  function ReplyOutcome(reply: Incoming): (r: Outcome)
    ensures r.Got? <==> reply.body.Some?
    ensures r.Got? ==> r.reviews == reply.body.value
    ensures !r.Got? ==> r == DecodeFailed
  {
    match reply.body
    case None => DecodeFailed
    case Some(reviews) => Got(reviews)
  }

  /** The outcome of waiting on the reply stream: the first match decides, and with none the stream runs out. */
  function Awaited(corrId: string, replies: seq<Incoming>): (r: Outcome)
    ensures r == StreamEnded <==> forall j :: 0 <= j < |replies| ==> replies[j].correlationId != corrId
    ensures r != MarshalFailed && r != PublishFailed
  {
    match FirstMatch(corrId, replies)
    case None => StreamEnded
    case Some(i) => ReplyOutcome(replies[i])
  }

  /** How many deliveries the wait takes off the auto-acknowledged reply queue. */
  function Consumed(corrId: string, replies: seq<Incoming>): (n: nat)
    ensures n <= |replies|
    ensures n < |replies| ==> n > 0 && replies[n - 1].correlationId == corrId
    ensures forall j :: 0 <= j < n - 1 ==> replies[j].correlationId != corrId
  {
    match FirstMatch(corrId, replies)
    case None => |replies|
    case Some(i) => i + 1
  }

  /**
   * The wait loop: take deliveries in order, skip those with another
   * correlation id, and stop at the first match. Skipped deliveries are
   * consumed and gone; with no match the loop ends only with the stream,
   * since nothing bounds the wait.
   */
  method AwaitReply(corrId: string, replies: seq<Incoming>) returns (outcome: Outcome, consumed: nat)
    ensures outcome == Awaited(corrId, replies)
    ensures consumed == Consumed(corrId, replies)
    ensures forall j :: 0 <= j < consumed - 1 ==> replies[j].correlationId != corrId
  {
    outcome, consumed := StreamEnded, 0;
    var i := 0;
    while i < |replies|
      invariant i <= |replies|
      invariant forall j :: 0 <= j < i ==> replies[j].correlationId != corrId
      invariant consumed == i && outcome == StreamEnded
    {
      consumed := i + 1;
      if replies[i].correlationId == corrId {
        outcome := ReplyOutcome(replies[i]);
        break;
      }
      i := i + 1;
    }
  }

  /**
   * The program from encoding the request on: a failed encoding or publish
   * is fatal before anything is read; otherwise the outcome is that of the
   * wait.
   */
  method RequestReviews(corrId: string, replyQueue: string, marshalled: Option<seq<byte>>,
                        publishFailed: bool, replies: seq<Incoming>)
    returns (sent: Option<Request>, outcome: Outcome, consumed: nat)
    ensures marshalled.None? ==> sent == None && outcome == MarshalFailed && consumed == 0
    ensures marshalled.Some? ==> sent == Some(MakeRequest(corrId, replyQueue, marshalled.value))
    ensures marshalled.Some? && publishFailed ==> outcome == PublishFailed && consumed == 0
    ensures marshalled.Some? && !publishFailed ==>
      outcome == Awaited(corrId, replies) && consumed == Consumed(corrId, replies)
  {
    if marshalled.None? {
      return None, MarshalFailed, 0;
    }
    sent := Some(MakeRequest(corrId, replyQueue, marshalled.value));
    if publishFailed {
      return sent, PublishFailed, 0;
    }
    outcome, consumed := AwaitReply(corrId, replies);
  }

  /** The delivery the service receives for a request: its envelope, reply queue and correlation id. */
  function Delivered(request: Request): Delivery
  {
    Delivery(Some(RequestMessage()), request.msg.replyTo, request.msg.correlationId)
  }

  /**
   * The service reads the request as "get-reviews": it lists all reviews
   * and publishes exactly one reply, to the caller's reply queue under the
   * caller's correlation id.
   */
  lemma RequestIsAnswered(corrId: string, replyQueue: string, body: seq<byte>, o: Outcomes)
    ensures var d := Delivered(MakeRequest(corrId, replyQueue, body));
      && CallOf(Decoded(d)) == Some(ReadAllCall)
      && DeliveryLog(Received(d, o)) == CallLog(ReadAllCall, d, o)
      && Count(CallLog(ReadAllCall, d, o), PublishKind) == 1
      && Reply(d, ReplyBody(o)) in CallLog(ReadAllCall, d, o)
      && Reply(d, ReplyBody(o)).routingKey == replyQueue
      && Reply(d, ReplyBody(o)).msg.correlationId == corrId
  {
    var d := Delivered(MakeRequest(corrId, replyQueue, body));
    assert RouteOf(ReadReviewsPattern) == ReadAll;
    ReadsPublishOnce(ReadAllCall, d, o);
    var log := CallLog(ReadAllCall, d, o);
    var prefix := [ServiceCall(ReadAllCall)] + Nacks(o.serviceFailed) + Nacks(o.marshalled.None?);
    assert log[|prefix|] == Reply(d, ReplyBody(o));
  }

  /**
   * Once the reply arrives after deliveries meant for other callers, the
   * wait stops at it, whatever follows.
   */
  lemma ReplyAfterOthersIsTaken(corrId: string, others: seq<Incoming>, reply: Incoming, rest: seq<Incoming>)
    requires forall j :: 0 <= j < |others| ==> others[j].correlationId != corrId
    requires reply.correlationId == corrId
    ensures FirstMatch(corrId, others + [reply] + rest) == Some(|others|)
    ensures Awaited(corrId, others + [reply] + rest) == ReplyOutcome(reply)
    ensures Consumed(corrId, others + [reply] + rest) == |others| + 1
  {
    var s := others + [reply] + rest;
    assert s[|others|] == reply;
    assert forall j :: 0 <= j < |others| ==> s[j] == others[j];
  }

  /** A delivery is taken by at most one caller: the one whose correlation id it carries. */
  lemma DistinctIdsNeverCross(c1: string, c2: string, replies: seq<Incoming>)
    requires c1 != c2
    requires FirstMatch(c1, replies).Some?
    ensures FirstMatch(c2, replies) != FirstMatch(c1, replies)
  {
  }

  /** Replies for other callers that arrive first are consumed and lost: each of them is skipped. */
  lemma SkippedAreLost(corrId: string, replies: seq<Incoming>, j: nat)
    requires j + 1 < Consumed(corrId, replies)
    ensures replies[j].correlationId != corrId
    ensures Consumed(corrId, replies) <= |replies|
  {
  }
}
