/**
 * The message dispatcher (internal/messagehandler/router.go).
 *
 * For every delivery the router decodes the JSON envelope, picks an
 * operation by exact match on its pattern, calls the service, answers
 * the two read operations with a reply correlated to the request, and
 * acknowledges the delivery. What the router does is recorded as a log of
 * actions; what the service, the JSON encoder and the broker answer is an
 * input to the model.
 *
 * rejectOnError does not return from the handler: a failing step is
 * negatively acknowledged and the handler carries on, so such a delivery
 * is both Nacked and, at the end, Acked.
 */
module MessageRouter {
  import opened Wrappers
  import opened ReviewModel
  import opened Schemas

  const CreateReviewPattern: string := "create-review"
  const UpdateReviewPattern: string := "update-review"
  const DeleteReviewPattern: string := "delete-review"
  const ReadReviewPattern: string := "get-review"
  const ReadReviewsPattern: string := "get-reviews"

  /** The branch of the dispatch switch a pattern selects. */
  datatype Route = ReadOne | ReadAll | Create | Update | Delete | Unknown

  /** Exact string comparison against the five pattern constants. */
  function RouteOf(pattern: string): (r: Route)
    ensures r == ReadOne <==> pattern == ReadReviewPattern
    ensures r == ReadAll <==> pattern == ReadReviewsPattern
    ensures r == Create <==> pattern == CreateReviewPattern
    ensures r == Update <==> pattern == UpdateReviewPattern
    ensures r == Delete <==> pattern == DeleteReviewPattern
  {
    if pattern == ReadReviewPattern then ReadOne
    else if pattern == ReadReviewsPattern then ReadAll
    else if pattern == CreateReviewPattern then Create
    else if pattern == UpdateReviewPattern then Update
    else if pattern == DeleteReviewPattern then Delete
    else Unknown
  }

  /** The five service calls, with the argument the router passes. */
  datatype Call =
    | ReadOneCall(id: int)
    | ReadAllCall
    | CreateCall(data: Review)
    | UpdateCall(data: Review)
    | DeleteCall(id: int)

  /** What the router does, in the order it does it. */
  datatype Action =
    | ServiceCall(call: Call)
    | Publish(exchange: string, routingKey: string, msg: Publishing)
    | Nack(multiple: bool, requeue: bool)
    | Ack(multiple: bool)

  /** A delivery: its body as decoded (None when it is not a JSON envelope) and its reply fields. */
  datatype Delivery = Delivery(body: Option<Message>, replyTo: string, correlationId: string)

  /** How the steps of handling one delivery turn out: these come from outside the router. */
  datatype Outcomes = Outcomes(serviceFailed: bool, marshalled: Option<seq<byte>>, publishFailed: bool)

  /** A delivery together with the outcomes of the steps it causes. */
  datatype Received = Received(delivery: Delivery, outcomes: Outcomes)

  /** json.Unmarshal's error is ignored: a body it cannot decode leaves the zero envelope. */
  function Decoded(d: Delivery): (m: Message)
    ensures d.body.Some? ==> m == d.body.value
    ensures d.body.None? ==> RouteOf(m.pattern) == Unknown
  {
    match d.body
    case None => EmptyMessage()
    case Some(m) => m
  }

  /** The body json.Marshal hands on: nothing when it failed. */
  function ReplyBody(o: Outcomes): seq<byte>
  {
    match o.marshalled
    case None => []
    case Some(b) => b
  }

  /** rpcResponse: the default exchange, the caller's reply queue, and only type, correlation id and body set. */
  function Reply(d: Delivery, body: seq<byte>): (a: Action)
    ensures a.Publish? && a.exchange == "" && a.routingKey == d.replyTo
    ensures a.msg.correlationId == d.correlationId && a.msg.contentType == "application/json" && a.msg.body == body
    ensures a.msg.replyTo == "" && a.msg.deliveryMode == Transient
  {
    Publish("", d.replyTo, Publishing("application/json", d.correlationId, "", Transient, body))
  }

  /** rejectOnError: one Nack without requeue when the step failed, nothing otherwise. */
  function Nacks(failed: bool): (r: seq<Action>)
    ensures |r| == if failed then 1 else 0
    ensures forall a :: a in r ==> a == Nack(false, false)
  {
    if failed then [Nack(false, false)] else []
  }

  /** The service call a delivery's envelope selects, when its pattern is known. */
  function CallOf(m: Message): (r: Option<Call>)
    ensures r.None? <==> RouteOf(m.pattern) == Unknown
    ensures r.Some? ==> (IsRead(r.value) <==> m.pattern == ReadReviewPattern || m.pattern == ReadReviewsPattern)
  {
    match RouteOf(m.pattern)
    case ReadOne => Some(ReadOneCall(m.data.id))
    case ReadAll => Some(ReadAllCall)
    case Create => Some(CreateCall(m.data))
    case Update => Some(UpdateCall(m.data))
    case Delete => Some(DeleteCall(m.data.id))
    case Unknown => None
  }

  /** Whether a call is one of the two reads, which are answered with a reply. */
  predicate IsRead(call: Call)
  {
    call.ReadOneCall? || call.ReadAllCall?
  }

  /**
   * The actions for a delivery whose pattern selected call: the call, a
   * Nack if it failed, for a read a Nack if encoding failed, the reply and
   * a Nack if publishing failed, and finally the Ack.
   */
  function CallLog(call: Call, d: Delivery, o: Outcomes): (r: seq<Action>)
    ensures |r| == 2 + (if o.serviceFailed then 1 else 0)
      + (if IsRead(call) then 1 + (if o.marshalled.None? then 1 else 0) + (if o.publishFailed then 1 else 0) else 0)
    ensures r[0] == ServiceCall(call) && r[|r| - 1] == Ack(false)
  {
    if IsRead(call) then
      [ServiceCall(call)] + Nacks(o.serviceFailed) + Nacks(o.marshalled.None?)
        + [Reply(d, ReplyBody(o))] + Nacks(o.publishFailed) + [Ack(false)]
    else
      [ServiceCall(call)] + Nacks(o.serviceFailed) + [Ack(false)]
  }

  /** The actions for one delivery: an unknown pattern is Nacked and nothing else happens. */
  function DeliveryLog(r: Received): (log: seq<Action>)
    ensures |log| >= 1
    ensures log[|log| - 1] == Ack(false) <==> CallOf(Decoded(r.delivery)).Some?
  {
    match CallOf(Decoded(r.delivery))
    case None => [Nack(false, false)]
    case Some(call) => CallLog(call, r.delivery, r.outcomes)
  }

  /** The actions for a stream of deliveries, handled one after the other in arrival order. */
  function Log(rs: seq<Received>): (log: seq<Action>)
    ensures |log| >= |rs|
  {
    if rs == [] then [] else Log(rs[..|rs| - 1]) + DeliveryLog(rs[|rs| - 1])
  }

  /** Appending is associative (a step the solver does not take on its own in longer chains). */
  lemma Assoc(x: seq<Action>, y: seq<Action>, z: seq<Action>)
    ensures x + y + z == x + (y + z)
  {
  }

  // ---------------------------------------------------------------------------
  // Properties of one delivery

  /** A body that does not decode takes the default branch: one Nack, nothing else. */
  lemma UndecodableIsRejected(r: Received)
    requires r.delivery.body.None?
    ensures DeliveryLog(r) == [Nack(false, false)]
  {
    assert CallOf(EmptyMessage()) == None;
  }

  /** Any pattern but the five constants gets exactly one Nack without requeue, and never an Ack. */
  lemma UnknownPatternIsRejected(r: Received)
    requires RouteOf(Decoded(r.delivery).pattern) == Unknown
    ensures DeliveryLog(r) == [Nack(false, false)]
  {
  }

  /** The call a known pattern selects carries the envelope's data, or its id. */
  lemma CallCarriesData(m: Message)
    requires RouteOf(m.pattern) != Unknown
    ensures CallOf(m).Some?
    ensures var c := CallOf(m).value;
      && (c.ReadOneCall? || c.DeleteCall? ==> c.id == m.data.id)
      && (c.CreateCall? || c.UpdateCall? ==> c.data == m.data)
      && (IsRead(c) <==> RouteOf(m.pattern) in {ReadOne, ReadAll})
  {
  }

  /**
   * A create, update or delete calls the service once, never publishes,
   * and ends with the Ack; a failed call adds one Nack before it.
   */
  lemma MutationsNeverPublish(call: Call, d: Delivery, o: Outcomes)
    requires !IsRead(call)
    ensures var log := CallLog(call, d, o);
      && log == (if o.serviceFailed then [ServiceCall(call), Nack(false, false), Ack(false)]
                 else [ServiceCall(call), Ack(false)])
      && (forall a :: a in log ==> !a.Publish?)
  {
  }

  /** The kinds of action, for counting. */
  datatype Kind = CallKind | PublishKind | NackKind | AckKind

  function KindOf(a: Action): Kind
  {
    match a
    case ServiceCall(_) => CallKind
    case Publish(_, _, _) => PublishKind
    case Nack(_, _) => NackKind
    case Ack(_) => AckKind
  }

  /** How many actions of kind k a log holds. */
  function Count(log: seq<Action>, k: Kind): nat
  {
    if log == [] then 0 else Count(log[..|log| - 1], k) + (if KindOf(log[|log| - 1]) == k then 1 else 0)
  }

  /** Counting distributes over appending logs. */
  lemma {:induction false} CountAppend(x: seq<Action>, y: seq<Action>, k: Kind)
    ensures Count(x + y, k) == Count(x, k) + Count(y, k)
    decreases |y|
  {
    if y == [] {
      assert x + y == x;
    } else {
      var xy := x + y;
      assert xy[..|xy| - 1] == x + y[..|y| - 1];
      assert xy[|xy| - 1] == y[|y| - 1];
      CountAppend(x, y[..|y| - 1], k);
    }
  }

  /** rejectOnError adds one Nack without requeue per failure and nothing else. */
  lemma NacksCount(failed: bool, k: Kind)
    ensures Count(Nacks(failed), k) == (if failed && k == NackKind then 1 else 0)
    ensures forall a :: a in Nacks(failed) ==> a == Nack(false, false)
  {
    if failed {
      assert Nacks(failed)[..0] == [];
    }
  }

  /** Counting a single action. */
  lemma CountOne(a: Action, k: Kind)
    ensures Count([a], k) == (if KindOf(a) == k then 1 else 0)
  {
    assert [a][..0] == [];
  }

  /** The count of kind k in the actions for a read, piece by piece. */
  lemma ReadCount(call: Call, d: Delivery, o: Outcomes, k: Kind)
    requires IsRead(call)
    ensures Count(CallLog(call, d, o), k) ==
      (if k == CallKind || k == PublishKind || k == AckKind then 1 else Failures(o))
  {
    var c, s := [ServiceCall(call)], Nacks(o.serviceFailed);
    var m, r := Nacks(o.marshalled.None?), [Reply(d, ReplyBody(o))];
    var p, e := Nacks(o.publishFailed), [Ack(false)];
    CountAppend(c, s, k);
    CountAppend(c + s, m, k);
    CountAppend(c + s + m, r, k);
    CountAppend(c + s + m + r, p, k);
    CountAppend(c + s + m + r + p, e, k);
    CountOne(ServiceCall(call), k);
    CountOne(Reply(d, ReplyBody(o)), k);
    CountOne(Ack(false), k);
    NacksCount(o.serviceFailed, k);
    NacksCount(o.marshalled.None?, k);
    NacksCount(o.publishFailed, k);
  }

  /** The count of kind k in the actions for a create, update or delete. */
  lemma MutationCount(call: Call, d: Delivery, o: Outcomes, k: Kind)
    requires !IsRead(call)
    ensures Count(CallLog(call, d, o), k) ==
      (if k == CallKind || k == AckKind then 1 else if k == NackKind && o.serviceFailed then 1 else 0)
  {
    var c, s, e := [ServiceCall(call)], Nacks(o.serviceFailed), [Ack(false)];
    CountAppend(c, s, k);
    CountAppend(c + s, e, k);
    CountOne(ServiceCall(call), k);
    CountOne(Ack(false), k);
    NacksCount(o.serviceFailed, k);
  }

  /**
   * A read publishes exactly one reply, to the default exchange under the
   * caller's reply queue and with the caller's correlation id, whether or
   * not the service, the encoding or the publish itself failed.
   */
  lemma ReadsPublishOnce(call: Call, d: Delivery, o: Outcomes)
    requires IsRead(call)
    ensures var log := CallLog(call, d, o); var reply := Reply(d, ReplyBody(o));
      && Count(log, PublishKind) == 1
      && (forall a :: a in log && a.Publish? ==> a == reply)
      && reply.exchange == "" && reply.routingKey == d.replyTo
      && reply.msg.correlationId == d.correlationId && reply.msg.contentType == "application/json"
  {
    ReadCount(call, d, o, PublishKind);
    NacksCount(o.serviceFailed, PublishKind);
    NacksCount(o.marshalled.None?, PublishKind);
    NacksCount(o.publishFailed, PublishKind);
  }

  /** Number of steps that failed while answering a read. */
  function Failures(o: Outcomes): nat
  {
    (if o.serviceFailed then 1 else 0) + (if o.marshalled.None? then 1 else 0) + (if o.publishFailed then 1 else 0)
  }

  /**
   * For a known pattern the service is called first and once, and the Ack
   * comes last and only once; every failed step in between adds one Nack,
   * so a failing delivery is Nacked and then Acked.
   */
  lemma AckIsLast(call: Call, d: Delivery, o: Outcomes)
    ensures var log := CallLog(call, d, o);
      && log[0] == ServiceCall(call) && log[|log| - 1] == Ack(false)
      && Count(log, CallKind) == 1
      && Count(log, AckKind) == 1
      && Count(log, NackKind) == if IsRead(call) then Failures(o) else (if o.serviceFailed then 1 else 0)
  {
    if IsRead(call) {
      ReadCount(call, d, o, CallKind);
      ReadCount(call, d, o, AckKind);
      ReadCount(call, d, o, NackKind);
    } else {
      MutationCount(call, d, o, CallKind);
      MutationCount(call, d, o, AckKind);
      MutationCount(call, d, o, NackKind);
    }
  }

  // ---------------------------------------------------------------------------
  // Properties of a stream

  /** Deliveries are handled in arrival order: the log of a stream is the concatenation of the per-delivery logs. */
  lemma {:induction false} LogConcat(a: seq<Received>, b: seq<Received>)
    ensures Log(a + b) == Log(a) + Log(b)
    decreases |b|
  {
    if b == [] {
      assert a + b == a;
    } else {
      var init, x := b[..|b| - 1], b[|b| - 1];
      assert b == init + [x];
      assert a + b == (a + init) + [x];
      LogSnoc(a + init, x);
      LogSnoc(init, x);
      LogConcat(a, init);
      Assoc(Log(a), Log(init), DeliveryLog(x));
    }
  }

  /** One more delivery appends its own log. */
  lemma LogSnoc(rs: seq<Received>, r: Received)
    ensures Log(rs + [r]) == Log(rs) + DeliveryLog(r)
  {
    assert (rs + [r])[..|rs|] == rs;
  }

  /** The number of deliveries in rs whose pattern is one of the five. */
  function KnownCount(rs: seq<Received>): nat
  {
    if rs == [] then 0
    else KnownCount(rs[..|rs| - 1]) + (if CallOf(Decoded(rs[|rs| - 1].delivery)).Some? then 1 else 0)
  }

  /** Every delivery of a stream is Acked once if its pattern is known and never otherwise. */
  lemma {:induction false} AcksCountKnownPatterns(rs: seq<Received>)
    ensures Count(Log(rs), AckKind) == KnownCount(rs)
    decreases |rs|
  {
    if rs != [] {
      var init, last := rs[..|rs| - 1], rs[|rs| - 1];
      AcksCountKnownPatterns(init);
      CountAppend(Log(init), DeliveryLog(last), AckKind);
      match CallOf(Decoded(last.delivery))
      case None =>
        CountOne(Nack(false, false), AckKind);
      case Some(call) =>
        AckIsLast(call, last.delivery, last.outcomes);
    }
  }

  // ---------------------------------------------------------------------------
  // The router

  class Router {
    /** Every action taken so far, oldest first. */
    var log: seq<Action>

    constructor ()
      ensures log == []
    {
      log := [];
    }

    /** rejectOnError: Nack without requeue when the step failed, and go on either way. */
    method RejectOnError(failed: bool)
      modifies this
      ensures log == old(log) + Nacks(failed)
    {
      if failed {
        log := log + [Nack(false, false)];
      }
    }

    /** rpcResponse: publishes the reply and reports whether the publish failed. */
    method RpcResponse(d: Delivery, body: seq<byte>, failed: bool) returns (err: bool)
      modifies this
      ensures log == old(log) + [Reply(d, body)] && err == failed
    {
      log := log + [Reply(d, body)];
      err := failed;
    }

    /** One turn of the dispatch loop: the log grows by the delivery's actions. */
    method HandleMessage(r: Received)
      modifies this
      ensures log == old(log) + DeliveryLog(r)
    {
      var d, o := r.delivery, r.outcomes;
      var message := Decoded(d);
      var call := CallOf(message);
      if call.None? {
        log := log + [Nack(false, false)];
        return;
      }
      ghost var start := log;
      var s := Nacks(o.serviceFailed);
      log := log + [ServiceCall(call.value)];
      RejectOnError(o.serviceFailed);
      Assoc(start, [ServiceCall(call.value)], s);
      ghost var called := [ServiceCall(call.value)] + s;
      assert log == start + called;
      if IsRead(call.value) {
        var m, p, reply := Nacks(o.marshalled.None?), Nacks(o.publishFailed), Reply(d, ReplyBody(o));
        RejectOnError(o.marshalled.None?);
        Assoc(start, called, m);
        var err := RpcResponse(d, ReplyBody(o), o.publishFailed);
        Assoc(start, called + m, [reply]);
        RejectOnError(err);
        Assoc(start, called + m + [reply], p);
        called := called + m + [reply] + p;
      }
      log := log + [Ack(false)];
      Assoc(start, called, [Ack(false)]);
    }

    /** HandleMessages: every delivery in turn, in arrival order; the log grows by the stream's actions. */
    method HandleMessages(rs: seq<Received>)
      modifies this
      ensures log == old(log) + Log(rs)
    {
      var i := 0;
      while i < |rs|
        invariant 0 <= i <= |rs|
        invariant log == old(log) + Log(rs[..i])
      {
        ghost var before := Log(rs[..i]);
        HandleMessage(rs[i]);
        assert rs[..i + 1][..i] == rs[..i];
        assert Log(rs[..i + 1]) == before + DeliveryLog(rs[i]);
        Assoc(old(log), before, DeliveryLog(rs[i]));
        i := i + 1;
      }
      assert rs[..|rs|] == rs;
    }
  }
}
