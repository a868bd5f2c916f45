/**
 * The wire shapes the service exchanges with the broker: the JSON envelope
 * of a request (api/schemas/message.go) and the fields of an AMQP
 * publishing that the service and its caller set.
 */
module Schemas {
  import opened ReviewModel

  newtype byte = x: int | 0 <= x < 256

  /** The request envelope: an operation pattern and a review as data. */
  datatype Message = Message(pattern: string, data: Review)

  /** What a body that could not be decoded leaves behind: the zero value. */
  function EmptyMessage(): Message
  {
    Message("", EmptyReview())
  }

  /** AMQP delivery modes: 0 is the unset (transient) default, 2 is persistent. */
  const Transient: nat := 0
  const Persistent: nat := 2

  /** The fields of an outgoing AMQP publishing that this system sets. */
  datatype Publishing = Publishing(
    contentType: string,
    correlationId: string,
    replyTo: string,
    deliveryMode: nat,
    body: seq<byte>)
}
