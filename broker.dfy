/** The NATS JetStream server as the event store sees it. Nothing here is
    behaviour of this library: the replies are whatever the server gives, and
    the two logs record which subscriptions and publications the event store
    asked for.
 */
module Broker {
  import opened Base
  import opened Envelope

  /** A `nats.Msg` as the event store builds or reads it. */
  datatype Msg = Msg(subject: string, header: Header, data: seq<byte>)

  /** A delivered message, with what `msg.Metadata()` reports for it: the
      message's stream sequence, or an error. */
  datatype Delivery = Delivery(msg: Msg, metadata: Result<nat>)

  /** The position an ordered consumer starts from: `DeliverAll()` or
      `StartSequence(n)`. */
  datatype Start = DeliverAll | StartSequence(sequence: nat)

  /** What `SubscribeSync` gives: an error, or a subscription whose
      `NextMsgWithContext` returns `deliveries` in order and `end` (a timeout
      or a cancelled context) on every call after them. */
  datatype Subscription =
    | SubscribeFailed(err: Error)
    | Subscribed(deliveries: seq<Delivery>, end: Error)

  /** The reply to the `$JS.API.STREAM.MSG.GET.<stream>` request for the last
      message of a subject: a failed request, an undecodable reply, an API
      error with its code and description, or the stored message's sequence. */
  datatype LastMsgReply =
    | RequestFailed(err: Error)
    | Undecodable(err: Error)
    | ApiFailure(code: int, description: string)
    | StoredMsg(sequence: nat)

  /** One `PublishMsg` call: the message, the stream it must land in, and the
      expected last sequence for its subject when one was given. */
  datatype PubRequest = PubRequest(msg: Msg, expectStream: string, expectLastSeq: Option<nat>)

  /** The server's answer to a publication: the ack's sequence, or an error
      carrying its text. */
  datatype PubResult = Acked(sequence: nat) | PubFailed(text: string)

  class Server {
    /** The reply to a last-message request, by stream and subject. */
    const lastMsg: (string, string) -> LastMsgReply
    /** The subscription a subject and start position get. */
    const subscribe: (string, Start) -> Subscription
    /** The answer to a publication, given the publications before it. */
    const respond: (seq<PubRequest>, PubRequest) -> PubResult
    var subscriptions: seq<(string, Start)>
    var published: seq<PubRequest>

    constructor (
      lastMsg: (string, string) -> LastMsgReply,
      subscribe: (string, Start) -> Subscription,
      respond: (seq<PubRequest>, PubRequest) -> PubResult)
      ensures this.lastMsg == lastMsg && this.subscribe == subscribe && this.respond == respond
      ensures subscriptions == [] && published == []
    {
      this.lastMsg, this.subscribe, this.respond := lastMsg, subscribe, respond;
      subscriptions, published := [], [];
    }

    /** `js.SubscribeSync(subject, start)`. */
    method Subscribe(subject: string, start: Start) returns (s: Subscription)
      modifies this`subscriptions
      ensures s == subscribe(subject, start)
      ensures subscriptions == old(subscriptions) + [(subject, start)]
    {
      s := subscribe(subject, start);
      subscriptions := subscriptions + [(subject, start)];
    }

    /** `js.PublishMsg(msg, opts...)`. */
    method Publish(req: PubRequest) returns (r: PubResult)
      modifies this`published
      ensures r == respond(old(published), req)
      ensures published == old(published) + [req]
    {
      r := respond(published, req);
      published := published + [req];
    }
  }
}
