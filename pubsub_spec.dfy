/**
 * The topic registry of the WebSocket pub/sub handler (app/src/ws/pubsub.rs)
 * as values: what subscribe, cancel and disconnect cleanup do to the registry,
 * what publish sends, and one connection's read loop as a fold over the frames
 * it receives. Frames arrive already decoded: serde's parse of a text frame
 * (and of its `data` as a `{topic}` or a `{topic, message}` object) is part of
 * the input, with serde's error text when it fails. What a connection sends is
 * appended to the outbox of the receiving connection.
 */
module PubSubSpec {
  import opened Wrappers
  import opened Utf8

  newtype Uuid = x: int | 0 <= x < 0x1_0000_0000_0000_0000_0000_0000_0000_0000

  /**
   * A connection's registration under a topic. Its send half (`tx`) is the
   * connection's own outbox, which is named by the same uuid.
   */
  datatype Subscriber = Subscriber(uuid: Uuid)

  datatype Topic = Topic(topic: string, subscribers: map<Uuid, Subscriber>)

  /** `PubSubState::topics`. */
  type Registry = map<string, Topic>

  /** Every entry is filed under its own name and every subscriber under its own uuid. */
  ghost predicate WellFormed(reg: Registry) {
    forall t | t in reg ::
      reg[t].topic == t && forall u | u in reg[t].subscribers :: reg[t].subscribers[u].uuid == u
  }

  /** The registry invariant: no topic is kept without subscribers. */
  ghost predicate NoEmptyTopics(reg: Registry) {
    forall t | t in reg :: reg[t].subscribers != map[]
  }

  predicate Subscribed(reg: Registry, t: string, u: Uuid) {
    t in reg && u in reg[t].subscribers
  }

  /** The connections a publish to `t` reaches. */
  function Recipients(reg: Registry, t: string): set<Uuid> {
    if t in reg then reg[t].subscribers.Keys else {}
  }

  /**
   * `subscribe`: `entry(t).or_insert_with(Topic::new)` and then
   * `subscribers.entry(u).or_insert_with(Subscriber::new)`.
   */
  function AddSubscriber(reg: Registry, t: string, u: Uuid): (r: Registry)
    ensures Subscribed(r, t, u)
    ensures r.Keys == reg.Keys + {t}
    ensures forall t' | t' in reg && t' != t :: r[t'] == reg[t']
    ensures forall v :: Subscribed(r, t, v) <==> v == u || Subscribed(reg, t, v)
  {
    var topic := if t in reg then reg[t] else Topic(t, map[]);
    var subscribers := if u in topic.subscribers then topic.subscribers
                       else topic.subscribers[u := Subscriber(u)];
    reg[t := topic.(subscribers := subscribers)]
  }

  /** `cancel`: `u` leaves `t`, and `t` is dropped when that leaves it empty. */
  function RemoveSubscriber(reg: Registry, t: string, u: Uuid): (r: Registry)
    ensures !Subscribed(r, t, u)
    ensures t !in reg ==> r == reg
    ensures t in reg ==> (t in r <==> reg[t].subscribers.Keys != {u} && reg[t].subscribers.Keys != {})
    ensures forall t' | t' != t :: (t' in r <==> t' in reg) && (t' in r ==> r[t'] == reg[t'])
    ensures forall v | v != u :: Subscribed(r, t, v) <==> Subscribed(reg, t, v)
  {
    if t in reg then
      var subscribers := reg[t].subscribers - {u};
      assert subscribers.Keys == reg[t].subscribers.Keys - {u};
      assert subscribers == map[] <==> subscribers.Keys == {};
      if subscribers == map[] then reg - {t}
      else reg[t := reg[t].(subscribers := subscribers)]
    else
      reg
  }

  /** The first half of the cleanup: `u` is removed from every topic. */
  function Strip(reg: Registry, u: Uuid): Registry {
    map t | t in reg :: reg[t].(subscribers := reg[t].subscribers - {u})
  }

  /** `retain(|_, v| !v.subscribers.is_empty())`. */
  function Prune(reg: Registry): Registry {
    map t | t in reg && reg[t].subscribers != map[] :: reg[t]
  }

  /** The cleanup when a connection's loop ends. */
  function Disconnect(reg: Registry, u: Uuid): (r: Registry)
    ensures forall t :: !Subscribed(r, t, u)
    ensures forall t, v | v != u :: Subscribed(r, t, v) <==> Subscribed(reg, t, v)
    ensures NoEmptyTopics(r)
  {
    var stripped := Strip(reg, u);
    assert forall t, v | t in reg && v != u :: v in stripped[t].subscribers <==> v in reg[t].subscribers;
    Prune(stripped)
  }

  /** What a connection sends: a text frame, a Pong frame, or a published message. */
  datatype Outbound =
    | SendText(text: string)
    | SendPong(payload: seq<byte>)
    /** The text frame `{"topic": topic, "message": message}`. */
    | SendPublished(topic: string, message: string)

  /** What each connection has been sent, in order. */
  type Outboxes = map<Uuid, seq<Outbound>>

  function Log(out: Outboxes, u: Uuid): seq<Outbound> {
    if u in out then out[u] else []
  }

  function Send(out: Outboxes, u: Uuid, m: Outbound): (r: Outboxes)
    ensures Log(r, u) == Log(out, u) + [m]
    ensures forall v | v != u :: Log(r, v) == Log(out, v)
  {
    out[u := Log(out, u) + [m]]
  }

  /** Every recipient gets `m` once more; nobody else gets anything. */
  function Fanout(out: Outboxes, recipients: set<Uuid>, m: Outbound): Outboxes {
    map v | v in out.Keys + recipients :: Log(out, v) + if v in recipients then [m] else []
  }

  /** A fan-out sends every recipient `m` once more and sends nobody else anything. */
  lemma FanoutDelivers(out: Outboxes, recipients: set<Uuid>, m: Outbound, v: Uuid)
    ensures Log(Fanout(out, recipients, m), v) == Log(out, v) + if v in recipients then [m] else []
  {
  }

  /** `on_error`: the text frame `error : <Debug of the error>`. */
  function ErrorFrame(detail: string): Outbound {
    SendText("error : " + detail)
  }

  /** The `Debug` text of `diagnostics::Error::Message("Unknown message")`. */
  const UnknownMessage := "Message(\"Unknown message\")"

  datatype PublishData = PublishData(topic: string, message: string)

  /**
   * The raw `data` of a packet, as serde would decode it as a `Subscribe` or
   * `Cancel` (`{topic}`) and as a `Publish` (`{topic, message}`); a failure
   * carries serde's `Debug` text.
   */
  datatype Data = Data(asTopic: Result<string, string>, asPublish: Result<PublishData, string>)

  datatype Packet = Packet(op: string, data: Data)

  /**
   * What the stream yields: a text frame with serde's parse of it as a
   * `Packet`, the other WebSocket message kinds, or a stream error.
   */
  datatype Inbound =
    | Text(packet: Result<Packet, string>)
    | Binary(bytes: seq<byte>)
    | Ping(payload: seq<byte>)
    | Pong(payload: seq<byte>)
    | Close
    | StreamError

  /** The state one connection's loop works on. `open` is false once the loop has ended. */
  datatype Session = Session(topics: Registry, outbox: Outboxes, open: bool)

  /** Report `detail` to the connection `u` and end its loop. */
  function Fail(s: Session, u: Uuid, detail: string): Session {
    Session(s.topics, Send(s.outbox, u, ErrorFrame(detail)), false)
  }

  /** One turn of the `while let` loop of `pubsub_handler` for connection `u`. */
  function Step(s: Session, u: Uuid, f: Inbound): Session {
    if !s.open then s
    else match f
      case Text(Err(e)) => Fail(s, u, e)
      case Text(Ok(p)) =>
        if p.op == "subscribe" then
          match p.data.asTopic
          case Err(e) => Fail(s, u, e)
          case Ok(t) => s.(topics := AddSubscriber(s.topics, t, u))
        else if p.op == "publish" then
          match p.data.asPublish
          case Err(e) => Fail(s, u, e)
          case Ok(d) =>
            s.(outbox := Fanout(s.outbox, Recipients(s.topics, d.topic), SendPublished(d.topic, d.message)))
        else if p.op == "cancel" then
          match p.data.asTopic
          case Err(e) => Fail(s, u, e)
          case Ok(t) => s.(topics := RemoveSubscriber(s.topics, t, u))
        else
          Fail(s, u, UnknownMessage)
      case Binary(_) => s
      case Close => s.(open := false)
      case Ping(_) => s.(outbox := Send(s.outbox, u, SendPong(Ascii("Pong"))))
      case Pong(_) => s.(outbox := Send(s.outbox, u, SendPong(Ascii("ping"))))
      case StreamError => s.(open := false)
  }

  /** The loop over a whole sequence of frames; frames after the loop has ended change nothing. */
  function Run(s: Session, u: Uuid, frames: seq<Inbound>): Session
    decreases |frames|
  {
    if frames == [] then s
    else Step(Run(s, u, frames[..|frames| - 1]), u, frames[|frames| - 1])
  }

  // ---------------------------------------------------------------- properties

  /** A new registry is empty and satisfies the invariant. */
  lemma EmptyRegistry()
    ensures WellFormed(map[]) && NoEmptyTopics(map[])
  {
  }

  /** Subscribing again changes nothing: the existing subscriber is kept. */
  lemma SubscribeIdempotent(reg: Registry, t: string, u: Uuid)
    requires Subscribed(reg, t, u)
    ensures AddSubscriber(reg, t, u) == reg
  {
    assert reg[t].(subscribers := reg[t].subscribers) == reg[t];
  }

  /** Subscribe and cancel keep the registry invariant. */
  lemma OperationsKeepInvariant(reg: Registry, t: string, u: Uuid)
    requires WellFormed(reg) && NoEmptyTopics(reg)
    ensures WellFormed(AddSubscriber(reg, t, u)) && NoEmptyTopics(AddSubscriber(reg, t, u))
    ensures WellFormed(RemoveSubscriber(reg, t, u)) && NoEmptyTopics(RemoveSubscriber(reg, t, u))
  {
  }

  /** The cleanup keeps the registry well formed. */
  lemma DisconnectWellFormed(reg: Registry, u: Uuid)
    requires WellFormed(reg)
    ensures WellFormed(Disconnect(reg, u))
  {
  }

  /** One turn changes only `u`'s own subscriptions. */
  lemma StepKeepsOthers(s: Session, u: Uuid, f: Inbound, t: string, v: Uuid)
    requires v != u
    ensures Subscribed(Step(s, u, f).topics, t, v) <==> Subscribed(s.topics, t, v)
  {
  }

  /** One turn keeps the registry invariant. */
  lemma StepKeepsInvariant(s: Session, u: Uuid, f: Inbound)
    requires WellFormed(s.topics) && NoEmptyTopics(s.topics)
    ensures WellFormed(Step(s, u, f).topics) && NoEmptyTopics(Step(s, u, f).topics)
  {
    if s.open && f.Text? && f.packet.Ok? {
      var p := f.packet.value;
      if p.op == "subscribe" && p.data.asTopic.Ok? {
        OperationsKeepInvariant(s.topics, p.data.asTopic.value, u);
      } else if p.op == "cancel" && p.data.asTopic.Ok? {
        OperationsKeepInvariant(s.topics, p.data.asTopic.value, u);
      }
    }
  }

  /** The whole loop changes only `u`'s own subscriptions. */
  lemma {:induction false} RunKeepsOthers(s: Session, u: Uuid, frames: seq<Inbound>, t: string, v: Uuid)
    requires v != u
    ensures Subscribed(Run(s, u, frames).topics, t, v) <==> Subscribed(s.topics, t, v)
    decreases |frames|
  {
    if frames != [] {
      var prefix := frames[..|frames| - 1];
      RunKeepsOthers(s, u, prefix, t, v);
      StepKeepsOthers(Run(s, u, prefix), u, frames[|frames| - 1], t, v);
    }
  }

  /** The registry invariant holds after every turn of the loop. */
  lemma {:induction false} RunKeepsInvariant(s: Session, u: Uuid, frames: seq<Inbound>)
    requires WellFormed(s.topics) && NoEmptyTopics(s.topics)
    ensures WellFormed(Run(s, u, frames).topics) && NoEmptyTopics(Run(s, u, frames).topics)
    decreases |frames|
  {
    if frames != [] {
      var prefix := frames[..|frames| - 1];
      RunKeepsInvariant(s, u, prefix);
      StepKeepsInvariant(Run(s, u, prefix), u, frames[|frames| - 1]);
    }
  }

  /** The loop over one frame more is one turn more. */
  lemma RunOneMore(s: Session, u: Uuid, frames: seq<Inbound>, i: nat)
    requires i < |frames|
    ensures Run(s, u, frames[..i + 1]) == Step(Run(s, u, frames[..i]), u, frames[i])
  {
    assert frames[..i + 1][..i] == frames[..i];
  }

  /** Once the loop has ended, later frames are not read. */
  lemma {:induction false} RunAfterEnd(s: Session, u: Uuid, frames: seq<Inbound>, i: nat)
    requires i <= |frames| && !Run(s, u, frames[..i]).open
    ensures Run(s, u, frames) == Run(s, u, frames[..i])
    decreases |frames| - i
  {
    if i < |frames| {
      assert frames[..i + 1][..i] == frames[..i];
      RunAfterEnd(s, u, frames, i + 1);
    } else {
      assert frames[..i] == frames;
    }
  }

  /**
   * A connection's whole life: after its loop and the cleanup, it is subscribed
   * to nothing, every other connection has exactly the subscriptions it had
   * before, and no topic is empty.
   */
  lemma ConnectionLifecycle(s: Session, u: Uuid, frames: seq<Inbound>)
    ensures var final := Disconnect(Run(s, u, frames).topics, u);
      && (forall t :: !Subscribed(final, t, u))
      && (forall t, v | v != u :: Subscribed(final, t, v) <==> Subscribed(s.topics, t, v))
      && NoEmptyTopics(final)
  {
    forall t, v | v != u
      ensures Subscribed(Disconnect(Run(s, u, frames).topics, u), t, v) <==> Subscribed(s.topics, t, v)
    {
      RunKeepsOthers(s, u, frames, t, v);
    }
  }

  /**
   * Publishing to a topic sends every subscriber of it exactly one frame with
   * the topic and the message, sends nobody else anything, and leaves the
   * registry as it was; a publish to an absent topic sends nothing.
   */
  lemma PublishFansOut(s: Session, u: Uuid, d: PublishData, data: Data, v: Uuid)
    requires s.open && data.asPublish == Ok(d)
    ensures var s' := Step(s, u, Text(Ok(Packet("publish", data))));
      && s'.topics == s.topics && s'.open
      && Log(s'.outbox, v) == Log(s.outbox, v) + (if Subscribed(s.topics, d.topic, v) then [SendPublished(d.topic, d.message)] else [])
  {
    FanoutDelivers(s.outbox, Recipients(s.topics, d.topic), SendPublished(d.topic, d.message), v);
  }

  /** A malformed packet, malformed op data or an unknown op: one error frame to the sender, and the loop ends. */
  lemma BadInputEndsLoop(s: Session, u: Uuid, f: Inbound)
    requires s.open && f.Text?
    requires f.packet.Err?
      || (f.packet.value.op == "subscribe" && f.packet.value.data.asTopic.Err?)
      || (f.packet.value.op == "cancel" && f.packet.value.data.asTopic.Err?)
      || (f.packet.value.op == "publish" && f.packet.value.data.asPublish.Err?)
      || f.packet.value.op !in {"subscribe", "publish", "cancel"}
    ensures var s' := Step(s, u, f);
      && !s'.open && s'.topics == s.topics
      && (exists detail :: s'.outbox == Send(s.outbox, u, ErrorFrame(detail)))
  {
  }

  /** An unknown op is reported with the `Debug` text of the `Unknown message` error. */
  lemma UnknownOpMessage(s: Session, u: Uuid, op: string, data: Data)
    requires s.open && op !in {"subscribe", "publish", "cancel"}
    ensures Log(Step(s, u, Text(Ok(Packet(op, data)))).outbox, u)
         == Log(s.outbox, u) + [SendText("error : Message(\"Unknown message\")")]
  {
    var a, b := "error : " + UnknownMessage, "error : Message(\"Unknown message\")";
    assert |a| == |b|;
    assert forall i | 0 <= i < |a| :: a[i] == b[i];
    assert a == b;
    assert op != "subscribe" && op != "publish" && op != "cancel";
    assert Step(s, u, Text(Ok(Packet(op, data)))) == Fail(s, u, UnknownMessage);
  }

  /**
   * A Ping is answered with a Pong carrying "Pong" and a Pong with a Pong
   * carrying "ping"; neither echoes the payload received (RFC 6455 section
   * 5.5.3 asks a Pong to echo the Ping's data) and neither touches the registry.
   */
  lemma PingPongReplies(s: Session, u: Uuid, payload: seq<byte>)
    requires s.open
    ensures var p := Step(s, u, Ping(payload));
      p.open && p.topics == s.topics && p.outbox == Send(s.outbox, u, SendPong(Ascii("Pong")))
    ensures var q := Step(s, u, Pong(payload));
      q.open && q.topics == s.topics && q.outbox == Send(s.outbox, u, SendPong(Ascii("ping")))
    ensures payload != Ascii("Pong") ==> Log(Step(s, u, Ping(payload)).outbox, u) != Log(s.outbox, u) + [SendPong(payload)]
  {
    if payload != Ascii("Pong") {
      var l := Log(Step(s, u, Ping(payload)).outbox, u);
      assert l[|l| - 1] == SendPong(Ascii("Pong"));
    }
  }

  /** Close and stream errors end the loop silently; binary frames are ignored. */
  lemma EndsAndIgnores(s: Session, u: Uuid, bytes: seq<byte>)
    requires s.open
    ensures Step(s, u, Close) == s.(open := false)
    ensures Step(s, u, StreamError) == s.(open := false)
    ensures Step(s, u, Binary(bytes)) == s
  {
  }

  /**
   * A connection that subscribes to `t` and then publishes `m` to it receives
   * `{topic: t, message: m}` exactly once.
   */
  lemma SubscribeThenPublish(s: Session, u: Uuid, t: string, m: string, sub: Data, pub: Data)
    requires s.open && sub.asTopic == Ok(t) && pub.asPublish == Ok(PublishData(t, m))
    ensures var s' := Run(s, u, [Text(Ok(Packet("subscribe", sub))), Text(Ok(Packet("publish", pub)))]);
      Log(s'.outbox, u) == Log(s.outbox, u) + [SendPublished(t, m)]
  {
    var frames := [Text(Ok(Packet("subscribe", sub))), Text(Ok(Packet("publish", pub)))];
    assert frames[..1][..0] == [];
    var s1 := Step(s, u, frames[0]);
    assert Run(s, u, frames[..1]) == s1;
    assert Subscribed(s1.topics, t, u);
    FanoutDelivers(s1.outbox, Recipients(s1.topics, t), SendPublished(t, m), u);
  }

  /** Publishing to one topic never reaches a connection subscribed only to another. */
  lemma PublishIsolation(s: Session, u: Uuid, d: PublishData, data: Data, v: Uuid)
    requires s.open && data.asPublish == Ok(d) && !Subscribed(s.topics, d.topic, v)
    ensures Log(Step(s, u, Text(Ok(Packet("publish", data)))).outbox, v) == Log(s.outbox, v)
  {
    FanoutDelivers(s.outbox, Recipients(s.topics, d.topic), SendPublished(d.topic, d.message), v);
  }

  /** After the last subscriber of `t` cancels, `t` is gone and a later publish to it sends nothing. */
  lemma LastCancelDropsTopic(s: Session, u: Uuid, t: string, data: Data)
    requires s.open && data.asTopic == Ok(t)
    requires Subscribed(s.topics, t, u) && s.topics[t].subscribers.Keys == {u}
    ensures t !in Step(s, u, Text(Ok(Packet("cancel", data)))).topics
    ensures Recipients(Step(s, u, Text(Ok(Packet("cancel", data)))).topics, t) == {}
  {
  }
}
