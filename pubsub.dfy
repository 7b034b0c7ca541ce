/**
 * The pub/sub handler of app/src/ws/pubsub.rs as it runs: the shared topic
 * registry is an object whose map the handler updates in place, the send
 * halves of the connections are one object holding every connection's
 * outbox, and `pubsub_handler` is a loop over the frames a connection
 * receives followed by the cleanup. Each operation is proved against the
 * functions of `PubSubSpec`.
 */
module PubSub {
  import opened Wrappers
  import opened Utf8
  import opened PubSubSpec

  /** The send halves of all connections; `outbox[u]` is what connection `u` has been sent. */
  class Sinks {
    var outbox: Outboxes

    /** `tx.lock().await.send(m)` on connection `u`'s send half. */
    method Send(u: Uuid, m: Outbound)
      modifies this
      ensures outbox == PubSubSpec.Send(old(outbox), u, m)
    {
      outbox := outbox[u := Log(outbox, u) + [m]];
    }
  }

  /** The outboxes before any recipient has been sent to. */
  lemma FanoutNobody(out: Outboxes, m: Outbound)
    ensures Fanout(out, {}, m) == out
  {
    var f := Fanout(out, {}, m);
    assert f.Keys == out.Keys;
    forall v | v in out ensures f[v] == out[v] {
      assert Log(out, v) + [] == out[v];
    }
  }

  /** One more send extends the fan-out by one recipient. */
  lemma FanoutOneMore(out: Outboxes, done: set<Uuid>, v: Uuid, m: Outbound)
    requires v !in done
    ensures PubSubSpec.Send(Fanout(out, done, m), v, m) == Fanout(out, done + {v}, m)
  {
    var before := Fanout(out, done, m);
    var sent := PubSubSpec.Send(before, v, m);
    var after := Fanout(out, done + {v}, m);
    assert sent.Keys == after.Keys;
    forall w | w in after ensures sent[w] == after[w] {
      if w == v {
        assert Log(before, v) == Log(out, v);
      }
    }
  }

  /** The registry part way through the first cleanup loop: the topics in `todo` are not yet visited. */
  ghost function StrippedExcept(reg: Registry, u: Uuid, todo: set<string>): Registry {
    map t | t in reg :: if t in todo then reg[t] else reg[t].(subscribers := reg[t].subscribers - {u})
  }

  lemma StrippedNone(reg: Registry, u: Uuid)
    ensures StrippedExcept(reg, u, reg.Keys) == reg
  {
  }

  lemma StrippedAll(reg: Registry, u: Uuid)
    ensures StrippedExcept(reg, u, {}) == Strip(reg, u)
  {
  }

  lemma StripOneMore(reg: Registry, u: Uuid, todo: set<string>, t: string)
    requires t in todo && todo <= reg.Keys
    ensures var cur := StrippedExcept(reg, u, todo);
      t in cur && cur[t := cur[t].(subscribers := cur[t].subscribers - {u})] == StrippedExcept(reg, u, todo - {t})
  {
  }

  /** The registry part way through `retain`: the topics in `todo` are not yet visited. */
  ghost function PrunedExcept(reg: Registry, todo: set<string>): Registry {
    map t | t in reg && (t in todo || reg[t].subscribers != map[]) :: reg[t]
  }

  lemma PrunedNone(reg: Registry)
    ensures PrunedExcept(reg, reg.Keys) == reg
  {
  }

  lemma PrunedAll(reg: Registry)
    ensures PrunedExcept(reg, {}) == Prune(reg)
  {
  }

  lemma PruneOneMore(reg: Registry, todo: set<string>, t: string)
    requires t in todo && todo <= reg.Keys
    ensures var cur := PrunedExcept(reg, todo);
      && t in cur && cur[t] == reg[t]
      && (cur[t].subscribers == map[] ==> cur - {t} == PrunedExcept(reg, todo - {t}))
      && (cur[t].subscribers != map[] ==> cur == PrunedExcept(reg, todo - {t}))
  {
  }

  /** `PubSubState`: the registry every connection of the endpoint shares. */
  class PubSubState {
    var topics: Registry

    ghost predicate Valid()
      reads this
    {
      WellFormed(topics) && NoEmptyTopics(topics)
    }

    /** `PubSubState::new`: an empty registry. */
    constructor()
      ensures Valid() && topics == map[]
    {
      topics := map[];
    }

    /** The `subscribe` arm, under the write lock. */
    method Subscribe(u: Uuid, t: string)
      requires Valid()
      modifies this
      ensures Valid() && topics == AddSubscriber(old(topics), t, u)
    {
      var topic := if t in topics then topics[t] else Topic(t, map[]);
      if u !in topic.subscribers {
        topic := topic.(subscribers := topic.subscribers[u := Subscriber(u)]);
      }
      topics := topics[t := topic];
      OperationsKeepInvariant(old(topics), t, u);
    }

    /** The `cancel` arm, under the write lock. */
    method Cancel(u: Uuid, t: string)
      requires Valid()
      modifies this
      ensures Valid() && topics == RemoveSubscriber(old(topics), t, u)
    {
      if t in topics {
        var topic := topics[t];
        topic := topic.(subscribers := topic.subscribers - {u});
        if topic.subscribers == map[] {
          topics := topics - {t};
        } else {
          topics := topics[t := topic];
        }
      }
      OperationsKeepInvariant(old(topics), t, u);
    }

    /**
     * The `publish` arm, under the read lock: one send per subscriber of
     * `d.topic`, in the map's (unspecified) iteration order.
     */
    method Publish(d: PublishData, sinks: Sinks)
      modifies sinks
      ensures sinks.outbox == Fanout(old(sinks.outbox), Recipients(topics, d.topic), SendPublished(d.topic, d.message))
    {
      var m := SendPublished(d.topic, d.message);
      ghost var start := sinks.outbox;
      FanoutNobody(start, m);
      if d.topic in topics {
        var todo := topics[d.topic].subscribers.Keys;
        ghost var recipients := todo;
        while todo != {}
          invariant todo <= recipients
          invariant sinks.outbox == Fanout(start, recipients - todo, m)
          decreases todo
        {
          var v :| v in todo;
          ghost var done := recipients - todo;
          FanoutOneMore(start, done, v, m);
          sinks.Send(v, m);
          todo := todo - {v};
          assert recipients - todo == done + {v};
        }
        assert recipients - todo == recipients;
      }
    }

    /** The cleanup after the loop: `u` leaves every topic, then empty topics are dropped. */
    method Cleanup(u: Uuid)
      requires Valid()
      modifies this
      ensures Valid() && topics == Disconnect(old(topics), u)
    {
      ghost var stripped := Strip(topics, u);
      var todo := topics.Keys;
      StrippedNone(topics, u);
      while todo != {}
        invariant todo <= old(topics).Keys
        invariant topics == StrippedExcept(old(topics), u, todo)
        decreases todo
      {
        var t :| t in todo;
        StripOneMore(old(topics), u, todo, t);
        if u in topics[t].subscribers {
          topics := topics[t := topics[t].(subscribers := topics[t].subscribers - {u})];
        } else {
          assert topics[t].subscribers - {u} == topics[t].subscribers;
        }
        todo := todo - {t};
      }
      StrippedAll(old(topics), u);
      todo := topics.Keys;
      PrunedNone(stripped);
      while todo != {}
        invariant todo <= stripped.Keys
        invariant topics == PrunedExcept(stripped, todo)
        decreases todo
      {
        var t :| t in todo;
        PruneOneMore(stripped, todo, t);
        if topics[t].subscribers == map[] {
          topics := topics - {t};
        }
        todo := todo - {t};
      }
      PrunedAll(stripped);
      DisconnectWellFormed(old(topics), u);
    }

    /**
     * `pubsub_handler` for the connection `u`: the loop over the frames it
     * receives, which ends at the first Close, stream error or error reply,
     * and then the cleanup.
     */
    method Serve(u: Uuid, frames: seq<Inbound>, sinks: Sinks)
      requires Valid()
      modifies this, sinks
      ensures Valid()
      ensures var final := Run(Session(old(topics), old(sinks.outbox), true), u, frames);
        topics == Disconnect(final.topics, u) && sinks.outbox == final.outbox
    {
      ghost var start := Session(topics, sinks.outbox, true);
      var open := true;
      var i := 0;
      while i < |frames| && open
        invariant 0 <= i <= |frames|
        invariant Valid()
        invariant Session(topics, sinks.outbox, open) == Run(start, u, frames[..i])
        decreases |frames| - i
      {
        RunOneMore(start, u, frames, i);
        match frames[i] {
          case Text(packet) =>
            match packet {
              case Err(e) =>
                sinks.Send(u, ErrorFrame(e));
                open := false;
              case Ok(p) =>
                if p.op == "subscribe" {
                  match p.data.asTopic {
                    case Err(e) =>
                      sinks.Send(u, ErrorFrame(e));
                      open := false;
                    case Ok(t) =>
                      Subscribe(u, t);
                  }
                } else if p.op == "publish" {
                  match p.data.asPublish {
                    case Err(e) =>
                      sinks.Send(u, ErrorFrame(e));
                      open := false;
                    case Ok(d) =>
                      Publish(d, sinks);
                  }
                } else if p.op == "cancel" {
                  match p.data.asTopic {
                    case Err(e) =>
                      sinks.Send(u, ErrorFrame(e));
                      open := false;
                    case Ok(t) =>
                      Cancel(u, t);
                  }
                } else {
                  sinks.Send(u, ErrorFrame(UnknownMessage));
                  open := false;
                }
            }
          case Binary(_) =>
          case Close =>
            open := false;
          case Ping(_) =>
            sinks.Send(u, SendPong(Ascii("Pong")));
          case Pong(_) =>
            sinks.Send(u, SendPong(Ascii("ping")));
          case StreamError =>
            open := false;
        }
        i := i + 1;
      }
      if open {
        assert frames[..i] == frames;
      } else {
        RunAfterEnd(start, u, frames, i);
      }
      Cleanup(u);
    }
  }
}
