/** What whole commands do: a send marks its message, a fetch brings it, reading marks it read. */
module DeliveryCommands {
  import opened Prelude
  import opened ChatStore
  import opened Delivery
  import opened DeliveryTheorems
  import opened DeliveryProgress

  /** What one send command writes and asks of the relay. */
  datatype Send = Send(k: nat, from: Device, to: Device, msgId: string, text: string, timestamp: nat)

  predicate CanSend(w: World, s: Send) { s.k !in w.senders && (s.from, s.msgId) !in w.used }

  function Began(s: Send): Action { BeginSend(s.k, s.from, s.to, s.msgId, s.text, s.timestamp, Written) }

  /** The steps of a send that the relay took under this identifier, and of one that failed. */
  function SendActions(s: Send, id: EnvelopeId, ok: bool): seq<Action> {
    if ok then [Began(s), Accept(s.k, id), Answer(s.k, true, Written)] else [Began(s), Answer(s.k, false, Written)]
  }

  function Outgoing(s: Send, status: string): ChatMessage { ChatMessage(s.msgId, "outgoing", s.text, s.timestamp, status) }

  function EnvelopeOf(s: Send, id: EnvelopeId): Envelope {
    Envelope(id, s.to, s.from, Chat(Some(s.msgId), s.text, Some(s.timestamp)))
  }

  lemma BeginIs(w: World, s: Send)
    requires CanSend(w, s)
    ensures Enabled(w, Began(s))
    ensures var u := Apply(w, Began(s)); var all := LogIn(w.logs, s.from);
      && u == w.(logs := u.logs, files := u.files, used := w.used + {(s.from, s.msgId)},
                 senders := w.senders[s.k := Sender(s.from, s.to, s.msgId, s.text, s.timestamp, false)])
      && LogIn(u.logs, s.from) == LogIn(u.files, s.from) == all[s.to := Of(all, s.to) + [Outgoing(s, "sending")]]
  {
  }

  lemma AnswerIs(w: World, k: nat, ok: bool)
    requires k in w.senders && (ok ==> w.senders[k].accepted) && w.senders[k].to in LogIn(w.logs, w.senders[k].from)
    ensures Enabled(w, Answer(k, ok, Written))
    ensures var s, u := w.senders[k], Apply(w, Answer(k, ok, Written)); var all := LogIn(w.logs, s.from);
      && u == w.(logs := u.logs, files := u.files, senders := w.senders - {k})
      && LogIn(u.logs, s.from) == LogIn(u.files, s.from)
         == all[s.to := Updated(all[s.to], s.msgId, if ok then "sent" else "failed")]
  {
  }

  lemma AcceptIs(w: World, k: nat, id: EnvelopeId)
    requires k in w.senders && !w.senders[k].accepted && Fresh(w, id)
    ensures Enabled(w, Accept(k, id))
    ensures var s, u := w.senders[k], Apply(w, Accept(k, id)); var e := SentEnvelope(s, id);
      && u == w.(queues := w.queues[e.to := Put(QueueOf(w, e.to), e)], accepted := w.accepted + {e}, dropped := u.dropped,
                 senders := w.senders[k := s.(accepted := true)])
  {
    hide Put;
  }

  /** Updating right after appending marks the appended entry iff no earlier one has its identifier. */
  lemma MarkAppended(convo: Conversation, m: ChatMessage, status: string)
    ensures !HasId(convo, m.id) ==> Updated(convo + [m], m.id, status) == convo + [m.(status := status)]
    ensures HasId(convo, m.id) ==> Updated(convo + [m], m.id, status) == Updated(convo, m.id, status) + [m]
  {
    UpdatedSplit(convo, [m], m.id, status);
    if !HasId(convo, m.id) {
      UpdatedMissing(convo, m.id, status);
      assert Updated([m], m.id, status) == [m.(status := status)];
    }
  }

  /** A send that nothing disturbs appends its message to the conversation with the recipient, in
      memory and in the file, and marks it "sent" if the relay took it and "failed" if not; but if an
      earlier entry there has its identifier, that entry is marked instead. */
  lemma SendMarks(w: World, s: Send, id: EnvelopeId, ok: bool) returns (u: World)
    requires CanSend(w, s) && Fresh(w, id)
    ensures Runs(w, SendActions(s, id, ok), u) && u.senders == w.senders && u.sessions == w.sessions && u.stored == w.stored
    ensures var before, status := Of(LogIn(w.logs, s.from), s.to), if ok then "sent" else "failed";
      && LogIn(u.logs, s.from) == LogIn(u.files, s.from) == LogIn(w.logs, s.from)[s.to :=
           if HasId(before, s.msgId) then Updated(before, s.msgId, status) + [Outgoing(s, "sending")]
           else before + [Outgoing(s, status)]]
    ensures u.queues == if ok then w.queues[s.to := Put(QueueOf(w, s.to), EnvelopeOf(s, id))] else w.queues
    ensures u.accepted == if ok then w.accepted + {EnvelopeOf(s, id)} else w.accepted
  {
    hide Runs, Put, Updated, Enabled, Apply, Fresh;
    BeginIs(w, s);
    var v := Apply(w, Began(s));
    RunsOne(w, Began(s));
    var x := v;
    if ok {
      assert Fresh(v, id) by { FreshSame(w, v, id); }
      AcceptIs(v, s.k, id);
      x := Apply(v, Accept(s.k, id));
      RunsOne(v, Accept(s.k, id));
      RunsJoin(w, [Began(s)], v, [Accept(s.k, id)], x);
    }
    AnswerIs(x, s.k, ok);
    var a := Answer(s.k, ok, Written);
    u := Apply(x, a);
    RunsOne(x, a);
    RunsJoin(w, if ok then [Began(s)] + [Accept(s.k, id)] else [Began(s)], x, [a], u);
    assert SendActions(s, id, ok) == (if ok then [Began(s)] + [Accept(s.k, id)] else [Began(s)]) + [a];
    MarkAppended(Of(LogIn(w.logs, s.from), s.to), Outgoing(s, "sending"), if ok then "sent" else "failed");
    assert u.senders == w.senders;
  }

  lemma FreshSame(w: World, v: World, id: EnvelopeId)
    requires Fresh(w, id) && v.accepted == w.accepted
    ensures Fresh(v, id)
  {
  }

  /** From sender to recipient: a send that the relay took, followed by one fetch command of a
      recipient with fewer than fifty envelopes waiting, leaves the message in the recipient's
      conversation with the sender, in memory and in the file. */
  lemma SentIsReceived(w: World, s: Send, id: EnvelopeId, t: nat, stamps: nat -> Stamp) returns (last: World)
    requires Inv(w) && CanSend(w, s) && Fresh(w, id) && t !in w.sessions && |QueueOf(w, s.to)| < FETCH_LIMIT
    ensures Runs(w, SendActions(s, id, true) + RoundActions(t, s.to, stamps, |QueueOf(w, s.to)| + 1), last) && Inv(last)
    ensures Held(LogIn(last.logs, s.to), EnvelopeOf(s, id)) && Held(LogIn(last.files, s.to), EnvelopeOf(s, id))
  {
    hide Inv, Runs, Held, RoundActions, Fresh;
    var u := SendMarks(w, s, id, true);
    RunKeeps(w, SendActions(s, id, true), u);
    var e, q := EnvelopeOf(s, id), QueueOf(w, s.to);
    assert QueueOf(u, s.to) == q + [e];
    assert Pending(q + [e]) == q + [e];
    last := OneRound(u, t, s.to, stamps);
    RunsJoin(w, SendActions(s, id, true), u, RoundActions(t, s.to, stamps, |q| + 1), last);
    RunKeeps(w, SendActions(s, id, true) + RoundActions(t, s.to, stamps, |q| + 1), last);
    assert (q + [e])[|q|] == e;
    assert e in last.stored;
    StoredIsHeld(last, e);
  }

  /** After a read mark that was saved, nothing from the peer is unread on the device. */
  lemma ReadMarksAll(w: World, d: Device, peer: Device)
    ensures var u := Apply(w, MarkRead(d, peer, Written));
      && LogIn(u.logs, d) == LogIn(u.files, d) && UnreadIn(Of(LogIn(u.logs, d), peer)) == 0
      && |Of(LogIn(u.logs, d), peer)| == |Of(LogIn(w.logs, d), peer)|
  {
    var convo := Of(LogIn(w.logs, d), peer);
    MarkedIsRead(convo);
    assert peer !in LogIn(w.logs, d) ==> convo == [];
  }
}
