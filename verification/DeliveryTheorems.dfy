/** At-least-once delivery: what every step of senders, fetches, the relay and restarts keeps. */
module DeliveryTheorems {
  import opened Prelude
  import opened ChatStore
  import opened Delivery

  // -------- The relay --------

  lemma {:induction false} DeletedIs(q: Queue, ids: set<EnvelopeId>, e: Envelope)
    ensures e in Deleted(q, ids) <==> e in q && e.id !in ids
  {
    if q != [] {
      DeletedIs(q[1..], ids, e);
    }
  }

  ghost predicate DistinctEnvelopes(q: Queue) { forall i, j :: 0 <= i < j < |q| ==> q[i] != q[j] }

  lemma {:induction false} DeletedDistinct(q: Queue, ids: set<EnvelopeId>)
    requires DistinctEnvelopes(q)
    ensures DistinctEnvelopes(Deleted(q, ids)) && |Deleted(q, ids)| <= |q|
  {
    if q != [] {
      DeletedDistinct(q[1..], ids);
      DeletedIs(q[1..], ids, q[0]);
    }
  }

  lemma {:induction false} ChatIdsAre(es: Queue, id: EnvelopeId)
    ensures id in ChatIds(es) <==> exists i :: 0 <= i < |es| && es[i].payload.Chat? && es[i].id == id
  {
    if es != [] {
      var init := es[..|es| - 1];
      ChatIdsAre(init, id);
      if i :| 0 <= i < |es| && es[i].payload.Chat? && es[i].id == id {
        if i < |init| { assert init[i].id == id; }
      }
    }
  }

  /** A queue holds accepted envelopes of its own recipient, each once, none of them dropped, and
      never more than its limit. */
  ghost predicate QueueSound(d: Device, q: Queue, accepted: set<Envelope>, dropped: set<Envelope>) {
    && |q| <= MAX_PER_RECIPIENT && DistinctEnvelopes(q)
    && forall e :: e in q ==> e.to == d && e in accepted && e !in dropped
  }

  ghost predicate QueuesSound(queues: map<Device, Queue>, accepted: set<Envelope>, dropped: set<Envelope>) {
    forall d :: QueueSound(d, QueueIn(queues, d), accepted, dropped)
  }

  ghost predicate IdsUnique(accepted: set<Envelope>) {
    forall e, f :: e in accepted && f in accepted && e.id == f.id ==> e == f
  }

  /** Every accepted chat envelope is waiting, or stored, or was dropped by the relay. */
  ghost predicate NothingLost(queues: map<Device, Queue>, accepted: set<Envelope>, dropped: set<Envelope>,
                              stored: set<Envelope>)
  {
    forall e :: e in accepted && e.payload.Chat? ==> e in QueueIn(queues, e.to) || e in stored || e in dropped
  }

  ghost predicate NothingInvented(accepted: set<Envelope>, dropped: set<Envelope>, stored: set<Envelope>,
                                  unsaved: set<Envelope>)
  {
    && dropped <= accepted
    && forall e :: e in stored || e in unsaved ==> e in accepted && e.payload.Chat?
  }

  ghost predicate RelaySound(queues: map<Device, Queue>, accepted: set<Envelope>, dropped: set<Envelope>,
                             stored: set<Envelope>, unsaved: set<Envelope>)
  {
    && QueuesSound(queues, accepted, dropped) && IdsUnique(accepted)
    && NothingLost(queues, accepted, dropped, stored) && NothingInvented(accepted, dropped, stored, unsaved)
  }

  ghost predicate RelayGood(w: World) { RelaySound(w.queues, w.accepted, w.dropped, w.stored, w.unsaved) }

  // -------- Fetches --------

  ghost predicate SessionSound(s: Session, accepted: set<Envelope>, stored: set<Envelope>) {
    && s.next <= |s.batch|
    && (forall i :: 0 <= i < |s.batch| ==> s.batch[i] in accepted && s.batch[i].to == s.device)
    && (forall i :: 0 <= i < s.next && s.batch[i].payload.Chat? ==> s.batch[i] in stored)
  }

  ghost predicate SessionsSound(sessions: map<nat, Session>, accepted: set<Envelope>, stored: set<Envelope>) {
    forall t :: t in sessions ==> SessionSound(sessions[t], accepted, stored)
  }

  // -------- Conversations --------

  /** What the entries of the conversations are judged by. */
  datatype Facts = Facts(senders: map<nat, Sender>, used: set<(Device, string)>,
                         accepted: set<Envelope>, stored: set<Envelope>, unsaved: set<Envelope>)

  function FactsOf(w: World): Facts { Facts(w.senders, w.used, w.accepted, w.stored, w.unsaved) }

  /** The message is the one the loop makes of this envelope, whatever its status is by now. */
  predicate Carries(m: ChatMessage, e: Envelope) {
    && e.payload.Chat? && m.direction == INCOMING && m.text == e.payload.text
    && (e.payload.msgId.Some? ==> m.id == e.payload.msgId.value)
    && (e.payload.timestamp.Some? ==> m.timestamp == e.payload.timestamp.value)
  }

  lemma CarriesIff(m: ChatMessage, e: Envelope)
    ensures Carries(m, e) <==> e.payload.Chat? && exists stamp :: m.(status := DELIVERED) == MessageOf(e, stamp)
  {
    if Carries(m, e) {
      assert m.(status := DELIVERED) == MessageOf(e, Stamp(m.id, m.timestamp));
    }
  }

  ghost predicate Held(all: Conversations, e: Envelope) {
    e.from in all && exists i :: 0 <= i < |all[e.from]| && Carries(all[e.from][i], e)
  }

  /** An incoming entry was made of an envelope from this peer that a fetch appended here. */
  ghost predicate Came(f: Facts, d: Device, peer: Device, m: ChatMessage) {
    exists e :: (e in f.stored || e in f.unsaved) && e.to == d && e.from == peer && Carries(m, e)
  }

  /** The relay accepted this very message from here to there. */
  ghost predicate Went(accepted: set<Envelope>, d: Device, peer: Device, m: ChatMessage) {
    exists e :: e in accepted && e.from == d && e.to == peer && e.payload == Chat(Some(m.id), m.text, Some(m.timestamp))
  }

  /** A running send of this identifier is a send of this message. */
  predicate OwnSender(senders: map<nat, Sender>, d: Device, peer: Device, m: ChatMessage) {
    forall k :: k in senders && senders[k].from == d && senders[k].msgId == m.id ==>
      senders[k].to == peer && senders[k].text == m.text && senders[k].timestamp == m.timestamp
  }

  ghost predicate EntryGood(f: Facts, d: Device, peer: Device, m: ChatMessage) {
    if m.direction == INCOMING then Came(f, d, peer, m)
    else
      && m.direction == OUTGOING && (d, m.id) in f.used
      && (m.status == SENT ==> Went(f.accepted, d, peer, m)) && OwnSender(f.senders, d, peer, m)
  }

  ghost predicate Entries(f: Facts, d: Device, all: Conversations) {
    forall peer, i :: peer in all && 0 <= i < |all[peer]| ==> EntryGood(f, d, peer, all[peer][i])
  }

  ghost predicate HoldsStored(f: Facts, d: Device, all: Conversations) {
    forall e :: e in f.stored && e.to == d ==> Held(all, e)
  }

  ghost predicate DeviceSound(f: Facts, d: Device, all: Conversations) { Entries(f, d, all) && HoldsStored(f, d, all) }

  ghost predicate LogsSound(f: Facts, logs: map<Device, Conversations>) {
    forall d :: DeviceSound(f, d, LogIn(logs, d))
  }

  ghost predicate SendersSound(senders: map<nat, Sender>, used: set<(Device, string)>, accepted: set<Envelope>) {
    forall k :: k in senders ==>
      && (senders[k].from, senders[k].msgId) in used
      && (senders[k].accepted ==> exists id :: SentEnvelope(senders[k], id) in accepted)
  }

  ghost predicate Inv(w: World) {
    && RelayGood(w) && SessionsSound(w.sessions, w.accepted, w.stored)
    && SendersSound(w.senders, w.used, w.accepted)
    && LogsSound(FactsOf(w), w.logs) && LogsSound(FactsOf(w), w.files)
  }

  lemma StartsInv(w: World)
    requires Starts(w)
    ensures Inv(w)
  {
    assert forall d :: QueueIn(w.queues, d) == [] && LogIn(w.logs, d) == map[] && LogIn(w.files, d) == map[];
  }

  // -------- Facts that grow --------

  /** Every sender is an earlier one, or uses an identifier that was unused. */
  ghost predicate SendersGrow(f: Facts, g: Facts) {
    forall k :: k in g.senders ==>
      || (k in f.senders && g.senders[k].(accepted := true) == f.senders[k].(accepted := true))
      || (g.senders[k].from, g.senders[k].msgId) !in f.used
  }

  ghost predicate Grow(f: Facts, g: Facts) {
    f.used <= g.used && f.accepted <= g.accepted && f.stored <= g.stored && f.unsaved <= g.unsaved && SendersGrow(f, g)
  }

  lemma EntryKept(f: Facts, g: Facts, d: Device, peer: Device, m: ChatMessage)
    requires EntryGood(f, d, peer, m) && Grow(f, g)
    ensures EntryGood(g, d, peer, m)
  {
    if m.direction == INCOMING {
      var e :| (e in f.stored || e in f.unsaved) && e.to == d && e.from == peer && Carries(m, e);
      assert e in g.stored || e in g.unsaved;
    } else if m.status == SENT {
      var e :| e in f.accepted && e.from == d && e.to == peer && e.payload == Chat(Some(m.id), m.text, Some(m.timestamp));
      assert e in g.accepted;
    }
  }

  lemma EntriesKept(f: Facts, g: Facts, d: Device, all: Conversations)
    requires Entries(f, d, all) && Grow(f, g)
    ensures Entries(g, d, all)
  {
    forall peer, i | peer in all && 0 <= i < |all[peer]| ensures EntryGood(g, d, peer, all[peer][i]) {
      EntryKept(f, g, d, peer, all[peer][i]);
    }
  }

  lemma LogsKept(f: Facts, g: Facts, logs: map<Device, Conversations>)
    requires LogsSound(f, logs) && Grow(f, g) && f.stored == g.stored
    ensures LogsSound(g, logs)
  {
    forall d ensures DeviceSound(g, d, LogIn(logs, d)) {
      assert DeviceSound(f, d, LogIn(logs, d));
      EntriesKept(f, g, d, LogIn(logs, d));
    }
  }

  /** The conversations of one device change; only envelopes for it become stored. */
  lemma LogsChanged(f: Facts, g: Facts, logs: map<Device, Conversations>, d: Device, all: Conversations)
    requires LogsSound(f, logs) && Grow(f, g) && DeviceSound(g, d, all)
    requires forall e :: e in g.stored ==> e in f.stored || e.to == d
    ensures LogsSound(g, logs[d := all])
  {
    var after := logs[d := all];
    forall x ensures DeviceSound(g, x, LogIn(after, x)) {
      if x != d {
        assert DeviceSound(f, x, LogIn(logs, x));
        EntriesKept(f, g, x, LogIn(logs, x));
      }
    }
  }

  // -------- Operations on one conversation --------

  lemma {:induction false} UpdatedEntry(convo: Conversation, id: string, status: string, i: nat)
    requires i < |convo|
    ensures var m := Updated(convo, id, status)[i];
      m == convo[i] || (convo[i].id == id && m == convo[i].(status := status))
  {
    if convo[0].id != id && i > 0 {
      UpdatedEntry(convo[1..], id, status, i - 1);
    }
  }

  /** After an operation each entry is an earlier one, changed at most as the operation may, or the
      added message. */
  lemma EntryAfter(convo: Conversation, op: Op, i: nat)
    requires i < |LogStep(convo, op)|
    ensures |convo| <= |LogStep(convo, op)|
    ensures var m := LogStep(convo, op)[i];
      if i < |convo| then
        || m == convo[i]
        || (op.Update? && convo[i].id == op.id && m == convo[i].(status := op.status))
        || (op.MarkAll? && convo[i].direction == INCOMING && m == convo[i].(status := READ))
      else op.Add? && m == op.msg
  {
    if op.Update? && i < |convo| {
      UpdatedEntry(convo, op.id, op.status, i);
    }
  }

  /** A send of this identifier from here to this peer that the relay accepted. */
  ghost predicate AcceptedSend(f: Facts, d: Device, peer: Device, id: string) {
    exists k, n :: k in f.senders && f.senders[k].from == d && f.senders[k].to == peer && f.senders[k].msgId == id
      && SentEnvelope(f.senders[k], n) in f.accepted
  }

  lemma UpdateKeepsEntry(f: Facts, d: Device, peer: Device, m: ChatMessage, status: string)
    requires EntryGood(f, d, peer, m) && (status == SENT ==> AcceptedSend(f, d, peer, m.id))
    ensures EntryGood(f, d, peer, m.(status := status))
  {
    var m' := m.(status := status);
    if m.direction == INCOMING {
      var e :| (e in f.stored || e in f.unsaved) && e.to == d && e.from == peer && Carries(m, e);
      assert Carries(m', e);
    } else if status == SENT {
      var k, n :| k in f.senders && f.senders[k].from == d && f.senders[k].to == peer && f.senders[k].msgId == m.id
        && SentEnvelope(f.senders[k], n) in f.accepted;
      assert Went(f.accepted, d, peer, m') by {
        assert SentEnvelope(f.senders[k], n).payload == Chat(Some(m'.id), m'.text, Some(m'.timestamp));
      }
    }
  }

  /** What an operation needs so that the entries stay good. */
  ghost predicate OpGood(f: Facts, g: Facts, d: Device, peer: Device, op: Op) {
    match op
    case Add(msg) => EntryGood(g, d, peer, msg)
    case Update(id, status) => status == SENT ==> AcceptedSend(f, d, peer, id)
    case MarkAll => true
  }

  lemma EntriesAfter(f: Facts, g: Facts, d: Device, all: Conversations, peer: Device, op: Op)
    requires Entries(f, d, all) && Grow(f, g) && OpGood(f, g, d, peer, op)
    ensures Entries(g, d, LogOn(all, peer, op))
  {
    var after := LogOn(all, peer, op);
    forall p, i | p in after && 0 <= i < |after[p]| ensures EntryGood(g, d, p, after[p][i]) {
      if p == peer && (op.Add? || peer in all) {
        EntryAfterGood(f, g, d, Of(all, peer), peer, op, i);
      } else {
        EntryKept(f, g, d, p, all[p][i]);
      }
    }
  }

  lemma EntryAfterGood(f: Facts, g: Facts, d: Device, convo: Conversation, peer: Device, op: Op, i: nat)
    requires forall j :: 0 <= j < |convo| ==> EntryGood(f, d, peer, convo[j])
    requires Grow(f, g) && OpGood(f, g, d, peer, op) && i < |LogStep(convo, op)|
    ensures EntryGood(g, d, peer, LogStep(convo, op)[i])
  {
    hide EntryGood, Grow, LogStep, AcceptedSend;
    EntryAfter(convo, op, i);
    if i < |convo| {
      var m := LogStep(convo, op)[i];
      if m != convo[i] {
        assert READ != SENT by { assert |READ| == |SENT|; assert READ[0] != SENT[0]; }
        UpdateKeepsEntry(f, d, peer, convo[i], m.status);
      }
      EntryKept(f, g, d, peer, m);
    }
  }

  lemma HeldAfter(all: Conversations, peer: Device, op: Op, e: Envelope)
    requires Held(all, e)
    ensures Held(LogOn(all, peer, op), e)
  {
    var i :| 0 <= i < |all[e.from]| && Carries(all[e.from][i], e);
    if e.from == peer {
      LengthAfter(all[peer], op);
      EntryAfter(all[peer], op, i);
      assert Carries(LogStep(all[peer], op)[i], e);
    }
  }

  lemma LengthAfter(convo: Conversation, op: Op)
    ensures |convo| <= |LogStep(convo, op)|
  {
  }

  lemma DeviceAfter(f: Facts, g: Facts, d: Device, all: Conversations, peer: Device, op: Op)
    requires DeviceSound(f, d, all) && Grow(f, g) && OpGood(f, g, d, peer, op)
    requires forall e :: e in g.stored && e.to == d ==> e in f.stored || (op.Add? && e.from == peer && Carries(op.msg, e))
    ensures DeviceSound(g, d, LogOn(all, peer, op))
  {
    EntriesAfter(f, g, d, all, peer, op);
    forall e | e in g.stored && e.to == d ensures Held(LogOn(all, peer, op), e) {
      if e in f.stored {
        HeldAfter(all, peer, op, e);
      } else {
        var convo := LogOn(all, peer, op)[peer];
        assert Carries(convo[|convo| - 1], e);
      }
    }
  }

  /** A write that only changes conversations keeps both copies sound. */
  lemma WroteSound(f: Facts, g: Facts, w: World, d: Device, peer: Device, op: Op, write: Write)
    requires LogsSound(f, w.logs) && LogsSound(f, w.files) && Grow(f, g) && OpGood(f, g, d, peer, op)
    requires forall e :: e in g.stored ==>
      e in f.stored || (write.Written? && op.Add? && e.to == d && e.from == peer && Carries(op.msg, e))
    ensures var u := Wrote(w, d, peer, op, write); LogsSound(g, u.logs) && LogsSound(g, u.files)
  {
    hide OpGood, Grow;
    var all := LogIn(w.logs, d);
    assert DeviceSound(f, d, all);
    match write
    case Written =>
      DeviceAfter(f, g, d, all, peer, op);
      LogsChanged(f, g, w.logs, d, LogOn(all, peer, op));
      LogsChanged(f, g, w.files, d, LogOn(all, peer, op));
    case Refused(NotSaved) =>
      StoredSame(f, g);
      DeviceAfter(f, g, d, all, peer, op);
      LogsChanged(f, g, w.logs, d, LogOn(all, peer, op));
      LogsKept(f, g, w.files);
    case Refused(NotMutated) =>
      StoredSame(f, g);
      LogsKept(f, g, w.logs);
      LogsKept(f, g, w.files);
  }

  lemma StoredSame(f: Facts, g: Facts)
    requires Grow(f, g) && forall e :: e in g.stored ==> e in f.stored
    ensures f.stored == g.stored
  {
  }

  // -------- Each action --------

  lemma PutIs(q: Queue, e: Envelope, x: Envelope)
    ensures x in Put(q, e) ==> x in q || x == e
    ensures e in Put(q, e)
  {
    assert (q + [e])[|q|] == e;
    assert Put(q, e)[|Put(q, e)| - 1] == e;
  }

  lemma PutSound(d: Device, q: Queue, e: Envelope, accepted: set<Envelope>, dropped: set<Envelope>)
    requires QueueSound(d, q, accepted, dropped) && e !in accepted && e.to == d && dropped <= accepted
    ensures QueueSound(d, Put(q, e), accepted + {e}, dropped + set x | x in q && x !in Put(q, e))
  {
    forall x ensures x in Put(q, e) ==> x in q || x == e {
      PutIs(q, e, x);
    }
    assert DistinctEnvelopes(q + [e]);
  }

  lemma TakenKeeps(w: World, e: Envelope)
    requires RelayGood(w) && Fresh(w, e.id)
    ensures RelayGood(Taken(w, e))
  {
    hide Put;
    var u := Taken(w, e);
    var q := QueueOf(w, e.to);
    assert QueueSound(e.to, q, w.accepted, w.dropped);
    PutSound(e.to, q, e, w.accepted, w.dropped);
    PutIs(q, e, e);
    forall d ensures QueueSound(d, QueueIn(u.queues, d), u.accepted, u.dropped) {
      assert QueueSound(d, QueueIn(w.queues, d), w.accepted, w.dropped);
    }
  }

  /** Deleting from one queue envelopes that are all stored, dropped or no chat loses nothing. */
  lemma DeleteKeeps(w: World, d: Device, ids: set<EnvelopeId>, gone: set<Envelope>)
    requires RelayGood(w)
    requires forall e :: e in gone ==> e in QueueOf(w, d) && e.id in ids
    requires forall e :: e in QueueOf(w, d) && e.id in ids && e.payload.Chat? ==> e in w.stored || e in gone
    ensures RelayGood(w.(queues := w.queues[d := Deleted(QueueOf(w, d), ids)], dropped := w.dropped + gone))
  {
    var q, queues := QueueOf(w, d), w.queues[d := Deleted(QueueOf(w, d), ids)];
    forall e ensures e in Deleted(q, ids) <==> e in q && e.id !in ids {
      DeletedIs(q, ids, e);
    }
    assert QueueSound(d, QueueIn(w.queues, d), w.accepted, w.dropped);
    DeletedDistinct(q, ids);
    forall x ensures QueueSound(x, QueueIn(queues, x), w.accepted, w.dropped + gone) {
      assert QueueSound(x, QueueIn(w.queues, x), w.accepted, w.dropped);
    }
  }

  lemma BeginSendKeeps(w: World, a: Action)
    requires Inv(w) && Enabled(w, a) && a.BeginSend?
    ensures Inv(Apply(w, a))
  {
    hide DeviceSound, RelaySound, SessionsSound, LogsSound, Wrote, Came, Went;
    var u := Apply(w, a);
    var m := FirstEntry(a.msgId, a.text, a.timestamp);
    assert m.direction != INCOMING && m.status != SENT by {
      assert |OUTGOING| == |INCOMING| && OUTGOING[0] != INCOMING[0] && |SENDING| != |SENT|;
    }
    assert EntryGood(FactsOf(u), a.from, a.to, m);
    WroteSound(FactsOf(w), FactsOf(u), w, a.from, a.to, Add(m), a.write);
  }

  lemma AnswerKeeps(w: World, a: Action)
    requires Inv(w) && Enabled(w, a) && a.Answer?
    ensures Inv(Apply(w, a))
  {
    hide DeviceSound, RelaySound, SessionsSound, LogsSound, Wrote, Came, Went;
    var u, s := Apply(w, a), w.senders[a.k];
    if a.ok {
      var id :| SentEnvelope(s, id) in w.accepted;
      assert AcceptedSend(FactsOf(w), s.from, s.to, s.msgId);
    } else {
      assert |FAILED| != |SENT|;
    }
    WroteSound(FactsOf(w), FactsOf(u), w, s.from, s.to, Update(s.msgId, if a.ok then SENT else FAILED), a.write);
  }

  lemma AcceptKeeps(w: World, a: Action)
    requires Inv(w) && Enabled(w, a) && (a.Accept? || a.Deposit?)
    ensures Inv(Apply(w, a))
  {
    hide DeviceSound, RelaySound, Put, QueueOf;
    var u := Apply(w, a);
    var e := if a.Accept? then SentEnvelope(w.senders[a.k], a.id) else a.e;
    TakenKeeps(w, e);
    SessionsKept(w.sessions, w.accepted, w.stored, u.accepted, u.stored);
    forall k | k in u.senders && u.senders[k].accepted ensures exists id :: SentEnvelope(u.senders[k], id) in u.accepted {
      if a.Accept? && k == a.k {
        assert SentEnvelope(u.senders[k], a.id) == e;
      } else {
        var id :| SentEnvelope(w.senders[k], id) in w.accepted;
        assert SentEnvelope(u.senders[k], id) in u.accepted;
      }
    }
    LogsKept(FactsOf(w), FactsOf(u), w.logs);
    LogsKept(FactsOf(w), FactsOf(u), w.files);
  }

  lemma SessionsKept(sessions: map<nat, Session>, accepted: set<Envelope>, stored: set<Envelope>,
                     accepted': set<Envelope>, stored': set<Envelope>)
    requires SessionsSound(sessions, accepted, stored) && accepted <= accepted' && stored <= stored'
    ensures SessionsSound(sessions, accepted', stored')
  {
    forall t | t in sessions ensures SessionSound(sessions[t], accepted', stored') {
      assert SessionSound(sessions[t], accepted, stored);
    }
  }

  lemma MarkReadKeeps(w: World, a: Action)
    requires Inv(w) && Enabled(w, a) && a.MarkRead?
    ensures Inv(Apply(w, a))
  {
    hide DeviceSound, RelaySound, SessionsSound, LogsSound, Wrote, Came, Went;
    WroteSound(FactsOf(w), FactsOf(w), w, a.device, a.peer, MarkAll, a.write);
  }

  lemma FetchKeeps(w: World, a: Action)
    requires Inv(w) && Enabled(w, a) && a.Fetch?
    ensures Inv(Apply(w, a))
  {
    hide DeviceSound;
    var q := QueueOf(w, a.device);
    assert QueueSound(a.device, q, w.accepted, w.dropped);
    assert forall i :: 0 <= i < |Pending(q)| ==> Pending(q)[i] == q[i];
  }

  lemma RelayFacts(w: World)
    requires RelayGood(w)
    ensures NothingInvented(w.accepted, w.dropped, w.stored, w.unsaved)
  {
  }

  lemma MoreAppended(w: World, stored: set<Envelope>, unsaved: set<Envelope>)
    requires RelayGood(w) && w.stored <= stored && w.unsaved <= unsaved
    requires forall e :: e in stored || e in unsaved ==> e in w.accepted && e.payload.Chat?
    ensures RelayGood(w.(stored := stored, unsaved := unsaved))
  {
    hide QueuesSound, IdsUnique, QueueIn;
  }

  lemma ProcessKeeps(w: World, a: Action)
    requires Inv(w) && Enabled(w, a) && a.Process?
    ensures Inv(Apply(w, a))
  {
    hide DeviceSound, LogsSound, Wrote, RelaySound, SendersSound;
    var u, s, e := Apply(w, a), w.sessions[a.t], Current(w, a.t);
    assert SessionSound(s, w.accepted, w.stored);
    SessionsKept(w.sessions, w.accepted, w.stored, u.accepted, u.stored);
    assert SessionSound(u.sessions[a.t], u.accepted, u.stored);
    RelayFacts(w);
    MoreAppended(w, u.stored, u.unsaved);
    if e.payload.Chat? {
      var m := MessageOf(e, a.stamp);
      assert Came(FactsOf(u), s.device, e.from, m);
      var v := w.(sessions := w.sessions[a.t := s.(next := s.next + 1)]);
      WroteSound(FactsOf(w), FactsOf(u), v, s.device, e.from, Add(m), Written);
      assert LogsSound(FactsOf(u), u.logs) && LogsSound(FactsOf(u), u.files);
    }
  }

  lemma FailWriteKeeps(w: World, a: Action)
    requires Inv(w) && Enabled(w, a) && a.FailWrite?
    ensures Inv(Apply(w, a))
  {
    hide DeviceSound, LogOn, RelaySound, SendersSound;
    var u, s, e := Apply(w, a), w.sessions[a.t], Current(w, a.t);
    assert SessionSound(s, w.accepted, w.stored);
    RelayFacts(w);
    MoreAppended(w, u.stored, u.unsaved);
    var m := MessageOf(e, a.stamp);
    if a.kind == NotSaved {
      assert Came(FactsOf(u), s.device, e.from, m);
      WroteSound(FactsOf(w), FactsOf(u), w, s.device, e.from, Add(m), Refused(NotSaved));
    }
  }

  /** A completed batch was stored whole, so its acknowledgement removes only stored envelopes. */
  lemma AckedAreStored(w: World, s: Session, e: Envelope)
    requires RelayGood(w) && SessionSound(s, w.accepted, w.stored) && s.next == |s.batch|
    requires e in QueueOf(w, s.device) && e.id in ChatIds(s.batch)
    ensures e in w.stored && e.payload.Chat?
  {
    ChatIdsAre(s.batch, e.id);
    var i :| 0 <= i < |s.batch| && s.batch[i].payload.Chat? && s.batch[i].id == e.id;
    assert QueueSound(s.device, QueueOf(w, s.device), w.accepted, w.dropped);
    assert s.batch[i] == e;
  }

  lemma AckKeeps(w: World, a: Action)
    requires Inv(w) && Enabled(w, a) && a.Ack?
    ensures Inv(Apply(w, a))
  {
    hide DeviceSound, RelaySound, SessionSound;
    var s := w.sessions[a.t];
    assert SessionSound(s, w.accepted, w.stored);
    if !a.lost {
      forall e | e in QueueOf(w, s.device) && e.id in AckSet(s.batch) ensures e in w.stored {
        AckedAreStored(w, s, e);
      }
      DeleteKeeps(w, s.device, AckSet(s.batch), {});
      assert w.dropped + {} == w.dropped;
    }
  }

  lemma DropKeeps(w: World, a: Action)
    requires Inv(w) && Enabled(w, a) && (a.AckOther? || a.Drop?)
    ensures Inv(Apply(w, a))
  {
    hide DeviceSound, SessionSound;
    if a.AckOther? {
      DeleteKeeps(w, a.device, a.ids, {});
      assert w.dropped + {} == w.dropped;
    } else {
      assert QueueSound(a.e.to, QueueOf(w, a.e.to), w.accepted, w.dropped);
      DeleteKeeps(w, a.e.to, {a.e.id}, {a.e});
    }
  }

  lemma EndKeeps(w: World, a: Action)
    requires Inv(w) && Enabled(w, a) && (a.EndSend? || a.EndFetch?)
    ensures Inv(Apply(w, a))
  {
    hide DeviceSound, RelaySound, SessionSound;
    LogsKept(FactsOf(w), FactsOf(Apply(w, a)), w.logs);
    LogsKept(FactsOf(w), FactsOf(Apply(w, a)), w.files);
  }

  lemma RestartKeeps(w: World, a: Action)
    requires Inv(w) && Enabled(w, a) && a.Restart?
    ensures Inv(Apply(w, a))
  {
    hide DeviceSound, RelaySound, SessionSound;
    var u := Apply(w, a);
    LogsKept(FactsOf(w), FactsOf(u), w.logs);
    LogsKept(FactsOf(w), FactsOf(u), w.files);
    assert DeviceSound(FactsOf(u), a.device, LogIn(w.files, a.device));
    LogsChanged(FactsOf(u), FactsOf(u), w.logs, a.device, LogIn(w.files, a.device));
  }

  /** Every step keeps the invariant. */
  lemma StepKeeps(w: World, a: Action)
    requires Inv(w) && Enabled(w, a)
    ensures Inv(Apply(w, a))
  {
    hide Inv, Enabled, Apply;
    match a
    case BeginSend(_, _, _, _, _, _, _) => BeginSendKeeps(w, a);
    case Accept(_, _) => AcceptKeeps(w, a);
    case Answer(_, _, _) => AnswerKeeps(w, a);
    case EndSend(_) => EndKeeps(w, a);
    case Deposit(_) => AcceptKeeps(w, a);
    case MarkRead(_, _, _) => MarkReadKeeps(w, a);
    case Fetch(_, _) => FetchKeeps(w, a);
    case Process(_, _) => ProcessKeeps(w, a);
    case FailWrite(_, _, _) => FailWriteKeeps(w, a);
    case EndFetch(_) => EndKeeps(w, a);
    case Ack(_, _) => AckKeeps(w, a);
    case AckOther(_, _) => DropKeeps(w, a);
    case Drop(_) => DropKeeps(w, a);
    case Restart(_) => RestartKeeps(w, a);
  }

  /** No step forgets anything of what has happened. */
  lemma StepGrows(w: World, a: Action)
    requires Enabled(w, a)
    ensures var u := Apply(w, a); w.accepted <= u.accepted && w.stored <= u.stored && w.dropped <= u.dropped
  {
    hide Wrote, Enabled, QueueIn, Put;
  }

  // -------- Whole runs --------

  lemma {:induction false} RunKeeps(w: World, actions: seq<Action>, last: World)
    requires Inv(w) && Runs(w, actions, last)
    ensures Inv(last) && w.accepted <= last.accepted && w.stored <= last.stored && w.dropped <= last.dropped
    decreases |actions|
  {
    hide Inv, Enabled, Apply;
    if actions != [] {
      StepKeeps(w, actions[0]);
      StepGrows(w, actions[0]);
      RunKeeps(Apply(w, actions[0]), actions[1..], last);
    }
  }

  /** What a fetch appended and saved is still in the recipient's conversation with its sender. */
  lemma StoredIsHeld(w: World, e: Envelope)
    requires Inv(w) && e in w.stored
    ensures Held(LogIn(w.logs, e.to), e) && Held(LogIn(w.files, e.to), e)
  {
    assert DeviceSound(FactsOf(w), e.to, LogIn(w.logs, e.to));
    assert DeviceSound(FactsOf(w), e.to, LogIn(w.files, e.to));
  }

  /** At-least-once delivery. In every run from the start, with any interleaving of senders, fetches
      and restarts, lost answers, lost acknowledgements and failed writes: every chat envelope that
      was ever accepted and that the relay has not dropped is in its recipient's inbox, or its
      message is in the recipient's conversation with its sender, in memory and in the file. */
  lemma AtLeastOnce(w: World, actions: seq<Action>, last: World, e: Envelope)
    requires Starts(w) && Runs(w, actions, last)
    requires e in last.accepted && e.payload.Chat? && e !in last.dropped
    ensures e in QueueOf(last, e.to) || (Held(LogIn(last.logs, e.to), e) && Held(LogIn(last.files, e.to), e))
  {
    StartsInv(w);
    RunKeeps(w, actions, last);
    if e in last.stored {
      StoredIsHeld(last, e);
    }
  }

  /** Nothing is made up. In every run each incoming entry of a conversation, in memory or in the
      file, carries a chat envelope that the relay accepted from this peer for this device, and
      each entry marked sent is a message the relay accepted from this device for this peer. */
  lemma NothingMadeUp(w: World, actions: seq<Action>, last: World, d: Device, peer: Device, i: nat, saved: bool)
    requires Starts(w) && Runs(w, actions, last)
    requires var all := LogIn(if saved then last.files else last.logs, d); peer in all && i < |all[peer]|
    ensures var m := LogIn(if saved then last.files else last.logs, d)[peer][i];
      && (m.direction == INCOMING ==>
          exists e :: (e in last.stored || e in last.unsaved) && e in last.accepted
            && e.to == d && e.from == peer && Carries(m, e))
      && (m.direction != INCOMING && m.status == SENT ==> Went(last.accepted, d, peer, m))
  {
    StartsInv(w);
    RunKeeps(w, actions, last);
    var logs, f := if saved then last.files else last.logs, FactsOf(last);
    assert DeviceSound(f, d, LogIn(logs, d));
    var m := LogIn(logs, d)[peer][i];
    assert EntryGood(f, d, peer, m);
    if m.direction == INCOMING {
      var e :| (e in f.stored || e in f.unsaved) && e.to == d && e.from == peer && Carries(m, e);
      assert e in last.accepted;
    }
  }

  /** The fetch loop removes nothing but chat envelopes, and only from its own inbox. */
  lemma AckTakesOnlyChat(w: World, t: nat, lost: bool, d: Device, e: Envelope)
    requires Inv(w) && Enabled(w, Ack(t, lost)) && e in QueueOf(w, d)
    ensures !e.payload.Chat? || d != w.sessions[t].device ==> e in QueueOf(Apply(w, Ack(t, lost)), d)
  {
    var s := w.sessions[t];
    DeletedIs(QueueOf(w, d), AckSet(s.batch), e);
    assert SessionSound(s, w.accepted, w.stored);
    if d == s.device && e.id in ChatIds(s.batch) {
      AckedAreStored(w, s, e);
    }
  }
}
