/** Chat delivery through the relay: send, fetch, store, acknowledge. */
module Delivery {
  import opened Prelude
  import opened ChatStore

  /** A device is named by its public key in hexadecimal, which also names the conversation with it. */
  type Device = string
  type EnvelopeId = nat

  const OUTGOING: string := "outgoing"
  const SENDING: string := "sending"
  const SENT: string := "sent"
  const FAILED: string := "failed"
  const DELIVERED: string := "delivered"

  /** What the recipient's parser makes of the opaque bytes: a chat-v1 object, with the
      fields it may lack, or anything else. */
  datatype Payload = Chat(msgId: Option<string>, text: string, timestamp: Option<nat>) | Other

  datatype Envelope = Envelope(id: EnvelopeId, to: Device, from: Device, payload: Payload)

  const MAX_PER_RECIPIENT: nat := 100
  const FETCH_LIMIT: nat := 50

  // -------- The relay's queues --------

  type Queue = seq<Envelope>

  /** Joins the end; the oldest leave while there are too many. */
  function Put(q: Queue, e: Envelope): Queue {
    var all := q + [e];
    if |all| <= MAX_PER_RECIPIENT then all else all[|all| - MAX_PER_RECIPIENT..]
  }

  function Pending(q: Queue): Queue { if |q| <= FETCH_LIMIT then q else q[..FETCH_LIMIT] }

  /** The envelopes whose identifier is not acknowledged. */
  function Deleted(q: Queue, ids: set<EnvelopeId>): Queue {
    if q == [] then []
    else if q[0].id in ids then Deleted(q[1..], ids)
    else [q[0]] + Deleted(q[1..], ids)
  }

  // -------- The fetch loop --------

  /** A failed write happened before its mutation reached memory, or after. */
  datatype WriteFailure = NotMutated | NotSaved

  datatype Write = Written | Refused(kind: WriteFailure)

  /** The position of the write that fails, if one does. */
  datatype Fault = Fault(position: nat, kind: WriteFailure)

  /** What the loop fills in for a field that an envelope lacks: a new identifier and the time. */
  datatype Stamp = Stamp(id: string, now: nat)

  function MessageOf(e: Envelope, stamp: Stamp): ChatMessage
    requires e.payload.Chat?
  {
    ChatMessage(
      if e.payload.msgId.Some? then e.payload.msgId.value else stamp.id, INCOMING, e.payload.text,
      if e.payload.timestamp.Some? then e.payload.timestamp.value else stamp.now, DELIVERED)
  }

  /** The conversations after each chat envelope of the list was appended to its sender's. */
  function AppendAll(all: Conversations, es: Queue, stamps: nat -> Stamp): Conversations {
    if es == [] then all
    else
      var n := |es| - 1;
      var before := AppendAll(all, es[..n], stamps);
      if es[n].payload.Chat? then After(before, es[n].from, Add(MessageOf(es[n], stamps(n)))) else before
  }

  function ChatIds(es: Queue): seq<EnvelopeId> {
    if es == [] then []
    else ChatIds(es[..|es| - 1]) + (if es[|es| - 1].payload.Chat? then [es[|es| - 1].id] else [])
  }

  function AckSet(es: Queue): set<EnvelopeId> { set id | id in ChatIds(es) }

  predicate Fails(batch: Queue, fault: Option<Fault>) {
    fault.Some? && fault.value.position < |batch| && batch[fault.value.position].payload.Chat?
  }

  /** How much of the batch reaches memory. */
  function Reached(batch: Queue, fault: Option<Fault>): (n: nat)
    ensures n <= |batch|
  {
    if !Fails(batch, fault) then |batch|
    else if fault.value.kind == NotSaved then fault.value.position + 1
    else fault.value.position
  }

  /** Appends each chat envelope in turn; a failed write ends the command at once, so
      nothing of the batch is acknowledged. Other envelopes are passed over. */
  method ProcessBatch(store: Store, batch: Queue, stamps: nat -> Stamp, fault: Option<Fault>)
    returns (r: Option<nat>, toAck: seq<EnvelopeId>)
    modifies store
    ensures r.Some? <==> !Fails(batch, fault)
    ensures r.Some? ==> toAck == ChatIds(batch) && r.value == |toAck|
    ensures r.None? ==> toAck == []
    ensures store.conversations == AppendAll(old(store.conversations), batch[..Reached(batch, fault)], stamps)
  {
    var ids: seq<EnvelopeId> := [];
    var newCount := 0;
    for i := 0 to |batch|
      invariant !(Fails(batch, fault) && fault.value.position < i)
      invariant ids == ChatIds(batch[..i]) && newCount == |ids|
      invariant store.conversations == AppendAll(old(store.conversations), batch[..i], stamps)
    {
      assert batch[..i + 1][..i] == batch[..i];
      var e := batch[i];
      if e.payload.Chat? {
        var failing := fault.Some? && fault.value.position == i;
        if !failing || fault.value.kind == NotSaved {
          store.AddMessage(e.from, MessageOf(e, stamps(i)));
        }
        if failing {
          return None, [];
        }
        ids := ids + [e.id];
        newCount := newCount + 1;
      }
    }
    assert batch[..|batch|] == batch;
    return Some(newCount), ids;
  }

  // -------- All devices and the relay --------

  /** One call of the fetch command: what it fetched, and how far it is. */
  datatype Session = Session(device: Device, batch: Queue, next: nat)

  /** One call of the send command. */
  datatype Sender = Sender(from: Device, to: Device, msgId: string, text: string, timestamp: nat, accepted: bool)

  /** The conversations here are never trimmed: each holds every message ever added to it, with its
      current status, of which the store keeps the last ones. Each device has them in memory and,
      as they were at its last successful save, in its file. */
  datatype World = World(
    queues: map<Device, Queue>, sessions: map<nat, Session>, senders: map<nat, Sender>,
    logs: map<Device, Conversations>, files: map<Device, Conversations>,
    // What has happened: the message identifiers each device has used; every envelope the relay
    // took, and every one it dropped on its own; and every chat envelope that a fetch appended
    // and saved, or appended without being able to save.
    used: set<(Device, string)>, accepted: set<Envelope>, dropped: set<Envelope>,
    stored: set<Envelope>, unsaved: set<Envelope>)

  datatype Action =
    | BeginSend(k: nat, from: Device, to: Device, msgId: string, text: string, timestamp: nat, write: Write)
    | Accept(k: nat, id: EnvelopeId)
    | Answer(k: nat, ok: bool, write: Write)
    | EndSend(k: nat)
    | Deposit(e: Envelope)
    | MarkRead(device: Device, peer: Device, write: Write)
    | Fetch(t: nat, device: Device)
    | Process(t: nat, stamp: Stamp)
    | FailWrite(t: nat, stamp: Stamp, kind: WriteFailure)
    | EndFetch(t: nat)
    | Ack(t: nat, lost: bool)
    | AckOther(device: Device, ids: set<EnvelopeId>)
    | Drop(e: Envelope)
    | Restart(device: Device)

  function QueueIn(queues: map<Device, Queue>, d: Device): Queue { if d in queues then queues[d] else [] }

  function QueueOf(w: World, d: Device): Queue { QueueIn(w.queues, d) }

  function LogIn(logs: map<Device, Conversations>, d: Device): Conversations { if d in logs then logs[d] else map[] }

  /** The operation on the untrimmed conversation of a peer. */
  function LogOn(all: Conversations, peer: Device, op: Op): Conversations {
    if op.Add? || peer in all then all[peer := LogStep(Of(all, peer), op)] else all
  }

  /** A write to the chat store of a device. A save writes the whole memory. */
  function Wrote(w: World, d: Device, peer: Device, op: Op, write: Write): (r: World)
    ensures r == w.(logs := r.logs, files := r.files)
  {
    var all := LogOn(LogIn(w.logs, d), peer, op);
    match write
    case Written => w.(logs := w.logs[d := all], files := w.files[d := all])
    case Refused(NotSaved) => w.(logs := w.logs[d := all])
    case Refused(NotMutated) => w
  }

  /** Every envelope ever taken by the relay has its own identifier. */
  predicate Fresh(w: World, id: EnvelopeId) { forall e :: e in w.accepted ==> e.id != id }

  function SentEnvelope(s: Sender, id: EnvelopeId): Envelope {
    Envelope(id, s.to, s.from, Chat(Some(s.msgId), s.text, Some(s.timestamp)))
  }

  predicate Processing(w: World, t: nat) { t in w.sessions && w.sessions[t].next < |w.sessions[t].batch| }

  function Current(w: World, t: nat): Envelope
    requires Processing(w, t)
  {
    w.sessions[t].batch[w.sessions[t].next]
  }

  ghost predicate Enabled(w: World, a: Action) {
    match a
    case BeginSend(k, from, _, msgId, _, _, _) => k !in w.senders && (from, msgId) !in w.used
    case Accept(k, id) => k in w.senders && !w.senders[k].accepted && Fresh(w, id)
    case Answer(k, ok, _) => k in w.senders && (ok ==> w.senders[k].accepted)
    case EndSend(k) => k in w.senders
    case Deposit(e) => Fresh(w, e.id)
    case MarkRead(_, _, _) => true
    case Fetch(t, _) => t !in w.sessions
    case Process(t, _) => Processing(w, t)
    case FailWrite(t, _, _) => Processing(w, t) && Current(w, t).payload.Chat?
    case EndFetch(t) => t in w.sessions
    case Ack(t, _) => t in w.sessions && w.sessions[t].next == |w.sessions[t].batch|
    case AckOther(d, ids) => forall e :: e in QueueOf(w, d) && e.id in ids ==> !e.payload.Chat?
    case Drop(e) => e in QueueOf(w, e.to)
    case Restart(_) => true
  }

  /** The relay takes an envelope, and drops the oldest one of a full queue. */
  function Taken(w: World, e: Envelope): World {
    var q := QueueOf(w, e.to);
    w.(queues := w.queues[e.to := Put(q, e)], accepted := w.accepted + {e},
       dropped := w.dropped + set x | x in q && x !in Put(q, e))
  }

  function FirstEntry(msgId: string, text: string, timestamp: nat): ChatMessage {
    ChatMessage(msgId, OUTGOING, text, timestamp, SENDING)
  }

  ghost function Apply(w: World, a: Action): World
    requires Enabled(w, a)
  {
    match a
    case BeginSend(k, from, to, msgId, text, ts, write) =>
      var u := Wrote(w, from, to, Add(FirstEntry(msgId, text, ts)), write).(used := w.used + {(from, msgId)});
      if write.Written? then u.(senders := w.senders[k := Sender(from, to, msgId, text, ts, false)]) else u
    case Accept(k, id) =>
      Taken(w, SentEnvelope(w.senders[k], id)).(senders := w.senders[k := w.senders[k].(accepted := true)])
    case Answer(k, ok, write) =>
      var s := w.senders[k];
      Wrote(w, s.from, s.to, Update(s.msgId, if ok then SENT else FAILED), write).(senders := w.senders - {k})
    case EndSend(k) => w.(senders := w.senders - {k})
    case Deposit(e) => Taken(w, e)
    case MarkRead(d, peer, write) => Wrote(w, d, peer, MarkAll, write)
    case Fetch(t, d) => w.(sessions := w.sessions[t := Session(d, Pending(QueueOf(w, d)), 0)])
    case Process(t, stamp) =>
      var s, e := w.sessions[t], Current(w, t);
      var u := w.(sessions := w.sessions[t := s.(next := s.next + 1)]);
      if e.payload.Chat? then Wrote(u, s.device, e.from, Add(MessageOf(e, stamp)), Written).(stored := w.stored + {e}) else u
    case FailWrite(t, stamp, kind) =>
      var s, e := w.sessions[t], Current(w, t);
      var u := Wrote(w, s.device, e.from, Add(MessageOf(e, stamp)), Refused(kind)).(sessions := w.sessions - {t});
      if kind == NotSaved then u.(unsaved := w.unsaved + {e}) else u
    case EndFetch(t) => w.(sessions := w.sessions - {t})
    case Ack(t, lost) =>
      var s := w.sessions[t];
      var u := w.(sessions := w.sessions - {t});
      if lost then u else u.(queues := w.queues[s.device := Deleted(QueueOf(w, s.device), AckSet(s.batch))])
    case AckOther(d, ids) => w.(queues := w.queues[d := Deleted(QueueOf(w, d), ids)])
    case Drop(e) =>
      w.(queues := w.queues[e.to := Deleted(QueueOf(w, e.to), {e.id})], dropped := w.dropped + {e})
    case Restart(d) =>
      w.(logs := w.logs[d := LogIn(w.files, d)],
         sessions := map t | t in w.sessions && w.sessions[t].device != d :: w.sessions[t],
         senders := map k | k in w.senders && w.senders[k].from != d :: w.senders[k])
  }

  ghost predicate Starts(w: World) {
    w == World(map[], map[], map[], map[], map[], {}, {}, {}, {}, {})
  }

  ghost predicate Runs(w: World, actions: seq<Action>, last: World)
    decreases |actions|
  {
    if actions == [] then last == w
    else Enabled(w, actions[0]) && Runs(Apply(w, actions[0]), actions[1..], last)
  }
}
