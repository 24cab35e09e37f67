/** The bounded per-peer conversations of the chat store. */
module ChatStore {
  import opened Prelude

  const MAX_MESSAGES_PER_PEER: nat := 500
  const INCOMING: string := "incoming"
  const READ: string := "read"

  datatype ChatMessage = ChatMessage(id: string, direction: string, text: string, timestamp: nat, status: string)

  type Conversation = seq<ChatMessage>
  type Conversations = map<string, Conversation>

  // -------- What each operation does to one conversation --------

  /** The newest messages that fit. */
  function Window(log: Conversation): (convo: Conversation)
    ensures |convo| <= MAX_MESSAGES_PER_PEER
  {
    if |log| <= MAX_MESSAGES_PER_PEER then log else log[|log| - MAX_MESSAGES_PER_PEER..]
  }

  /** The first message with this identifier gets the status. */
  function Updated(convo: Conversation, id: string, status: string): (r: Conversation)
    ensures |r| == |convo|
  {
    if convo == [] then []
    else if convo[0].id == id then [convo[0].(status := status)] + convo[1..]
    else [convo[0]] + Updated(convo[1..], id, status)
  }

  predicate HasId(convo: Conversation, id: string) { exists i :: 0 <= i < |convo| && convo[i].id == id }

  predicate Unread(m: ChatMessage) { m.direction == INCOMING && m.status != READ }

  function UnreadIn(convo: Conversation): nat {
    if convo == [] then 0 else UnreadIn(convo[..|convo| - 1]) + (if Unread(convo[|convo| - 1]) then 1 else 0)
  }

  function MarkedOne(m: ChatMessage): ChatMessage { if Unread(m) then m.(status := READ) else m }

  function Marked(convo: Conversation): (r: Conversation)
    ensures |r| == |convo|
  {
    seq(|convo|, i requires 0 <= i < |convo| => MarkedOne(convo[i]))
  }

  /** A missing conversation reads as an empty one. */
  function Of(all: Conversations, peer: string): Conversation {
    if peer in all then all[peer] else []
  }

  datatype Op = Add(msg: ChatMessage) | Update(id: string, status: string) | MarkAll

  /** One operation on a conversation. */
  function Step(convo: Conversation, op: Op): Conversation {
    match op
    case Add(msg) => Window(convo + [msg])
    case Update(id, status) => Updated(convo, id, status)
    case MarkAll => Marked(convo)
  }

  /** One operation on the conversation of a peer; only an addition starts a conversation. */
  function After(all: Conversations, peer: string, op: Op): Conversations {
    if op.Add? || peer in all then all[peer := Step(Of(all, peer), op)] else all
  }

  // -------- The store --------

  class Store {
    var conversations: Conversations

    constructor Empty()
      ensures conversations == map[]
    {
      conversations := map[];
    }

    method AddMessage(peer: string, msg: ChatMessage)
      modifies this
      ensures conversations == After(old(conversations), peer, Add(msg))
    {
      var convo := Of(conversations, peer) + [msg];
      ghost var pushed := convo;
      while |convo| > MAX_MESSAGES_PER_PEER
        invariant |convo| <= |pushed| && convo == pushed[|pushed| - |convo|..]
        invariant |pushed| > MAX_MESSAGES_PER_PEER ==> |convo| >= MAX_MESSAGES_PER_PEER
        invariant |pushed| <= MAX_MESSAGES_PER_PEER ==> convo == pushed
      {
        convo := convo[1..];
      }
      conversations := conversations[peer := convo];
    }

    method GetMessages(peer: string) returns (r: Conversation)
      ensures r == Of(conversations, peer)
    {
      r := if peer in conversations then conversations[peer] else [];
    }

    method UpdateStatus(peer: string, id: string, status: string) returns (found: bool)
      modifies this
      ensures found <==> HasId(Of(old(conversations), peer), id)
      ensures conversations == After(old(conversations), peer, Update(id, status))
    {
      if peer !in conversations {
        return false;
      }
      var convo := conversations[peer];
      for i := 0 to |convo|
        invariant conversations == old(conversations)
        invariant forall j :: 0 <= j < i ==> convo[j].id != id
      {
        if convo[i].id == id {
          UpdatedAt(convo, id, status, i);
          conversations := conversations[peer := convo[i := convo[i].(status := status)]];
          return true;
        }
      }
      UpdatedMissing(convo, id, status);
      assert conversations[peer := convo] == conversations;
      return false;
    }

    method UnreadCount(peer: string) returns (n: nat)
      ensures n == UnreadIn(Of(conversations, peer))
    {
      n := 0;
      if peer in conversations {
        var convo := conversations[peer];
        for i := 0 to |convo|
          invariant n == UnreadIn(convo[..i])
        {
          assert convo[..i + 1][..i] == convo[..i];
          if convo[i].direction == INCOMING && convo[i].status != READ {
            n := n + 1;
          }
        }
        assert convo[..|convo|] == convo;
      }
    }

    method MarkAllRead(peer: string)
      modifies this
      ensures conversations == After(old(conversations), peer, MarkAll)
    {
      if peer in conversations {
        var convo := conversations[peer];
        ghost var was := convo;
        for i := 0 to |convo|
          invariant |convo| == |was|
          invariant forall j :: 0 <= j < |was| ==> convo[j] == if j < i then MarkedOne(was[j]) else was[j]
        {
          if convo[i].direction == INCOMING && convo[i].status != READ {
            convo := convo[i := convo[i].(status := READ)];
          }
        }
        assert convo == Marked(was);
        conversations := conversations[peer := convo];
      }
    }
  }

  lemma {:induction false} UpdatedAt(convo: Conversation, id: string, status: string, i: nat)
    requires i < |convo| && convo[i].id == id && forall j :: 0 <= j < i ==> convo[j].id != id
    ensures Updated(convo, id, status) == convo[i := convo[i].(status := status)]
  {
    if i > 0 {
      UpdatedAt(convo[1..], id, status, i - 1);
      assert convo[i := convo[i].(status := status)] == [convo[0]] + convo[1..][i - 1 := convo[i].(status := status)];
    }
  }

  // -------- Refinement of the unbounded log --------

  lemma {:induction false} UpdatedMissing(convo: Conversation, id: string, status: string)
    requires !HasId(convo, id)
    ensures Updated(convo, id, status) == convo
  {
    if convo != [] {
      assert convo[0].id != id;
      assert !HasId(convo[1..], id) by {
        forall i | 0 <= i < |convo[1..]| ensures convo[1..][i].id != id {
          assert convo[1..][i] == convo[i + 1];
        }
      }
      UpdatedMissing(convo[1..], id, status);
    }
  }

  lemma HasIdStep(convo: Conversation, id: string)
    requires convo != []
    ensures HasId(convo, id) <==> convo[0].id == id || HasId(convo[1..], id)
  {
    if HasId(convo[1..], id) {
      var i :| 0 <= i < |convo[1..]| && convo[1..][i].id == id;
      assert convo[i + 1].id == id;
    }
    if HasId(convo, id) {
      var i :| 0 <= i < |convo| && convo[i].id == id;
      if i > 0 { assert convo[1..][i - 1].id == id; }
    }
  }

  /** An update of a log splits where the old part ends. */
  lemma {:induction false} UpdatedSplit(older: Conversation, kept: Conversation, id: string, status: string)
    ensures Updated(older + kept, id, status) ==
      if HasId(older, id) then Updated(older, id, status) + kept else older + Updated(kept, id, status)
  {
    hide HasId;
    if older == [] {
      assert older + kept == kept && older + Updated(kept, id, status) == Updated(kept, id, status);
      assert !HasId(older, id) by { NoIdInNothing(id); }
    } else {
      var rest := older[1..];
      assert (older + kept)[1..] == rest + kept;
      UpdatedSplit(rest, kept, id, status);
      HasIdStep(older, id);
      var first := [older[0]];
      Regroup([older[0].(status := status)], rest, kept);
      Regroup(first, Updated(rest, id, status), kept);
      Regroup(first, rest, Updated(kept, id, status));
      assert first + rest == older;
    }
  }

  lemma Regroup(a: Conversation, b: Conversation, c: Conversation)
    ensures (a + b) + c == a + (b + c)
  {
  }

  lemma NoIdInNothing(id: string)
    ensures !HasId([], id)
  {
  }

  /** The part of a log that no longer fits. */
  function Trimmed(log: Conversation): Conversation {
    if |log| <= MAX_MESSAGES_PER_PEER then [] else log[..|log| - MAX_MESSAGES_PER_PEER]
  }

  lemma WindowParts(log: Conversation, a: Conversation, b: Conversation)
    requires log == a + b && |a| == |Trimmed(log)|
    ensures Trimmed(log) == a && Window(log) == b
  {
  }

  /** The status of the first message with this identifier, if there is one. */
  function StatusOf(convo: Conversation, id: string): Option<string> {
    if convo == [] then None
    else if convo[0].id == id then Some(convo[0].status)
    else StatusOf(convo[1..], id)
  }

  lemma {:induction false} UpdatedNothingIff(convo: Conversation, id: string, status: string)
    ensures Updated(convo, id, status) == convo <==> StatusOf(convo, id) == None || StatusOf(convo, id) == Some(status)
  {
    if convo != [] && convo[0].id != id {
      UpdatedNothingIff(convo[1..], id, status);
      assert convo == [convo[0]] + convo[1..];
      assert Updated(convo, id, status)[1..] == Updated(convo[1..], id, status);
    } else if convo != [] {
      assert convo == [convo[0]] + convo[1..];
      assert Updated(convo, id, status)[0].status == status;
    }
  }

  /** The log would update a message that was trimmed away, while a kept message with the same
      identifier, the one the store updates, has another status. */
  predicate Shadowed(log: Conversation, id: string, status: string) {
    HasId(Trimmed(log), id) && StatusOf(Window(log), id) != None && StatusOf(Window(log), id) != Some(status)
  }

  /** Updating the bounded conversation is updating the log, iff the update is not shadowed. */
  lemma UpdateRefinesIff(log: Conversation, id: string, status: string)
    ensures Window(Updated(log, id, status)) == Updated(Window(log), id, status) <==> !Shadowed(log, id, status)
  {
    var a, b := Trimmed(log), Window(log);
    assert log == a + b;
    UpdatedSplit(a, b, id, status);
    UpdatedNothingIff(b, id, status);
    if HasId(a, id) {
      WindowParts(Updated(log, id, status), Updated(a, id, status), b);
    } else {
      WindowParts(Updated(log, id, status), a, Updated(b, id, status));
    }
  }

  /** A log of 501 messages, the first and the last with one identifier. */
  function TwiceIn501(): Conversation {
    seq(501, i => ChatMessage(if i == 0 || i == 500 then "a" else "b", "outgoing", "", 0, "sending"))
  }

  lemma {:induction false} StatusAtEnd(convo: Conversation, id: string)
    requires convo != [] && convo[|convo| - 1].id == id && forall i :: 0 <= i < |convo| - 1 ==> convo[i].id != id
    ensures StatusOf(convo, id) == Some(convo[|convo| - 1].status)
  {
    if |convo| > 1 {
      StatusAtEnd(convo[1..], id);
    }
  }

  /** There the store marks the last message sent, and the log would have marked the first. */
  lemma UpdateCanMiss()
    ensures Shadowed(TwiceIn501(), "a", "sent")
    ensures Window(Updated(TwiceIn501(), "a", "sent")) != Updated(Window(TwiceIn501()), "a", "sent")
  {
    var log := TwiceIn501();
    assert Trimmed(log)[0].id == "a";
    StatusAtEnd(Window(log), "a");
    UpdateRefinesIff(log, "a", "sent");
  }

  /** The same operation on a log that is never trimmed. */
  function LogStep(log: Conversation, op: Op): Conversation {
    match op
    case Add(msg) => log + [msg]
    case Update(id, status) => Updated(log, id, status)
    case MarkAll => Marked(log)
  }

  function Run(convo: Conversation, ops: seq<Op>): Conversation
    decreases |ops|
  {
    if ops == [] then convo else Run(Step(convo, ops[0]), ops[1..])
  }

  function LogRun(log: Conversation, ops: seq<Op>): Conversation
    decreases |ops|
  {
    if ops == [] then log else LogRun(LogStep(log, ops[0]), ops[1..])
  }

  ghost predicate DistinctIds(log: Conversation) { forall i, j :: 0 <= i < j < |log| ==> log[i].id != log[j].id }

  predicate SameIds(a: Conversation, b: Conversation) {
    |a| == |b| && forall i :: 0 <= i < |a| ==> a[i].(status := b[i].status) == b[i]
  }

  lemma {:induction false} UpdatedKeeps(log: Conversation, id: string, status: string)
    ensures SameIds(log, Updated(log, id, status))
  {
    if log != [] && log[0].id != id {
      UpdatedKeeps(log[1..], id, status);
    }
  }

  /** Every added message has an identifier that the log does not hold yet. */
  ghost predicate FreshAdds(log: Conversation, ops: seq<Op>)
    decreases |ops|
  {
    ops == [] || ((ops[0].Add? ==> !HasId(log, ops[0].msg.id)) && FreshAdds(LogStep(log, ops[0]), ops[1..]))
  }

  lemma AddRefines(log: Conversation, msg: ChatMessage)
    ensures Window(log + [msg]) == Window(Window(log) + [msg])
  {
  }

  lemma MarkRefines(log: Conversation)
    ensures Window(Marked(log)) == Marked(Window(log))
  {
  }

  lemma {:induction false} NoStatus(convo: Conversation, id: string)
    requires !HasId(convo, id)
    ensures StatusOf(convo, id) == None
  {
    if convo != [] {
      HasIdStep(convo, id);
      NoStatus(convo[1..], id);
    }
  }

  lemma DistinctIsNotShadowed(log: Conversation, id: string, status: string)
    requires DistinctIds(log)
    ensures !Shadowed(log, id, status)
  {
    hide Updated, Window;
    if HasId(Trimmed(log), id) {
      var i :| 0 <= i < |Trimmed(log)| && Trimmed(log)[i].id == id;
      TrimmedIsNotKept(log, id, i);
      NoStatus(Window(log), id);
    }
  }

  lemma TrimmedIsNotKept(log: Conversation, id: string, i: nat)
    requires DistinctIds(log) && i < |Trimmed(log)| && Trimmed(log)[i].id == id
    ensures !HasId(Window(log), id)
  {
    assert log[i].id == id;
  }

  lemma DistinctKept(log: Conversation, op: Op)
    requires DistinctIds(log) && (op.Add? ==> !HasId(log, op.msg.id))
    ensures DistinctIds(LogStep(log, op))
  {
    if op.Update? {
      UpdatedKeeps(log, op.id, op.status);
    }
  }

  lemma StepRefinesIff(log: Conversation, op: Op)
    ensures Step(Window(log), op) == Window(LogStep(log, op)) <==>
      !(op.Update? && Shadowed(log, op.id, op.status))
  {
    hide Window, Marked, Shadowed, Updated;
    match op
    case Add(msg) => AddRefines(log, msg);
    case MarkAll => MarkRefines(log);
    case Update(id, status) => UpdateRefinesIff(log, id, status);
  }

  /** No update of the run is shadowed when it comes. */
  predicate Unshadowed(log: Conversation, ops: seq<Op>)
    decreases |ops|
  {
    ops == [] || (!(ops[0].Update? && Shadowed(log, ops[0].id, ops[0].status)) && Unshadowed(LogStep(log, ops[0]), ops[1..]))
  }

  /** The conversation is the last part of the log now and after every operation of the run. */
  predicate Tracks(convo: Conversation, log: Conversation, ops: seq<Op>)
    decreases |ops|
  {
    convo == Window(log) && (ops == [] || Tracks(Step(convo, ops[0]), LogStep(log, ops[0]), ops[1..]))
  }

  /** In any run whatever, identifiers repeated or not, the bounded conversation is at every point
      the last 500 messages of the log, in order, with their current statuses, iff no update is
      shadowed when it comes. Additions and read marks never break it. */
  lemma {:induction false} RunTracksIff(log: Conversation, ops: seq<Op>)
    ensures Tracks(Window(log), log, ops) <==> Unshadowed(log, ops)
    decreases |ops|
  {
    if ops != [] {
      StepRefinesIff(log, ops[0]);
      RunTracksIff(LogStep(log, ops[0]), ops[1..]);
    }
  }

  lemma {:induction false} TrackedEnd(convo: Conversation, log: Conversation, ops: seq<Op>)
    requires Tracks(convo, log, ops)
    ensures Run(convo, ops) == Window(LogRun(log, ops))
    decreases |ops|
  {
    if ops != [] {
      TrackedEnd(Step(convo, ops[0]), LogStep(log, ops[0]), ops[1..]);
    }
  }

  /** After any run in which no update is shadowed the conversation is the end of the log. */
  lemma RunRefines(log: Conversation, ops: seq<Op>)
    requires Unshadowed(log, ops)
    ensures Run(Window(log), ops) == Window(LogRun(log, ops))
  {
    RunTracksIff(log, ops);
    TrackedEnd(Window(log), log, ops);
  }

  /** With fresh identifiers no update is ever shadowed. */
  lemma {:induction false} FreshIsUnshadowed(log: Conversation, ops: seq<Op>)
    requires DistinctIds(log) && FreshAdds(log, ops)
    ensures Unshadowed(log, ops)
    decreases |ops|
  {
    if ops != [] {
      if ops[0].Update? {
        DistinctIsNotShadowed(log, ops[0].id, ops[0].status);
      }
      DistinctKept(log, ops[0]);
      FreshIsUnshadowed(LogStep(log, ops[0]), ops[1..]);
    }
  }

  /** Marking leaves nothing unread, and changes only messages that were. */
  lemma {:induction false} MarkedIsRead(convo: Conversation)
    ensures UnreadIn(Marked(convo)) == 0
    ensures forall i :: 0 <= i < |convo| && !Unread(convo[i]) ==> Marked(convo)[i] == convo[i]
  {
    if convo != [] {
      var init := convo[..|convo| - 1];
      MarkedIsRead(init);
      assert Marked(convo)[..|convo| - 1] == Marked(init);
    }
  }

  function UnreadPlaces(convo: Conversation): set<int> { set i | 0 <= i < |convo| && Unread(convo[i]) }

  lemma UnreadPlacesStep(convo: Conversation)
    requires convo != []
    ensures var n := |convo| - 1; var t := UnreadPlaces(convo[..n]);
      n !in t && UnreadPlaces(convo) == if Unread(convo[n]) then t + {n} else t
  {
  }

  /** The count is the number of unread messages kept. */
  lemma {:induction false} UnreadIsExact(convo: Conversation)
    ensures UnreadIn(convo) == |UnreadPlaces(convo)|
  {
    hide UnreadPlaces;
    if convo == [] {
      assert UnreadPlaces(convo) == {} by { NothingUnread(); }
    } else {
      UnreadPlacesStep(convo);
      UnreadIsExact(convo[..|convo| - 1]);
    }
  }

  lemma NothingUnread()
    ensures UnreadPlaces([]) == {}
  {
  }
}
