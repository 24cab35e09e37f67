/** The write-through results for the two stores of the program, with the closures it passes. */
module Stores {
  import opened Prelude
  import opened ChatStore
  import opened WriteThrough

  // -------- The chat store --------

  /** What the chat commands run on the store: every one of them succeeds. */
  function ChatClosure(peer: string, op: Op): Closure<Conversations> {
    (all: Conversations) => Outcome(After(all, peer, op), true)
  }

  lemma ChatIsHonest(peer: string, op: Op)
    ensures Honest(ChatClosure(peer, op))
  {
  }

  datatype ChatCall = ChatCall(peer: string, op: Op)

  function AfterAll(all: Conversations, calls: seq<ChatCall>): Conversations {
    if calls == [] then all
    else
      var last := calls[|calls| - 1];
      After(AfterAll(all, calls[..|calls| - 1]), last.peer, last.op)
  }

  ghost predicate IsChat(f: Closure<Conversations>) { exists peer, op :: f == ChatClosure(peer, op) }

  ghost predicate ChatOnly(a: Action<Conversations>) { a.Call? ==> IsChat(a.f) }

  /** Every closure still to run and every closure that ran is a chat command's. */
  ghost predicate ChatWorld(w: World<Conversations>) {
    && (forall t :: t in w.threads && (w.threads[t].WantsLock? || w.threads[t].Holding?) ==> IsChat(w.threads[t].f))
    && (forall i :: 0 <= i < |w.log| ==> IsChat(w.log[i]))
  }

  lemma ChatStays(w: World<Conversations>, a: Action<Conversations>)
    requires ChatWorld(w) && Enabled(w, a) && ChatOnly(a)
    ensures ChatWorld(Apply(w, a)) && HonestAction(a)
  {
    if a.Call? {
      var peer, op :| a.f == ChatClosure(peer, op);
      ChatIsHonest(peer, op);
    }
  }

  lemma {:induction false} ChatRun(w: World<Conversations>, actions: seq<Action<Conversations>>, last: World<Conversations>)
    requires ChatWorld(w) && Runs(w, actions, last) && forall i :: 0 <= i < |actions| ==> ChatOnly(actions[i])
    ensures ChatWorld(last) && forall i :: 0 <= i < |actions| ==> HonestAction(actions[i])
    decreases |actions|
  {
    if actions != [] {
      ChatStays(w, actions[0]);
      ChatRun(Apply(w, actions[0]), actions[1..], last);
    }
  }

  lemma CallsOf(log: seq<Closure<Conversations>>) returns (calls: seq<ChatCall>)
    requires forall i :: 0 <= i < |log| ==> IsChat(log[i])
    ensures |calls| == |log| && forall i :: 0 <= i < |log| ==> log[i] == ChatClosure(calls[i].peer, calls[i].op)
  {
    calls := [];
    while |calls| < |log|
      invariant |calls| <= |log|
      invariant forall i :: 0 <= i < |calls| ==> log[i] == ChatClosure(calls[i].peer, calls[i].op)
    {
      var peer, op :| log[|calls|] == ChatClosure(peer, op);
      calls := calls + [ChatCall(peer, op)];
    }
  }

  lemma {:induction false} ReplayIsAfterAll(initial: Conversations, log: seq<Closure<Conversations>>, calls: seq<ChatCall>)
    requires |calls| == |log| && forall i :: 0 <= i < |log| ==> log[i] == ChatClosure(calls[i].peer, calls[i].op)
    ensures Replay(initial, log) == AfterAll(initial, calls)
    decreases |log|
  {
    if log != [] {
      ReplayIsAfterAll(initial, log[..|log| - 1], calls[..|log| - 1]);
    }
  }

  /** The chat store is durable, with no condition on its callers: after any run of chat commands
      on any threads, with any failed saves, panics and crashes, the file holds the conversations
      after some number of the completed commands, among them every one that returned Ok. */
  lemma ChatDurability(w: World<Conversations>, actions: seq<Action<Conversations>>, last: World<Conversations>)
    returns (calls: seq<ChatCall>)
    requires Starts(w) && Runs(w, actions, last) && forall i :: 0 <= i < |actions| ==> ChatOnly(actions[i])
    ensures |calls| == |last.log| && last.saved <= |calls|
    ensures Load(last) == AfterAll(Load(w), calls[..last.saved])
    ensures !last.poisoned ==> last.mem == AfterAll(Load(w), calls)
    ensures forall k :: k in last.oks ==> k <= last.saved
  {
    StartsInv(w);
    ChatRun(w, actions, last);
    Durability(w, actions, last);
    calls := CallsOf(last.log);
    ReplayIsAfterAll(w.initial, last.log, calls);
    ReplayIsAfterAll(w.initial, last.log[..last.saved], calls[..last.saved]);
  }

  /** The operations of a run on one conversation. */
  function OpsOf(calls: seq<ChatCall>, peer: string): seq<Op> {
    if calls == [] then []
    else
      var last := calls[|calls| - 1];
      OpsOf(calls[..|calls| - 1], peer) + (if last.peer == peer then [last.op] else [])
  }

  lemma {:induction false} RunLast(convo: Conversation, ops: seq<Op>, op: Op)
    ensures Run(convo, ops + [op]) == Step(Run(convo, ops), op)
    decreases |ops|
  {
    if ops == [] {
      assert ([] + [op])[1..] == [];
    } else {
      assert (ops + [op])[1..] == ops[1..] + [op];
      RunLast(Step(convo, ops[0]), ops[1..], op);
    }
  }

  lemma AfterIs(all: Conversations, call: ChatCall, peer: string)
    ensures Of(After(all, call.peer, call.op), peer) ==
      if call.peer == peer then Step(Of(all, peer), call.op) else Of(all, peer)
  {
    if !call.op.Add? && call.peer !in all {
      assert Step([], call.op) == [];
    }
  }

  /** Each conversation of the store is the run of its own operations, whatever the others did. */
  lemma {:induction false} ConversationsAreSeparate(all: Conversations, calls: seq<ChatCall>, peer: string)
    ensures Of(AfterAll(all, calls), peer) == Run(Of(all, peer), OpsOf(calls, peer))
  {
    if calls != [] {
      var init, last := calls[..|calls| - 1], calls[|calls| - 1];
      ConversationsAreSeparate(all, init, peer);
      AfterIs(AfterAll(all, init), last, peer);
      if last.peer == peer {
        RunLast(Of(all, peer), OpsOf(init, peer), last.op);
      } else {
        assert OpsOf(init, peer) + [] == OpsOf(init, peer);
      }
    }
  }

  // -------- The peer store --------

  datatype StoredPeer = StoredPeer(
    id: string, name: string, device: string, staticPk: string, pairedAt: string, lastSeenAt: string,
    verified: bool, lastAddrs: seq<string>)

  datatype OwnIdentity = OwnIdentity(public: string, secret: string, name: string, device: string, createdAt: string)

  datatype PeerStore = PeerStore(own: Option<OwnIdentity>, peers: seq<StoredPeer>, lastBackupAt: Option<string>)

  /** What the pairing commands run on the store. The generated identity is None when generating one
      fails; whether the stored one can be read is up to its text and the keystore. */
  datatype PeerOp =
    | Upsert(peer: StoredPeer)
    | SetVerified(id: string)
    | Remove(id: string)
    | EnsureIdentity(generated: Option<OwnIdentity>, readable: bool, rename: Option<(string, string)>)
    | SetBackup(at: string)
    | Restore(own: OwnIdentity, peers: seq<StoredPeer>)

  /** An existing record keeps its pairing time and its trust. */
  function Upserted(peers: seq<StoredPeer>, p: StoredPeer): seq<StoredPeer> {
    if peers == [] then [p]
    else if peers[0].id == p.id then [p.(pairedAt := peers[0].pairedAt, verified := peers[0].verified)] + peers[1..]
    else [peers[0]] + Upserted(peers[1..], p)
  }

  function UpsertedAll(peers: seq<StoredPeer>, more: seq<StoredPeer>): seq<StoredPeer>
    decreases |more|
  {
    if more == [] then peers else UpsertedAll(Upserted(peers, more[0]), more[1..])
  }

  function Verified(peers: seq<StoredPeer>, id: string): seq<StoredPeer> {
    if peers == [] then []
    else if peers[0].id == id then [peers[0].(verified := true)] + peers[1..]
    else [peers[0]] + Verified(peers[1..], id)
  }

  function Kept(peers: seq<StoredPeer>, id: string): seq<StoredPeer> {
    if peers == [] then [] else (if peers[0].id == id then [] else [peers[0]]) + Kept(peers[1..], id)
  }

  predicate Known(peers: seq<StoredPeer>, id: string) { exists i :: 0 <= i < |peers| && peers[i].id == id }

  function Renamed(own: OwnIdentity, names: Option<(string, string)>): OwnIdentity {
    if names.None? then own else own.(name := names.value.0, device := names.value.1)
  }

  /** The store after the closure, and whether the closure succeeds. Removing is judged by the
      number of records, as the command does. */
  function PeerClosure(op: PeerOp): Closure<PeerStore> {
    (s: PeerStore) =>
      match op
      case Upsert(p) => Outcome(s.(peers := Upserted(s.peers, p)), true)
      case SetVerified(id) => Outcome(s.(peers := Verified(s.peers, id)), Known(s.peers, id))
      case Remove(id) => Outcome(s.(peers := Kept(s.peers, id)), |Kept(s.peers, id)| != |s.peers|)
      case EnsureIdentity(generated, readable, names) =>
        if s.own.Some? then (if readable then Outcome(s.(own := Some(Renamed(s.own.value, names))), true) else Outcome(s, false))
        else if generated.Some? then Outcome(s.(own := Some(Renamed(generated.value, names))), true)
        else Outcome(s, false)
      case SetBackup(at) => Outcome(s.(lastBackupAt := Some(at)), true)
      case Restore(own, more) => Outcome(s.(own := Some(own), peers := UpsertedAll(s.peers, more)), true)
  }

  lemma {:induction false} KeptLength(peers: seq<StoredPeer>, id: string)
    ensures |Kept(peers, id)| <= |peers|
    ensures |Kept(peers, id)| == |peers| ==> Kept(peers, id) == peers
  {
    if peers != [] {
      KeptLength(peers[1..], id);
    }
  }

  lemma {:induction false} VerifiedUnknown(peers: seq<StoredPeer>, id: string)
    requires !Known(peers, id)
    ensures Verified(peers, id) == peers
  {
    if peers != [] {
      assert peers[0].id != id;
      forall i | 0 <= i < |peers[1..]| ensures peers[1..][i].id != id {
        assert peers[1..][i] == peers[i + 1];
      }
      VerifiedUnknown(peers[1..], id);
    }
  }

  /** Every pairing command leaves the store alone when it fails. */
  lemma PeerIsHonest(op: PeerOp)
    ensures Honest(PeerClosure(op))
  {
    forall s | !PeerClosure(op)(s).ok ensures PeerClosure(op)(s).store == s {
      match op
      case SetVerified(id) => VerifiedUnknown(s.peers, id);
      case Remove(id) => KeptLength(s.peers, id);
      case _ =>
    }
  }

  ghost predicate PeerOnly(a: Action<PeerStore>) { a.Call? ==> exists op :: a.f == PeerClosure(op) }

  /** The peer store is durable, with no condition on its callers. */
  lemma PeerDurability(w: World<PeerStore>, actions: seq<Action<PeerStore>>, last: World<PeerStore>)
    requires Starts(w) && Runs(w, actions, last) && forall i :: 0 <= i < |actions| ==> PeerOnly(actions[i])
    ensures last.saved <= |last.log| && Load(last) == Replay(Load(w), last.log[..last.saved])
    ensures !last.poisoned ==> last.mem == Replay(Load(w), last.log)
    ensures forall k :: k in last.oks ==> k <= last.saved
  {
    StartsInv(w);
    forall i | 0 <= i < |actions| ensures HonestAction(actions[i]) {
      if actions[i].Call? {
        var op :| actions[i].f == PeerClosure(op);
        PeerIsHonest(op);
      }
    }
    Durability(w, actions, last);
  }

  // -------- What the pairing commands do --------

  /** The record with this identifier. */
  function PeerOf(peers: seq<StoredPeer>, id: string): Option<StoredPeer> {
    if peers == [] then None else if peers[0].id == id then Some(peers[0]) else PeerOf(peers[1..], id)
  }

  predicate DistinctPeers(peers: seq<StoredPeer>) { forall i, j :: 0 <= i < j < |peers| ==> peers[i].id != peers[j].id }

  /** A device that pairs again keeps the time it was first paired and its trust. */
  function Refreshed(known: Option<StoredPeer>, p: StoredPeer): StoredPeer {
    match known
    case None => p
    case Some(o) => StoredPeer(o.id, p.name, p.device, p.staticPk, o.pairedAt, p.lastSeenAt, o.verified, p.lastAddrs)
  }

  /** Pairing replaces or adds exactly the record of the peer, and never takes trust away. */
  lemma {:induction false} UpsertIs(peers: seq<StoredPeer>, p: StoredPeer, id: string)
    ensures PeerOf(Upserted(peers, p), id) == if id == p.id then Some(Refreshed(PeerOf(peers, p.id), p)) else PeerOf(peers, id)
    ensures |Upserted(peers, p)| == if PeerOf(peers, p.id).Some? then |peers| else |peers| + 1
    ensures forall i :: 0 <= i < |peers| ==> Upserted(peers, p)[i].id == peers[i].id
    ensures PeerOf(peers, p.id).None? ==> Upserted(peers, p) == peers + [p]
  {
    if peers != [] {
      UpsertIs(peers[1..], p, id);
      assert peers == [peers[0]] + peers[1..];
    }
  }

  lemma {:induction false} NoSuchPeer(peers: seq<StoredPeer>, id: string)
    ensures PeerOf(peers, id).None? <==> forall i :: 0 <= i < |peers| ==> peers[i].id != id
  {
    if peers != [] {
      NoSuchPeer(peers[1..], id);
      assert forall i :: 0 <= i < |peers[1..]| ==> peers[1..][i] == peers[i + 1];
    }
  }

  lemma UpsertDistinct(peers: seq<StoredPeer>, p: StoredPeer)
    requires DistinctPeers(peers)
    ensures DistinctPeers(Upserted(peers, p))
  {
    UpsertIs(peers, p, p.id);
    NoSuchPeer(peers, p.id);
  }

  /** Trust is given to the named peer and to no other; nothing else of any record changes. */
  lemma {:induction false} VerifiedIs(peers: seq<StoredPeer>, named: string, id: string)
    ensures PeerOf(Verified(peers, named), id) ==
      if id == named && PeerOf(peers, id).Some? then Some(PeerOf(peers, id).value.(verified := true)) else PeerOf(peers, id)
    ensures |Verified(peers, named)| == |peers|
  {
    if peers != [] {
      VerifiedIs(peers[1..], named, id);
      assert peers == [peers[0]] + peers[1..];
    }
  }

  /** Removing forgets the named peer and no other. */
  lemma {:induction false} KeptIs(peers: seq<StoredPeer>, named: string, id: string)
    ensures PeerOf(Kept(peers, named), id) == if id == named then None else PeerOf(peers, id)
  {
    if peers != [] {
      KeptIs(peers[1..], named, id);
      var rest := Kept(peers[1..], named);
      assert [] + rest == rest && ([peers[0]] + rest)[1..] == rest;
    }
  }

  /** What each pairing command leaves of every peer, and when it succeeds. */
  lemma PeerCommand(op: PeerOp, s: PeerStore, id: string)
    ensures var r := PeerClosure(op)(s);
      match op
      case Upsert(p) =>
        r.ok && PeerOf(r.store.peers, id) == (if id == p.id then Some(Refreshed(PeerOf(s.peers, p.id), p)) else PeerOf(s.peers, id))
      case SetVerified(named) =>
        && (r.ok <==> PeerOf(s.peers, named).Some?)
        && PeerOf(r.store.peers, id) == (if id == named && r.ok then Some(PeerOf(s.peers, id).value.(verified := true)) else PeerOf(s.peers, id))
      case Remove(named) =>
        && (r.ok <==> PeerOf(s.peers, named).Some?)
        && PeerOf(r.store.peers, id) == (if id == named then None else PeerOf(s.peers, id))
      case EnsureIdentity(generated, _, _) =>
        && r.store.peers == s.peers
        && (r.ok ==> r.store.own.Some? && SameKeys(r.store.own.value, if s.own.Some? then s.own else generated))
      case SetBackup(at) => r.ok && r.store == s.(lastBackupAt := Some(at))
      case Restore(own, more) => r.ok && r.store.own == Some(own) && KeepsTrust(PeerOf(s.peers, id), PeerOf(r.store.peers, id))
  {
    match op
    case Upsert(p) => UpsertIs(s.peers, p, id);
    case SetVerified(named) =>
      VerifiedIs(s.peers, named, id);
      NoSuchPeer(s.peers, named);
    case Remove(named) =>
      KeptIs(s.peers, named, id);
      KeptIs(s.peers, named, named);
      KeptLength(s.peers, named);
      KeptNone(s.peers, named);
    case Restore(_, more) => RestoreKeepsTrust(s.peers, more, id);
    case _ =>
  }

  predicate SameKeys(own: OwnIdentity, o: Option<OwnIdentity>) {
    o.Some? && own.public == o.value.public && own.secret == o.value.secret && own.createdAt == o.value.createdAt
  }

  /** A known peer stays known, with its trust and its pairing time. */
  predicate KeepsTrust(before: Option<StoredPeer>, after: Option<StoredPeer>) {
    before.Some? ==> after.Some? && after.value.verified == before.value.verified && after.value.pairedAt == before.value.pairedAt
  }

  lemma {:induction false} RestoreKeepsTrust(peers: seq<StoredPeer>, more: seq<StoredPeer>, id: string)
    ensures KeepsTrust(PeerOf(peers, id), PeerOf(UpsertedAll(peers, more), id))
    decreases |more|
  {
    if more != [] {
      UpsertIs(peers, more[0], id);
      RestoreKeepsTrust(Upserted(peers, more[0]), more[1..], id);
    }
  }

  lemma {:induction false} KeptNone(peers: seq<StoredPeer>, id: string)
    ensures PeerOf(peers, id).None? ==> Kept(peers, id) == peers
  {
    if peers != [] {
      KeptNone(peers[1..], id);
    }
  }
}
