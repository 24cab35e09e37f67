/** When delivery makes progress, when the relay loses envelopes, and the loop as a run of steps. */
module DeliveryProgress {
  import opened Prelude
  import opened ChatStore
  import opened Delivery
  import opened DeliveryTheorems

  // -------- What the relay drops --------

  /** Taking an envelope costs the recipient one iff the queue is full, and then the oldest. */
  lemma TakenDropsIff(w: World, e: Envelope, x: Envelope)
    requires |QueueOf(w, e.to)| <= MAX_PER_RECIPIENT && DistinctEnvelopes(QueueOf(w, e.to) + [e])
    requires x in QueueOf(w, e.to)
    ensures x !in QueueOf(Taken(w, e), e.to) <==>
      |QueueOf(w, e.to)| == MAX_PER_RECIPIENT && x == QueueOf(w, e.to)[0]
  {
    var q := QueueOf(w, e.to);
    var i :| 0 <= i < |q| && q[i] == x;
    var all := q + [e];
    assert all[i] == x;
    if |q| == MAX_PER_RECIPIENT {
      assert Put(q, e) == all[1..];
      if i > 0 { assert all[1..][i - 1] == x && all[0] != all[i]; }
      if i == 0 {
        forall j | 0 <= j < |all[1..]| ensures all[1..][j] != x {
          assert all[j + 1] != all[0];
        }
      }
    }
  }

  /** The relay drops something of its own: by age, or because an envelope arrives at a full queue. */
  predicate Evicts(w: World, a: Action) {
    || a.Drop?
    || (a.Deposit? && |QueueOf(w, a.e.to)| >= MAX_PER_RECIPIENT)
    || (a.Accept? && a.k in w.senders && |QueueOf(w, w.senders[a.k].to)| >= MAX_PER_RECIPIENT)
  }

  lemma TakenDropped(w: World, e: Envelope)
    requires RelayGood(w) && Fresh(w, e.id)
    ensures Taken(w, e).dropped == w.dropped <==> |QueueOf(w, e.to)| < MAX_PER_RECIPIENT
  {
    var q, u := QueueOf(w, e.to), Taken(w, e);
    assert QueueSound(e.to, q, w.accepted, w.dropped);
    if |q| < MAX_PER_RECIPIENT {
      assert Put(q, e) == q + [e];
      assert forall x :: x in q ==> x in Put(q, e);
      assert u.dropped == w.dropped;
    } else {
      TakenDropsIff(w, e, q[0]);
      assert q[0] in u.dropped && q[0] !in w.dropped;
    }
  }

  lemma StepDropsIff(w: World, a: Action)
    requires Inv(w) && Enabled(w, a)
    ensures Apply(w, a).dropped == w.dropped <==> !Evicts(w, a)
  {
    hide LogsSound, SessionsSound, SendersSound, Wrote, Put, Taken, RelaySound, QueueOf;
    if a.Deposit? {
      TakenDropped(w, a.e);
    } else if a.Accept? {
      TakenDropped(w, SentEnvelope(w.senders[a.k], a.id));
    } else if a.Drop? {
      InQueueNotDropped(w, a.e);
    }
  }

  lemma InQueueNotDropped(w: World, e: Envelope)
    requires RelayGood(w) && e in QueueOf(w, e.to)
    ensures e !in w.dropped
  {
    assert QueueSound(e.to, QueueOf(w, e.to), w.accepted, w.dropped);
  }

  ghost predicate NeverEvicts(w: World, actions: seq<Action>)
    decreases |actions|
  {
    actions == [] || (Enabled(w, actions[0]) && !Evicts(w, actions[0]) && NeverEvicts(Apply(w, actions[0]), actions[1..]))
  }

  lemma {:induction false} RunDropsIff(w: World, actions: seq<Action>, last: World)
    requires Inv(w) && Runs(w, actions, last)
    ensures last.dropped == w.dropped <==> NeverEvicts(w, actions)
    decreases |actions|
  {
    hide Inv, Enabled, Apply, Evicts;
    if actions != [] {
      var u := Apply(w, actions[0]);
      StepDropsIff(w, actions[0]);
      StepKeeps(w, actions[0]);
      StepGrows(w, actions[0]);
      RunDropsIff(u, actions[1..], last);
      RunKeeps(u, actions[1..], last);
    }
  }

  /** The relay has dropped nothing iff it never evicted; and then no chat envelope is lost at all. */
  lemma NothingDroppedIff(w: World, actions: seq<Action>, last: World)
    requires Starts(w) && Runs(w, actions, last)
    ensures last.dropped == {} <==> NeverEvicts(w, actions)
    ensures NeverEvicts(w, actions) ==> forall e :: e in last.accepted && e.payload.Chat? ==>
      e in QueueOf(last, e.to) || (Held(LogIn(last.logs, e.to), e) && Held(LogIn(last.files, e.to), e))
  {
    hide Inv, Held, QueueOf;
    StartsInv(w);
    RunDropsIff(w, actions, last);
    if NeverEvicts(w, actions) {
      forall e | e in last.accepted && e.payload.Chat?
        ensures e in QueueOf(last, e.to) || (Held(LogIn(last.logs, e.to), e) && Held(LogIn(last.files, e.to), e))
      {
        AtLeastOnce(w, actions, last, e);
      }
    }
  }

  // -------- Joining runs --------

  lemma {:induction false} RunsJoin(w: World, a: seq<Action>, mid: World, b: seq<Action>, last: World)
    requires Runs(w, a, mid) && Runs(mid, b, last)
    ensures Runs(w, a + b, last)
    decreases |a|
  {
    hide Enabled, Apply;
    if a == [] {
      assert a + b == b;
    } else {
      RunsJoin(Apply(w, a[0]), a[1..], mid, b, last);
      assert (a + b)[1..] == a[1..] + b;
    }
  }

  lemma RunsOne(w: World, a: Action)
    requires Enabled(w, a)
    ensures Runs(w, [a], Apply(w, a))
  {
    assert [a][1..] == [];
    assert Runs(Apply(w, a), [], Apply(w, a));
  }

  lemma {:induction false} RunsUnique(w: World, actions: seq<Action>, u: World, v: World)
    requires Runs(w, actions, u) && Runs(w, actions, v)
    ensures u == v
    decreases |actions|
  {
    hide Enabled, Apply;
    if actions != [] {
      RunsUnique(Apply(w, actions[0]), actions[1..], u, v);
    }
  }

  // -------- A run that loses a chat envelope --------

  function Numbered(i: nat): Envelope { Envelope(i, "b", "a", Chat(Some("m"), "hi", Some(0))) }

  function Arrivals(n: nat): seq<Action> { seq(n, i requires 0 <= i => Deposit(Numbered(i))) }

  function Filled(n: nat): World {
    World(if n == 0 then map[] else map["b" := seq(n, i requires 0 <= i => Numbered(i))], map[], map[], map[], map[],
          {}, set i | 0 <= i < n :: Numbered(i), {}, {}, {})
  }

  lemma {:induction false} ArrivalsFill(n: nat)
    requires n <= MAX_PER_RECIPIENT
    ensures Runs(Filled(0), Arrivals(n), Filled(n))
  {
    if n == 0 {
      assert Arrivals(0) == [];
    } else {
      ArrivalsFill(n - 1);
      var a := Deposit(Numbered(n - 1));
      assert Enabled(Filled(n - 1), a);
      RunsOne(Filled(n - 1), a);
      assert Apply(Filled(n - 1), a) == Filled(n) by {
        OneMore(n);
      }
      RunsJoin(Filled(0), Arrivals(n - 1), Filled(n - 1), [a], Filled(n));
      assert Arrivals(n - 1) + [a] == Arrivals(n);
    }
  }

  lemma OneMore(n: nat)
    requires 0 < n <= MAX_PER_RECIPIENT
    ensures Taken(Filled(n - 1), Numbered(n - 1)) == Filled(n)
  {
    var w, e := Filled(n - 1), Numbered(n - 1);
    var q := QueueOf(w, "b");
    assert Put(q, e) == Filled(n).queues["b"];
    assert forall x :: x in q ==> x in q + [e];
    assert w.queues["b" := Put(q, e)] == Filled(n).queues;
    assert w.accepted + {e} == Filled(n).accepted;
    assert Taken(w, e).dropped == {};
  }

  lemma OneTooMany()
    ensures var full, a := Filled(MAX_PER_RECIPIENT), Deposit(Numbered(MAX_PER_RECIPIENT));
      Enabled(full, a) && Numbered(0) in full.accepted && Numbered(0) !in QueueOf(Apply(full, a), "b")
  {
    var full, e := Filled(MAX_PER_RECIPIENT), Numbered(MAX_PER_RECIPIENT);
    assert QueueOf(full, "b")[0] == Numbered(0);
    assert DistinctEnvelopes(QueueOf(full, "b") + [e]);
    TakenDropsIff(full, e, Numbered(0));
  }

  /** A chat envelope that is followed by a hundred others before its recipient fetches is gone: it
      was accepted, and is neither in the inbox nor in any conversation. */
  lemma FullInboxLosesChat(w: World) returns (last: World)
    requires Starts(w)
    ensures Runs(w, Arrivals(MAX_PER_RECIPIENT + 1), last)
    ensures Numbered(0) in last.accepted && Numbered(0).payload.Chat?
    ensures Numbered(0) !in QueueOf(last, "b") && LogIn(last.logs, "b") == map[] && LogIn(last.files, "b") == map[]
  {
    hide Runs, QueueOf, Put;
    var n := MAX_PER_RECIPIENT;
    var a := Deposit(Numbered(n));
    assert w == Filled(0) by { assert w.accepted == Filled(0).accepted; }
    ArrivalsFill(n);
    OneTooMany();
    last := Apply(Filled(n), a);
    RunsOne(Filled(n), a);
    RunsJoin(w, Arrivals(n), Filled(n), [a], last);
    assert Arrivals(n) + [a] == Arrivals(n + 1);
  }

  // -------- Rounds of fetch and acknowledge --------

  /** The inbox after one round: what was fetched, appended and acknowledged is gone. */
  function Round(q: Queue): Queue { Deleted(q, AckSet(Pending(q))) }

  function Rounds(q: Queue, n: nat): Queue
    decreases n
  {
    if n == 0 then q else Rounds(Round(q), n - 1)
  }

  /** How many envelopes are no chat. */
  function Others(es: Queue): nat {
    if es == [] then 0 else Others(es[..|es| - 1]) + (if es[|es| - 1].payload.Chat? then 0 else 1)
  }

  ghost predicate DistinctIds(q: Queue) {
    DistinctEnvelopes(q) && forall e, f :: e in q && f in q && e.id == f.id ==> e == f
  }

  /** A fetch finds chat iff a chat envelope is among the first fifty. */
  lemma ChatVisibleIff(q: Queue)
    ensures ChatIds(Pending(q)) != [] <==> exists i :: 0 <= i < |q| && i < FETCH_LIMIT && q[i].payload.Chat?
  {
    var es := Pending(q);
    if i :| 0 <= i < |q| && i < FETCH_LIMIT && q[i].payload.Chat? {
      assert es[i] == q[i];
      ChatIdsAre(es, es[i].id);
    }
    if ChatIds(es) != [] {
      var id := ChatIds(es)[0];
      ChatIdsAre(es, id);
      var i :| 0 <= i < |es| && es[i].payload.Chat? && es[i].id == id;
      assert q[i] == es[i];
    }
  }

  lemma {:induction false} OthersConcat(a: Queue, b: Queue)
    ensures Others(a + b) == Others(a) + Others(b)
  {
    if b == [] {
      assert a + b == a;
    } else {
      OthersConcat(a, b[..|b| - 1]);
      assert (a + b)[..|a + b| - 1] == a + b[..|b| - 1];
    }
  }

  lemma {:induction false} OthersAtMost(es: Queue)
    ensures Others(es) <= |es|
  {
    if es != [] {
      OthersAtMost(es[..|es| - 1]);
    }
  }

  lemma {:induction false} DeletedConcat(a: Queue, b: Queue, ids: set<EnvelopeId>)
    ensures Deleted(a + b, ids) == Deleted(a, ids) + Deleted(b, ids)
  {
    if a == [] {
      assert a + b == b;
    } else {
      assert (a + b)[1..] == a[1..] + b;
      DeletedConcat(a[1..], b, ids);
    }
  }

  lemma {:induction false} DeletedNone(es: Queue, ids: set<EnvelopeId>)
    requires forall e :: e in es ==> e.id !in ids
    ensures Deleted(es, ids) == es
  {
    if es != [] {
      DeletedNone(es[1..], ids);
    }
  }

  lemma {:induction false} DeletedChat(es: Queue, ids: set<EnvelopeId>)
    requires forall e :: e in es ==> (e.id in ids <==> e.payload.Chat?)
    ensures |Deleted(es, ids)| == Others(es) && Others(Deleted(es, ids)) == Others(es)
  {
    if es != [] {
      DeletedChat(es[1..], ids);
      assert es == [es[0]] + es[1..];
      OthersConcat([es[0]], es[1..]);
      OthersConcat([es[0]], Deleted(es[1..], ids));
    }
  }

  /** One round leaves of the first fifty what is no chat, and the rest as it is. */
  lemma RoundIs(q: Queue)
    requires DistinctIds(q) && |q| >= FETCH_LIMIT
    ensures var kept := Deleted(Pending(q), AckSet(Pending(q)));
      Round(q) == kept + q[FETCH_LIMIT..] && |kept| == Others(Pending(q)) && Others(kept) == Others(Pending(q))
  {
    var head, rest, ids := Pending(q), q[FETCH_LIMIT..], AckSet(Pending(q));
    AckedIff(q);
    hide DistinctIds, ChatIds, AckSet, Deleted, Others;
    assert head == q[..FETCH_LIMIT] && q == head + rest;
    DeletedConcat(head, rest, ids);
    DeletedChat(head, ids);
    DeletedNone(rest, ids);
  }

  /** One round moves an envelope beyond the first fifty forward by the chat fetched, and keeps the
      number of other envelopes before it. */
  lemma RoundMoves(q: Queue, i: nat)
    requires DistinctIds(q) && FETCH_LIMIT <= i < |q|
    ensures DistinctIds(Round(q))
    ensures var j := Others(Pending(q)) + i - FETCH_LIMIT;
      0 <= j < |Round(q)| && Round(q)[j] == q[i] && Others(Round(q)[..j]) == Others(q[..i])
  {
    hide DistinctIds, ChatIds, AckSet, Deleted, Others, Round;
    RoundDistinct(q);
    RoundIs(q);
    var kept, between := Deleted(Pending(q), AckSet(Pending(q))), q[FETCH_LIMIT..i];
    var j := |kept| + i - FETCH_LIMIT;
    assert Round(q)[..j] == kept + between;
    assert q[..i] == Pending(q) + between;
    OthersConcat(kept, between);
    OthersConcat(Pending(q), between);
  }

  lemma AckedIff(q: Queue)
    requires DistinctIds(q)
    ensures forall e :: e in Pending(q) ==> (e.id in AckSet(Pending(q)) <==> e.payload.Chat?)
    ensures |q| > FETCH_LIMIT ==> forall e :: e in q[FETCH_LIMIT..] ==> e.id !in AckSet(Pending(q))
  {
    var es := Pending(q);
    forall e | e in q ensures e.id in AckSet(es) <==> e in es && e.payload.Chat? {
      ChatIdsAre(es, e.id);
    }
  }

  lemma RoundDistinct(q: Queue)
    requires DistinctIds(q)
    ensures DistinctIds(Round(q))
  {
    var ids := AckSet(Pending(q));
    DeletedDistinct(q, ids);
    forall e ensures e in Round(q) <==> e in q && e.id !in ids {
      DeletedIs(q, ids, e);
    }
  }

  lemma NotPending(q: Queue, i: nat)
    requires DistinctEnvelopes(q) && i < |q|
    ensures q[i] in Pending(q) <==> i < FETCH_LIMIT
  {
    var es := Pending(q);
    if i < FETCH_LIMIT {
      assert es[i] == q[i];
    } else {
      assert forall j :: 0 <= j < |es| ==> es[j] == q[j] != q[i];
    }
  }

  lemma PendingOthers(q: Queue, i: nat)
    requires FETCH_LIMIT <= i < |q|
    ensures Others(Pending(q)) <= Others(q[..i])
  {
    assert q[..i] == Pending(q) + q[FETCH_LIMIT..i];
    OthersConcat(Pending(q), q[FETCH_LIMIT..i]);
  }

  lemma {:induction false} ReachedIn(q: Queue, i: nat) returns (n: nat)
    requires DistinctIds(q) && i < |q| && Others(q[..i]) < FETCH_LIMIT
    ensures q[i] in Pending(Rounds(q, n))
    decreases i
  {
    hide DistinctEnvelopes, Others, Round, Pending;
    NotPending(q, i);
    if i < FETCH_LIMIT {
      n := 0;
    } else {
      RoundMoves(q, i);
      var j := Others(Pending(q)) + i - FETCH_LIMIT;
      PendingOthers(q, i);
      var m := ReachedIn(Round(q), j);
      n := m + 1;
    }
  }

  lemma {:induction false} NeverReached(q: Queue, i: nat, n: nat)
    requires DistinctIds(q) && i < |q| && Others(q[..i]) >= FETCH_LIMIT
    ensures q[i] !in Pending(Rounds(q, n))
    decreases n
  {
    hide DistinctEnvelopes, Others, Round, Pending;
    OthersAtMost(q[..i]);
    NotPending(q, i);
    if n > 0 {
      RoundMoves(q, i);
      NeverReached(Round(q), Others(Pending(q)) + i - FETCH_LIMIT, n - 1);
    }
  }

  /** Repeated rounds reach an envelope iff fewer than fifty that are no chat stand before it. */
  lemma RoundsReachIff(q: Queue, i: nat)
    requires DistinctIds(q) && i < |q|
    ensures (exists n :: q[i] in Pending(Rounds(q, n))) <==> Others(q[..i]) < FETCH_LIMIT
  {
    if Others(q[..i]) < FETCH_LIMIT {
      var n := ReachedIn(q, i);
      assert q[i] in Pending(Rounds(q, n));
    } else {
      forall n: nat ensures q[i] !in Pending(Rounds(q, n)) {
        NeverReached(q, i, n);
      }
    }
  }

  // -------- The loop as a run of steps --------

  /** The bounded conversations of the store show the ends of the untrimmed ones. */
  ghost predicate Shows(store: Conversations, log: Conversations) {
    forall peer :: Of(store, peer) == Window(Of(log, peer))
  }

  /** The untrimmed conversations after each chat envelope was appended. */
  function LogAll(all: Conversations, es: Queue, stamps: nat -> Stamp): Conversations {
    if es == [] then all
    else
      var n := |es| - 1;
      var before := LogAll(all, es[..n], stamps);
      if es[n].payload.Chat? then LogOn(before, es[n].from, Add(MessageOf(es[n], stamps(n)))) else before
  }

  lemma {:induction false} AppendShows(store: Conversations, log: Conversations, es: Queue, stamps: nat -> Stamp)
    requires Shows(store, log)
    ensures Shows(AppendAll(store, es, stamps), LogAll(log, es, stamps))
  {
    if es != [] {
      var n := |es| - 1;
      AppendShows(store, log, es[..n], stamps);
      var s, l := AppendAll(store, es[..n], stamps), LogAll(log, es[..n], stamps);
      if es[n].payload.Chat? {
        AddShows(s, l, es[n].from, MessageOf(es[n], stamps(n)));
      }
    }
  }

  lemma AddShows(store: Conversations, log: Conversations, peer: string, msg: ChatMessage)
    requires Shows(store, log)
    ensures Shows(After(store, peer, Add(msg)), LogOn(log, peer, Add(msg)))
  {
    hide Window;
    AddRefines(Of(log, peer), msg);
    var s, l := After(store, peer, Add(msg)), LogOn(log, peer, Add(msg));
    forall p ensures Of(s, p) == Window(Of(l, p)) {
      assert Of(store, p) == Window(Of(log, p));
    }
  }

  lemma LogAllStep(all: Conversations, es: Queue, e: Envelope, stamps: nat -> Stamp)
    ensures LogAll(all, es + [e], stamps) ==
      if e.payload.Chat? then LogOn(LogAll(all, es, stamps), e.from, Add(MessageOf(e, stamps(|es|)))) else LogAll(all, es, stamps)
    ensures ChatIds(es + [e]) == ChatIds(es) + (if e.payload.Chat? then [e.id] else [])
    ensures ChatIn(es + [e]) == ChatIn(es) + (if e.payload.Chat? then {e} else {})
  {
    assert (es + [e])[..|es|] == es;
  }

  function ChatIn(es: Queue): set<Envelope> { set e | e in es && e.payload.Chat? }

  function Processes(t: nat, stamps: nat -> Stamp, n: nat): seq<Action> {
    seq(n, i requires 0 <= i => Process(t, stamps(i)))
  }

  /** Exactly the conversations of this device have changed, by the chat envelopes appended in
      order, and each of these was saved. */
  ghost predicate LogsAdvanced(logs: map<Device, Conversations>, files: map<Device, Conversations>, d: Device, es: Queue,
                               stamps: nat -> Stamp, logs': map<Device, Conversations>, files': map<Device, Conversations>)
  {
    && LogIn(logs', d) == LogAll(LogIn(logs, d), es, stamps)
    && LogIn(files', d) == (if ChatIds(es) == [] then LogIn(files, d) else LogIn(logs', d))
    && forall x :: x != d ==> LogIn(logs', x) == LogIn(logs, x) && LogIn(files', x) == LogIn(files, x)
  }

  lemma LogsAdvance(logs: map<Device, Conversations>, files: map<Device, Conversations>, d: Device, es: Queue, e: Envelope,
                    stamps: nat -> Stamp, logs': map<Device, Conversations>, files': map<Device, Conversations>)
    requires LogsAdvanced(logs, files, d, es, stamps, logs', files')
    ensures !e.payload.Chat? ==> LogsAdvanced(logs, files, d, es + [e], stamps, logs', files')
    ensures e.payload.Chat? ==>
      var all := LogOn(LogIn(logs', d), e.from, Add(MessageOf(e, stamps(|es|))));
      LogsAdvanced(logs, files, d, es + [e], stamps, logs'[d := all], files'[d := all])
  {
    LogAllStep(LogIn(logs, d), es, e, stamps);
    hide LogAll, ChatIds, LogOn;
    assert ChatIds(es) + [] == ChatIds(es);
  }

  /** A fetch has processed n of its batch, and nothing else has happened. */
  ghost predicate Advanced(w: World, t: nat, stamps: nat -> Stamp, n: nat, u: World)
    requires t in w.sessions && n <= |w.sessions[t].batch|
  {
    var s := w.sessions[t];
    && u == w.(sessions := w.sessions[t := s.(next := n)], logs := u.logs, files := u.files,
               stored := w.stored + ChatIn(s.batch[..n]))
    && LogsAdvanced(w.logs, w.files, s.device, s.batch[..n], stamps, u.logs, u.files)
  }

  lemma ProcessIs(v: World, t: nat, stamp: Stamp)
    requires Processing(v, t)
    ensures Enabled(v, Process(t, stamp))
    ensures var s, e, u := v.sessions[t], Current(v, t), Apply(v, Process(t, stamp));
      && u == v.(sessions := v.sessions[t := s.(next := s.next + 1)], logs := u.logs, files := u.files,
                 stored := if e.payload.Chat? then v.stored + {e} else v.stored)
      && if e.payload.Chat? then
           var all := LogOn(LogIn(v.logs, s.device), e.from, Add(MessageOf(e, stamp)));
           u.logs == v.logs[s.device := all] && u.files == v.files[s.device := all]
         else u.logs == v.logs && u.files == v.files
  {
    hide LogOn, LogIn, MessageOf;
  }

  lemma Advances(w: World, t: nat, stamps: nat -> Stamp, n: nat, v: World)
    requires t in w.sessions && n < |w.sessions[t].batch| && Advanced(w, t, stamps, n, v)
    ensures Enabled(v, Process(t, stamps(n))) && Advanced(w, t, stamps, n + 1, Apply(v, Process(t, stamps(n))))
  {
    var s := w.sessions[t];
    var e, d := s.batch[n], s.device;
    assert s.batch[..n + 1] == s.batch[..n] + [e];
    LogAllStep(LogIn(w.logs, d), s.batch[..n], e, stamps);
    ProcessIs(v, t, stamps(n));
    LogsAdvance(w.logs, w.files, d, s.batch[..n], e, stamps, v.logs, v.files);
    hide LogAll, ChatIds, ChatIn, LogOn, MessageOf, Apply, Enabled, LogsAdvanced;
    var u := Apply(v, Process(t, stamps(n)));
    assert u.sessions == w.sessions[t := s.(next := n + 1)];
    assert u.stored == w.stored + ChatIn(s.batch[..n + 1]);
  }

  lemma {:induction false} ProcessRun(w: World, t: nat, stamps: nat -> Stamp, n: nat) returns (u: World)
    requires t in w.sessions && w.sessions[t].next == 0 && n <= |w.sessions[t].batch|
    ensures Runs(w, Processes(t, stamps, n), u) && Advanced(w, t, stamps, n, u)
  {
    if n == 0 {
      u := w;
      assert ChatIn([]) == {} && w.stored + {} == w.stored;
      assert Processes(t, stamps, 0) == [];
    } else {
      var v := ProcessRun(w, t, stamps, n - 1);
      var a := Process(t, stamps(n - 1));
      Advances(w, t, stamps, n - 1, v);
      u := Apply(v, a);
      RunsOne(v, a);
      RunsJoin(w, Processes(t, stamps, n - 1), v, [a], u);
      assert Processes(t, stamps, n - 1) + [a] == Processes(t, stamps, n);
    }
  }

  function BatchActions(t: nat, batch: Queue, stamps: nat -> Stamp, fault: Option<Fault>): seq<Action> {
    if Fails(batch, fault) then
      Processes(t, stamps, fault.value.position) + [FailWrite(t, stamps(fault.value.position), fault.value.kind)]
    else Processes(t, stamps, |batch|)
  }

  lemma FailedWrite(w: World, t: nat, stamps: nat -> Stamp, n: nat, kind: WriteFailure, v: World)
    requires t in w.sessions && n < |w.sessions[t].batch| && w.sessions[t].batch[n].payload.Chat? && Advanced(w, t, stamps, n, v)
    ensures Enabled(v, FailWrite(t, stamps(n), kind))
    ensures var s, u := w.sessions[t], Apply(v, FailWrite(t, stamps(n), kind));
      && t !in u.sessions
      && LogIn(u.logs, s.device) == LogAll(LogIn(w.logs, s.device), s.batch[..if kind == NotSaved then n + 1 else n], stamps)
  {
    var s := w.sessions[t];
    assert s.batch[..n + 1] == s.batch[..n] + [s.batch[n]];
    LogAllStep(LogIn(w.logs, s.device), s.batch[..n], s.batch[n], stamps);
    hide LogAll, ChatIds, ChatIn, LogOn, MessageOf, LogStep;
  }

  lemma FailedRun(w: World, t: nat, stamps: nat -> Stamp, p: nat, kind: WriteFailure) returns (u: World)
    requires t in w.sessions && w.sessions[t].next == 0 && p < |w.sessions[t].batch| && w.sessions[t].batch[p].payload.Chat?
    ensures Runs(w, Processes(t, stamps, p) + [FailWrite(t, stamps(p), kind)], u) && t !in u.sessions
    ensures var s := w.sessions[t];
      LogIn(u.logs, s.device) == LogAll(LogIn(w.logs, s.device), s.batch[..if kind == NotSaved then p + 1 else p], stamps)
  {
    hide LogAll, Apply, Enabled, Advanced;
    var a := FailWrite(t, stamps(p), kind);
    var v := ProcessRun(w, t, stamps, p);
    FailedWrite(w, t, stamps, p, kind, v);
    u := Apply(v, a);
    RunsOne(v, a);
    RunsJoin(w, Processes(t, stamps, p), v, [a], u);
  }

  /** What the loop does to the store is what the run of its steps does to the conversations: the
      store still shows their ends, and the run can acknowledge iff the loop does. */
  lemma ProcessBatchIsRun(w: World, t: nat, store: Conversations, stamps: nat -> Stamp, fault: Option<Fault>)
    returns (u: World)
    requires t in w.sessions && w.sessions[t].next == 0 && Shows(store, LogIn(w.logs, w.sessions[t].device))
    ensures var s := w.sessions[t];
      && Runs(w, BatchActions(t, s.batch, stamps, fault), u)
      && Shows(AppendAll(store, s.batch[..Reached(s.batch, fault)], stamps), LogIn(u.logs, s.device))
      && forall lost :: Enabled(u, Ack(t, lost)) <==> !Fails(s.batch, fault)
  {
    hide Runs, Shows, AppendAll, LogAll, Apply;
    var s := w.sessions[t];
    if Fails(s.batch, fault) {
      u := FailedRun(w, t, stamps, fault.value.position, fault.value.kind);
    } else {
      u := ProcessRun(w, t, stamps, |s.batch|);
    }
    AppendShows(store, LogIn(w.logs, s.device), s.batch[..Reached(s.batch, fault)], stamps);
  }

  // -------- Rounds as runs --------

  function RoundActions(t: nat, d: Device, stamps: nat -> Stamp, n: nat): seq<Action> {
    [Fetch(t, d)] + Processes(t, stamps, n) + [Ack(t, false)]
  }

  /** One whole fetch command of a device, undisturbed, with its acknowledgement. */
  ghost predicate RoundRun(w: World, t: nat, d: Device, u: World) {
    exists stamps :: Runs(w, RoundActions(t, d, stamps, |Pending(QueueOf(w, d))|), u)
  }

  ghost predicate RoundsRun(w: World, t: nat, d: Device, n: nat, u: World)
    decreases n
  {
    if n == 0 then u == w else exists v :: RoundRun(w, t, d, v) && RoundsRun(v, t, d, n - 1, u)
  }

  lemma OneRound(w: World, t: nat, d: Device, stamps: nat -> Stamp) returns (u: World)
    requires t !in w.sessions
    ensures Runs(w, RoundActions(t, d, stamps, |Pending(QueueOf(w, d))|), u)
    ensures QueueOf(u, d) == Round(QueueOf(w, d)) && u.sessions == w.sessions
    ensures u.stored == w.stored + ChatIn(Pending(QueueOf(w, d)))
  {
    var es := Pending(QueueOf(w, d));
    var f := Apply(w, Fetch(t, d));
    RunsOne(w, Fetch(t, d));
    var v := ProcessRun(f, t, stamps, |es|);
    assert es[..|es|] == es;
    RunsJoin(w, [Fetch(t, d)], f, Processes(t, stamps, |es|), v);
    u := Apply(v, Ack(t, false));
    RunsOne(v, Ack(t, false));
    RunsJoin(w, [Fetch(t, d)] + Processes(t, stamps, |es|), v, [Ack(t, false)], u);
    assert u.sessions == w.sessions;
  }

  lemma RoundRunIs(w: World, t: nat, d: Device, u: World)
    requires Inv(w) && t !in w.sessions && RoundRun(w, t, d, u)
    ensures Inv(u) && QueueOf(u, d) == Round(QueueOf(w, d)) && u.sessions == w.sessions
    ensures u.stored == w.stored + ChatIn(Pending(QueueOf(w, d)))
  {
    hide Inv, Runs, Round, RoundActions;
    var stamps :| Runs(w, RoundActions(t, d, stamps, |Pending(QueueOf(w, d))|), u);
    var v := OneRound(w, t, d, stamps);
    RunsUnique(w, RoundActions(t, d, stamps, |Pending(QueueOf(w, d))|), u, v);
    RunKeeps(w, RoundActions(t, d, stamps, |Pending(QueueOf(w, d))|), u);
  }

  /** One of the first n rounds fetches the envelope. */
  ghost predicate Seen(q: Queue, n: nat, e: Envelope) { exists m: nat :: m < n && e in Pending(Rounds(q, m)) }

  lemma SeenStep(q: Queue, n: nat, e: Envelope)
    requires n > 0
    ensures Seen(q, n, e) <==> e in Pending(q) || Seen(Round(q), n - 1, e)
  {
    hide Pending, Round;
    assert Rounds(q, 0) == q;
    if m: nat :| m < n && e in Pending(Rounds(q, m)) {
      if m > 0 { assert e in Pending(Rounds(Round(q), m - 1)); }
    }
    if m: nat :| m < n - 1 && e in Pending(Rounds(Round(q), m)) {
      assert Rounds(q, m + 1) == Rounds(Round(q), m);
    }
  }

  lemma {:induction false} RoundsRunIs(w: World, t: nat, d: Device, n: nat, u: World, e: Envelope)
    requires Inv(w) && t !in w.sessions && RoundsRun(w, t, d, n, u) && e.payload.Chat?
    ensures Inv(u) && QueueOf(u, d) == Rounds(QueueOf(w, d), n) && u.sessions == w.sessions
    ensures e in u.stored <==> e in w.stored || Seen(QueueOf(w, d), n, e)
    decreases n
  {
    hide Inv, RoundRun, Round, Pending, QueueOf;
    if n > 0 {
      var v :| RoundRun(w, t, d, v) && RoundsRun(v, t, d, n - 1, u);
      RoundRunIs(w, t, d, v);
      RoundsRunIs(v, t, d, n - 1, u, e);
      SeenStep(QueueOf(w, d), n, e);
      assert e in ChatIn(Pending(QueueOf(w, d))) <==> e in Pending(QueueOf(w, d));
    }
  }

  lemma {:induction false} RoundsCanRun(w: World, t: nat, d: Device, n: nat) returns (u: World)
    requires Inv(w) && t !in w.sessions
    ensures RoundsRun(w, t, d, n, u)
    decreases n
  {
    hide Inv, Runs, RoundActions, Round;
    if n == 0 {
      u := w;
    } else {
      var stamps: nat -> Stamp := i => Stamp("", 0);
      var v := OneRound(w, t, d, stamps);
      assert RoundRun(w, t, d, v);
      RoundRunIs(w, t, d, v);
      u := RoundsCanRun(v, t, d, n - 1);
    }
  }

  lemma RoundsStore(w: World, t: nat, d: Device, e: Envelope, n: nat) returns (u: World)
    requires Inv(w) && t !in w.sessions && e.payload.Chat? && e in Pending(Rounds(QueueOf(w, d), n))
    ensures RoundsRun(w, t, d, n + 1, u) && e in u.stored
  {
    hide Inv, RoundsRun, Rounds, Pending, QueueOf;
    u := RoundsCanRun(w, t, d, n + 1);
    assert Seen(QueueOf(w, d), n + 1, e);
    RoundsRunIs(w, t, d, n + 1, u, e);
  }

  /** Repeated rounds of a device, with nothing else going on, append this envelope. */
  ghost predicate Delivers(w: World, t: nat, d: Device, e: Envelope) {
    exists n: nat, u :: RoundsRun(w, t, d, n, u) && e in u.stored
  }

  /** Progress. With nothing arriving and no fault, repeated rounds of a device append a waiting chat
      envelope iff fewer than fifty envelopes that are no chat stand before it in the inbox. */
  lemma RoundsDeliverIff(w: World, t: nat, d: Device, i: nat)
    requires Inv(w) && t !in w.sessions && i < |QueueOf(w, d)|
    requires QueueOf(w, d)[i].payload.Chat? && QueueOf(w, d)[i] !in w.stored
    ensures Delivers(w, t, d, QueueOf(w, d)[i]) <==> Others(QueueOf(w, d)[..i]) < FETCH_LIMIT
  {
    hide Inv, RoundsRun, Rounds, Pending, Others, QueueOf;
    var q, e := QueueOf(w, d), QueueOf(w, d)[i];
    QueueDistinct(w, d);
    RoundsReachIff(q, i);
    if Delivers(w, t, d, e) {
      var n: nat, u :| RoundsRun(w, t, d, n, u) && e in u.stored;
      RoundsRunIs(w, t, d, n, u, e);
    }
    if n: nat :| e in Pending(Rounds(q, n)) {
      var u := RoundsStore(w, t, d, e, n);
      assert RoundsRun(w, t, d, n + 1, u) && e in u.stored;
    }
  }

  lemma QueueDistinct(w: World, d: Device)
    requires Inv(w)
    ensures DistinctIds(QueueOf(w, d))
  {
    assert RelayGood(w);
    assert QueueSound(d, QueueOf(w, d), w.accepted, w.dropped);
  }
}
