/** The Noise XK handshake (section 7.5 of the Noise Protocol Framework, revision 34), with
    symbolic keys, and the identity exchange that follows it. */
module Noise {
  import opened Prelude

  // -------- Symbolic keys and ciphertexts --------

  /** A key pair is named by one number; its public half shows that number. */
  type KeyPair = nat

  /** The Diffie-Hellman output of two key pairs, whichever side computes it. */
  datatype Secret = Shared(low: KeyPair, high: KeyPair)

  function Dh(a: KeyPair, b: KeyPair): Secret { if a <= b then Shared(a, b) else Shared(b, a) }

  datatype Plain = Nothing | StaticKey(k: KeyPair)

  /** What enters the handshake hash. */
  datatype Item = PublicKey(k: KeyPair) | Ciphertext(box: Box)

  /** A sealed payload opens only under the same chained secrets and the same hash. */
  datatype Box = Box(key: seq<Secret>, hash: seq<Item>, plain: Plain)

  datatype Token = E | S | EE | ES | SE

  /** The handshake state of one side. */
  datatype Party = Party(
    initiator: bool, s: KeyPair, e: KeyPair, rs: Option<KeyPair>, re: Option<KeyPair>,
    hash: seq<Item>, chain: seq<Secret>)

  datatype Part = Clear(k: KeyPair) | Sealed(box: Box)

  type HandshakeMessage = seq<Part>

  // -------- Reading and writing messages, token by token (section 5.3) --------

  function Mix(a: KeyPair, b: Option<KeyPair>): Option<Secret> {
    if b.None? then None else Some(Dh(a, b.value))
  }

  /** The secret of a token; None when a key it needs is not known yet. */
  function SecretOf(p: Party, t: Token): Option<Secret>
    requires t == EE || t == ES || t == SE
  {
    match t
    case EE => Mix(p.e, p.re)
    case ES => if p.initiator then Mix(p.e, p.rs) else Mix(p.s, p.re)
    case _ => if p.initiator then Mix(p.s, p.re) else Mix(p.e, p.rs)
  }

  function SealNext(p: Party, plain: Plain): (Party, Box) {
    var box := Box(p.chain, p.hash, plain);
    (p.(hash := p.hash + [Ciphertext(box)]), box)
  }

  function OpenNext(p: Party, box: Box): Option<Party> {
    if box.key == p.chain && box.hash == p.hash then Some(p.(hash := p.hash + [Ciphertext(box)])) else None
  }

  function Write(p: Party, ts: seq<Token>): Option<(Party, HandshakeMessage)>
    decreases |ts|
  {
    if ts == [] then
      var sealed := SealNext(p, Nothing);
      Some((sealed.0, [Sealed(sealed.1)]))
    else match ts[0]
      case E => Joined(Clear(p.e), Write(p.(hash := p.hash + [PublicKey(p.e)]), ts[1..]))
      case S =>
        var sealed := SealNext(p, StaticKey(p.s));
        Joined(Sealed(sealed.1), Write(sealed.0, ts[1..]))
      case t =>
        match SecretOf(p, t)
        case None => None
        case Some(k) => Write(p.(chain := p.chain + [k]), ts[1..])
  }

  function Joined(part: Part, rest: Option<(Party, HandshakeMessage)>): Option<(Party, HandshakeMessage)> {
    match rest
    case None => None
    case Some(r) => Some((r.0, [part] + r.1))
  }

  function Read(p: Party, ts: seq<Token>, m: HandshakeMessage): Option<Party>
    decreases |ts|
  {
    if ts == [] then
      if |m| == 1 && m[0].Sealed? && m[0].box.plain == Nothing then OpenNext(p, m[0].box) else None
    else match ts[0]
      case E =>
        if m == [] || !m[0].Clear? then None
        else Read(p.(re := Some(m[0].k), hash := p.hash + [PublicKey(m[0].k)]), ts[1..], m[1..])
      case S =>
        if m == [] || !m[0].Sealed? || !m[0].box.plain.StaticKey? || OpenNext(p, m[0].box).None? then None
        else Read(OpenNext(p, m[0].box).value.(rs := Some(m[0].box.plain.k)), ts[1..], m[1..])
      case t =>
        match SecretOf(p, t)
        case None => None
        case Some(k) => Read(p.(chain := p.chain + [k]), ts[1..], m)
  }

  /** The two sides have seen the same handshake and know each other's true keys. */
  predicate Agree(a: Party, b: Party) {
    && a.initiator != b.initiator && a.hash == b.hash && a.chain == b.chain
    && (a.rs.Some? ==> a.rs.value == b.s) && (a.re.Some? ==> a.re.value == b.e)
    && (b.rs.Some? ==> b.rs.value == a.s) && (b.re.Some? ==> b.re.value == a.e)
  }

  /** The reader will know the keys that the tokens ask of it. */
  predicate CanRead(reader: Party, writer: Party, ts: seq<Token>)
    decreases |ts|
  {
    if ts == [] then true
    else match ts[0]
      case E => CanRead(reader.(re := Some(writer.e)), writer, ts[1..])
      case S => CanRead(reader.(rs := Some(writer.s)), writer, ts[1..])
      case t => SecretOf(reader, t).Some? && CanRead(reader, writer, ts[1..])
  }

  lemma CanReadIgnores(reader: Party, writer: Party, ts: seq<Token>, hash: seq<Item>, chain: seq<Secret>, hash': seq<Item>, chain': seq<Secret>)
    requires CanRead(reader, writer, ts)
    ensures CanRead(reader.(hash := hash, chain := chain), writer.(hash := hash', chain := chain'), ts)
    decreases |ts|
  {
    if ts != [] {
      match ts[0]
      case E => CanReadIgnores(reader.(re := Some(writer.e)), writer, ts[1..], hash, chain, hash', chain');
      case S => CanReadIgnores(reader.(rs := Some(writer.s)), writer, ts[1..], hash, chain, hash', chain');
      case _ => CanReadIgnores(reader, writer, ts[1..], hash, chain, hash', chain');
    }
  }

  /** The reader takes the written message and agrees with the writer after it. */
  predicate Takes(w: Party, r: Party, ts: seq<Token>) {
    && Write(w, ts).Some?
    && Read(r, ts, Write(w, ts).value.1).Some?
    && Agree(Write(w, ts).value.0, Read(r, ts, Write(w, ts).value.1).value)
  }

  lemma TakesEphemeral(w: Party, r: Party, ts: seq<Token>)
    requires ts != [] && ts[0] == E
    requires Takes(w.(hash := w.hash + [PublicKey(w.e)]), r.(re := Some(w.e), hash := r.hash + [PublicKey(w.e)]), ts[1..])
    ensures Takes(w, r, ts)
  {
    hide Agree;
    var w' := w.(hash := w.hash + [PublicKey(w.e)]);
    assert Write(w, ts).value.1[1..] == Write(w', ts[1..]).value.1;
  }

  lemma TakesStatic(w: Party, r: Party, ts: seq<Token>)
    requires ts != [] && ts[0] == S && w.hash == r.hash && w.chain == r.chain
    requires var sealed := SealNext(w, StaticKey(w.s));
      Takes(sealed.0, r.(rs := Some(w.s), hash := sealed.0.hash), ts[1..])
    ensures Takes(w, r, ts)
  {
    hide Agree;
    var sealed := SealNext(w, StaticKey(w.s));
    assert Write(w, ts).value.1[1..] == Write(sealed.0, ts[1..]).value.1;
    assert OpenNext(r, sealed.1).value.(rs := Some(w.s)) == r.(rs := Some(w.s), hash := sealed.0.hash);
  }

  lemma TakesSecret(w: Party, r: Party, ts: seq<Token>, k: Secret)
    requires ts != [] && ts[0] != E && ts[0] != S && SecretOf(w, ts[0]) == SecretOf(r, ts[0]) == Some(k)
    requires Takes(w.(chain := w.chain + [k]), r.(chain := r.chain + [k]), ts[1..])
    ensures Takes(w, r, ts)
  {
    hide Agree, SecretOf;
  }

  /** For any pattern: what one side writes, the other reads, and they agree again after it. */
  lemma {:induction false} ReadOfWrite(w: Party, r: Party, ts: seq<Token>)
    requires Agree(w, r) && Write(w, ts).Some? && CanRead(r, w, ts)
    ensures Takes(w, r, ts)
    decreases |ts|
  {
    if ts != [] {
      match ts[0]
      case E =>
        var w' := w.(hash := w.hash + [PublicKey(w.e)]);
        var r' := r.(re := Some(w.e), hash := r.hash + [PublicKey(w.e)]);
        CanReadIgnores(r.(re := Some(w.e)), w, ts[1..], r'.hash, r'.chain, w'.hash, w'.chain);
        ReadOfWrite(w', r', ts[1..]);
        TakesEphemeral(w, r, ts);
      case S =>
        var sealed := SealNext(w, StaticKey(w.s));
        var r' := r.(rs := Some(w.s), hash := sealed.0.hash);
        CanReadIgnores(r.(rs := Some(w.s)), w, ts[1..], r'.hash, r'.chain, sealed.0.hash, sealed.0.chain);
        ReadOfWrite(sealed.0, r', ts[1..]);
        TakesStatic(w, r, ts);
      case t =>
        var k := SecretOf(w, t).value;
        CanReadIgnores(r, w, ts[1..], r.hash, r.chain + [k], w.hash, w.chain + [k]);
        ReadOfWrite(w.(chain := w.chain + [k]), r.(chain := r.chain + [k]), ts[1..]);
        TakesSecret(w, r, ts, k);
    }
  }

  /** For any pattern: once the hashes differ, nothing the other side writes is accepted. */
  lemma {:induction false} NoReadAcross(w: Party, r: Party, ts: seq<Token>)
    requires w.hash != r.hash && |w.hash| == |r.hash| && Write(w, ts).Some?
    ensures Read(r, ts, Write(w, ts).value.1).None?
    decreases |ts|
  {
    if ts != [] {
      var m := Write(w, ts).value.1;
      match ts[0]
      case E =>
        var w', r' := w.(hash := w.hash + [PublicKey(w.e)]), r.(re := Some(w.e), hash := r.hash + [PublicKey(w.e)]);
        assert w'.hash[..|w.hash|] == w.hash && r'.hash[..|r.hash|] == r.hash;
        NoReadAcross(w', r', ts[1..]);
        assert m[1..] == Write(w', ts[1..]).value.1;
      case S =>
      case t =>
        var k := SecretOf(w, t).value;
        if SecretOf(r, t).Some? {
          NoReadAcross(w.(chain := w.chain + [k]), r.(chain := r.chain + [SecretOf(r, t).value]), ts[1..]);
        }
    }
  }

  // -------- The XK pattern --------

  const MESSAGE_1: seq<Token> := [E, ES]
  const MESSAGE_2: seq<Token> := [E, EE]
  const MESSAGE_3: seq<Token> := [S, SE]

  /** The pre-message of XK: both sides hash the responder's static key, the initiator the one
      it scanned, the responder its own. */
  function NewInitiator(s: KeyPair, e: KeyPair, scanned: KeyPair): Party {
    Party(true, s, e, Some(scanned), None, [PublicKey(scanned)], [])
  }

  function NewResponder(s: KeyPair, e: KeyPair): Party {
    Party(false, s, e, None, None, [PublicKey(s)], [])
  }

  // -------- The two sides and the streams between them --------

  /** Messages of the channel; the identity exchange expects only the first kind. */
  datatype QevMessage = Identity(name: string, device: string) | VaultTransfer | Ping | Pong

  /** A transport message opens in the session it was sealed in, in its direction, in its turn. */
  datatype Wire = Handshake(m: HandshakeMessage) | Transport(session: Session, fromInitiator: bool, number: nat, msg: QevMessage)

  datatype Session = Session(hash: seq<Item>, chain: seq<Secret>)

  datatype Phase = Start | SentFirst | GotSecond | Receiving | Replying | Done | Failed
    | Waiting | GotFirst | SentSecond | Announcing | Listening

  /** One side: its handshake state, where it is, who it found, and what it learned. */
  datatype Side = Side(party: Party, phase: Phase, identity: QevMessage, learned: Option<QevMessage>)

  datatype System = System(i: Side, r: Side, toI: seq<Wire>, toR: seq<Wire>)

  function SessionOf(p: Party): Session { Session(p.hash, p.chain) }

  /** The side holds a channel: its handshake returned. */
  predicate HasChannel(side: Side) {
    side.phase in {Receiving, Replying, Announcing, Listening} || (side.phase == Done)
  }

  predicate Ended(phase: Phase) { phase == Done || phase == Failed }

  function Failing(side: Side): Side { side.(phase := Failed) }

  function ReadHandshake(side: Side, ts: seq<Token>, w: Wire, next: Phase): Side {
    if !w.Handshake? then Failing(side)
    else match Read(side.party, ts, w.m)
      case None => Failing(side)
      case Some(p) => side.(party := p, phase := next)
  }

  /** Receives one channel message and insists on an identity. */
  function ReadIdentity(side: Side, w: Wire, next: Phase): Side {
    if w.Transport? && w.session == SessionOf(side.party) && w.fromInitiator != side.party.initiator && w.number == 0 && w.msg.Identity?
    then side.(phase := next, learned := Some(w.msg))
    else Failing(side)
  }

  function SendIdentity(side: Side): Wire { Transport(SessionOf(side.party), side.party.initiator, 0, side.identity) }

  predicate Reads(phase: Phase) { phase in {SentFirst, Receiving, Waiting, SentSecond, Listening} }

  /** A side can move unless it has ended, or waits for bytes that may still come. */
  predicate CanStep(side: Side, inbox: seq<Wire>, other: Side) {
    !Ended(side.phase) && (Reads(side.phase) ==> inbox != [] || Ended(other.phase))
  }

  /** One step of a side: its next state, and what it sends. An ended stream fails a read. */
  function StepSide(side: Side, inbox: seq<Wire>): (Side, seq<Wire>) {
    if Reads(side.phase) && inbox == [] then (Failing(side), [])
    else match side.phase
      case Start => WriteStep(side, MESSAGE_1, SentFirst)
      case SentFirst => (ReadHandshake(side, MESSAGE_2, inbox[0], GotSecond), [])
      case GotSecond => WriteStep(side, MESSAGE_3, Receiving)
      case Receiving => (ReadIdentity(side, inbox[0], Replying), [])
      case Replying => (side.(phase := Done), [SendIdentity(side)])
      case Waiting => (ReadHandshake(side, MESSAGE_1, inbox[0], GotFirst), [])
      case GotFirst => WriteStep(side, MESSAGE_2, SentSecond)
      case SentSecond => (ReadHandshake(side, MESSAGE_3, inbox[0], Announcing), [])
      case Announcing => (side.(phase := Listening), [SendIdentity(side)])
      case Listening => (ReadIdentity(side, inbox[0], Done), [])
      case _ => (side, [])
  }

  function WriteStep(side: Side, ts: seq<Token>, next: Phase): (Side, seq<Wire>) {
    match Write(side.party, ts)
    case None => (Failing(side), [])
    case Some(sent) => (side.(party := sent.0, phase := next), [Handshake(sent.1)])
  }

  function Rest(inbox: seq<Wire>, phase: Phase): seq<Wire> {
    if Reads(phase) && inbox != [] then inbox[1..] else inbox
  }

  predicate Enabled(sys: System, initiator: bool) {
    if initiator then CanStep(sys.i, sys.toI, sys.r) else CanStep(sys.r, sys.toR, sys.i)
  }

  function Step(sys: System, initiator: bool): System {
    if initiator then
      var next := StepSide(sys.i, sys.toI);
      System(next.0, sys.r, Rest(sys.toI, sys.i.phase), sys.toR + next.1)
    else
      var next := StepSide(sys.r, sys.toR);
      System(sys.i, next.0, sys.toI + next.1, Rest(sys.toR, sys.r.phase))
  }

  function Begin(si: KeyPair, ei: KeyPair, scanned: KeyPair, sr: KeyPair, er: KeyPair, idI: QevMessage, idR: QevMessage): System {
    System(Side(NewInitiator(si, ei, scanned), Start, idI, None), Side(NewResponder(sr, er), Waiting, idR, None), [], [])
  }

  /** Steps a side has left, at most. */
  function Left(phase: Phase): nat {
    match phase
    case Start => 5
    case SentFirst => 4
    case GotSecond => 3
    case Receiving => 2
    case Replying => 1
    case Waiting => 5
    case GotFirst => 4
    case SentSecond => 3
    case Announcing => 2
    case Listening => 1
    case _ => 0
  }

  function Measure(sys: System): nat { Left(sys.i.phase) + Left(sys.r.phase) }

  /** Every step brings the exchange nearer to its end, whatever the streams hold. */
  lemma StepDecreases(sys: System, initiator: bool)
    requires Enabled(sys, initiator)
    ensures Measure(Step(sys, initiator)) < Measure(sys)
  {
    hide Read, Write;
  }

  // -------- The scanned key is the responder's --------

  /** Agreement, with the keys that are known after n messages of XK. */
  predicate Linked(i: Party, r: Party, n: nat) {
    && i.initiator && Agree(i, r) && i.rs.Some?
    && (n >= 1 ==> r.re.Some?) && (n >= 2 ==> i.re.Some?) && (n >= 3 ==> r.rs.Some?)
  }

  /** The reader will take this message and be linked with the writer. */
  predicate InFlight(i: Party, r: Party, toI: bool, ts: seq<Token>, m: HandshakeMessage, n: nat) {
    if toI then Read(i, ts, m).Some? && Linked(Read(i, ts, m).value, r, n)
    else Read(r, ts, m).Some? && Linked(i, Read(r, ts, m).value, n)
  }

  lemma FirstMessage(i: Party, r: Party)
    requires Linked(i, r, 0)
    ensures Write(i, MESSAGE_1).Some?
    ensures var sent := Write(i, MESSAGE_1).value; InFlight(sent.0, r, false, MESSAGE_1, sent.1, 1)
    ensures var sent := Write(i, MESSAGE_1).value; sent.0.s == i.s && sent.0.rs == i.rs
  {
    assert MESSAGE_1[1..] == [ES] && [ES][1..] == [];
    ReadOfWrite(i, r, MESSAGE_1);
  }

  lemma SecondMessage(i: Party, r: Party)
    requires Linked(i, r, 1)
    ensures Write(r, MESSAGE_2).Some?
    ensures var sent := Write(r, MESSAGE_2).value; InFlight(i, sent.0, true, MESSAGE_2, sent.1, 2)
  {
    assert MESSAGE_2[1..] == [EE] && [EE][1..] == [];
    ReadOfWrite(r, i, MESSAGE_2);
  }

  lemma ThirdMessage(i: Party, r: Party)
    requires Linked(i, r, 2)
    ensures Write(i, MESSAGE_3).Some?
    ensures var sent := Write(i, MESSAGE_3).value; InFlight(sent.0, r, false, MESSAGE_3, sent.1, 3)
  {
    assert MESSAGE_3[1..] == [SE] && [SE][1..] == [];
    ReadOfWrite(i, r, MESSAGE_3);
  }

  lemma {:induction false} WriteKeepsKeys(p: Party, ts: seq<Token>)
    ensures Write(p, ts).Some? ==> var q := Write(p, ts).value.0; q.s == p.s && q.rs == p.rs
    decreases |ts|
  {
    if ts != [] {
      match ts[0]
      case E => WriteKeepsKeys(p.(hash := p.hash + [PublicKey(p.e)]), ts[1..]);
      case S => WriteKeepsKeys(SealNext(p, StaticKey(p.s)).0, ts[1..]);
      case t => if SecretOf(p, t).Some? { WriteKeepsKeys(p.(chain := p.chain + [SecretOf(p, t).value]), ts[1..]); }
    }
  }

  lemma {:induction false} ReadKeepsStatic(p: Party, ts: seq<Token>, m: HandshakeMessage)
    ensures Read(p, ts, m).Some? ==> Read(p, ts, m).value.s == p.s
    decreases |ts|
  {
    if ts != [] {
      match ts[0]
      case E => if m != [] && m[0].Clear? {
          ReadKeepsStatic(p.(re := Some(m[0].k), hash := p.hash + [PublicKey(m[0].k)]), ts[1..], m[1..]);
        }
      case S => if m != [] && m[0].Sealed? && m[0].box.plain.StaticKey? && OpenNext(p, m[0].box).Some? {
          ReadKeepsStatic(OpenNext(p, m[0].box).value.(rs := Some(m[0].box.plain.k)), ts[1..], m[1..]);
        }
      case t => if SecretOf(p, t).Some? { ReadKeepsStatic(p.(chain := p.chain + [SecretOf(p, t).value]), ts[1..], m); }
    }
  }

  /** Who the two sides are: their static keys and the identities they announce. */
  datatype Pair = Pair(si: KeyPair, sr: KeyPair, idI: QevMessage, idR: QevMessage)

  predicate Named(sys: System, p: Pair) {
    && p.idI.Identity? && p.idR.Identity?
    && sys.i.party.s == p.si && sys.r.party.s == p.sr && sys.i.identity == p.idI && sys.r.identity == p.idR
  }

  /** The reachable states, in the order they are passed through. */
  ghost predicate At(sys: System, k: nat) {
    var i, r, toI, toR := sys.i.party, sys.r.party, sys.toI, sys.toR;
    var phases := (sys.i.phase, sys.r.phase);
    match k
    case 0 => phases == (Start, Waiting) && toI == [] && toR == [] && Linked(i, r, 0)
    case 1 => phases == (SentFirst, Waiting) && toI == [] && |toR| == 1 && toR[0].Handshake?
        && InFlight(i, r, false, MESSAGE_1, toR[0].m, 1)
    case 2 => phases == (SentFirst, GotFirst) && toI == [] && toR == [] && Linked(i, r, 1)
    case 3 => phases == (SentFirst, SentSecond) && |toI| == 1 && toI[0].Handshake? && toR == []
        && InFlight(i, r, true, MESSAGE_2, toI[0].m, 2)
    case 4 => phases == (GotSecond, SentSecond) && toI == [] && toR == [] && Linked(i, r, 2)
    case 5 => phases == (Receiving, SentSecond) && toI == [] && |toR| == 1 && toR[0].Handshake?
        && InFlight(i, r, false, MESSAGE_3, toR[0].m, 3)
    case 6 => phases == (Receiving, Announcing) && toI == [] && toR == [] && Linked(i, r, 3)
    case 7 => phases == (Receiving, Listening) && toI == [SendIdentity(sys.r)] && toR == [] && Linked(i, r, 3)
    case 8 => phases == (Replying, Listening) && toI == [] && toR == [] && Linked(i, r, 3) && sys.i.learned == Some(sys.r.identity)
    case 9 => phases == (Done, Listening) && toI == [] && toR == [SendIdentity(sys.i)] && Linked(i, r, 3)
        && sys.i.learned == Some(sys.r.identity)
    case 10 => phases == (Done, Done) && toI == [] && toR == [] && Linked(i, r, 3)
        && sys.i.learned == Some(sys.r.identity) && sys.r.learned == Some(sys.i.identity)
    case _ => false
  }

  ghost predicate OnCourse(sys: System, p: Pair, k: nat) { Named(sys, p) && At(sys, k) }

  /** Whose turn it is in each state. */
  predicate Turn(k: nat) { k == 0 || k == 3 || k == 4 || k == 7 || k == 8 }

  lemma CourseFirst(sys: System, p: Pair, k: nat)
    requires OnCourse(sys, p, k) && k <= 2
    ensures OnCourse(Step(sys, Turn(k)), p, k + 1)
  {
    var i, r := sys.i.party, sys.r.party;
    hide Write, Read;
    if k == 0 {
      FirstMessage(i, r);
      WriteKeepsKeys(i, MESSAGE_1);
    } else if k == 1 {
      ReadKeepsStatic(r, MESSAGE_1, sys.toR[0].m);
    } else {
      SecondMessage(i, r);
      WriteKeepsKeys(r, MESSAGE_2);
    }
  }

  lemma CourseSecond(sys: System, p: Pair, k: nat)
    requires OnCourse(sys, p, k) && 3 <= k <= 5
    ensures OnCourse(Step(sys, Turn(k)), p, k + 1)
  {
    var i, r := sys.i.party, sys.r.party;
    hide Write, Read;
    if k == 3 {
      ReadKeepsStatic(i, MESSAGE_2, sys.toI[0].m);
    } else if k == 4 {
      ThirdMessage(i, r);
      WriteKeepsKeys(i, MESSAGE_3);
    } else {
      ReadKeepsStatic(r, MESSAGE_3, sys.toR[0].m);
    }
  }

  lemma CourseThird(sys: System, p: Pair, k: nat)
    requires OnCourse(sys, p, k) && 6 <= k <= 9
    ensures OnCourse(Step(sys, Turn(k)), p, k + 1)
  {
    hide Write, Read;
  }

  /** In every state on course exactly one side can move, until both are done. */
  lemma OneCanMove(sys: System, p: Pair, k: nat)
    requires OnCourse(sys, p, k)
    ensures k <= 10
    ensures k < 10 ==> (Enabled(sys, true) <==> Turn(k)) && (Enabled(sys, false) <==> !Turn(k))
    ensures k == 10 <==> !Enabled(sys, true) && !Enabled(sys, false)
  {
    hide Write, Read, Linked, InFlight;
  }

  ghost predicate Runs(sys: System, moves: seq<bool>, last: System)
    decreases |moves|
  {
    if moves == [] then last == sys
    else Enabled(sys, moves[0]) && Runs(Step(sys, moves[0]), moves[1..], last)
  }

  lemma {:induction false} RunStaysOnCourse(sys: System, p: Pair, k: nat, moves: seq<bool>, last: System)
    requires OnCourse(sys, p, k) && Runs(sys, moves, last)
    ensures OnCourse(last, p, k + |moves|)
    decreases |moves|
  {
    if moves != [] {
      OneCanMove(sys, p, k);
      assert moves[0] == Turn(k);
      if k <= 2 {
        CourseFirst(sys, p, k);
      } else if k <= 5 {
        CourseSecond(sys, p, k);
      } else {
        CourseThird(sys, p, k);
      }
      RunStaysOnCourse(Step(sys, moves[0]), p, k + 1, moves[1..], last);
    }
  }

  // -------- What a finished handshake has mixed in --------

  /** The secret of two key pairs is that of exactly these two, in either order. */
  lemma DhIff(a: KeyPair, b: KeyPair, c: KeyPair, d: KeyPair)
    ensures Dh(a, b) == Dh(c, d) <==> (a == c && b == d) || (a == d && b == c)
  {
  }

  /** The keys of an honest run. */
  datatype Keys = Keys(si: KeyPair, ei: KeyPair, sr: KeyPair, er: KeyPair)

  /** The secrets of XK in the order they are mixed in: es, ee, se. */
  function XkChain(k: Keys): seq<Secret> { [Dh(k.ei, k.sr), Dh(k.ei, k.er), Dh(k.si, k.er)] }

  /** Everything hashed after the first, the second and the third message. */
  function HashAfter1(k: Keys): seq<Item> {
    [PublicKey(k.sr), PublicKey(k.ei), Ciphertext(Box(XkChain(k)[..1], [PublicKey(k.sr), PublicKey(k.ei)], Nothing))]
  }

  function HashAfter2(k: Keys): seq<Item> {
    var h := HashAfter1(k) + [PublicKey(k.er)];
    h + [Ciphertext(Box(XkChain(k)[..2], h, Nothing))]
  }

  /** The initiator's static key travels sealed under the first two secrets. */
  function StaticBox(k: Keys): Box { Box(XkChain(k)[..2], HashAfter2(k), StaticKey(k.si)) }

  function HashAfter3(k: Keys): seq<Item> {
    var h := HashAfter2(k) + [Ciphertext(StaticBox(k))];
    h + [Ciphertext(Box(XkChain(k), h, Nothing))]
  }

  /** The initiator and the responder after n messages. */
  function InitiatorAfter(k: Keys, n: nat): Party {
    if n == 0 then NewInitiator(k.si, k.ei, k.sr)
    else if n == 1 then Party(true, k.si, k.ei, Some(k.sr), None, HashAfter1(k), XkChain(k)[..1])
    else if n == 2 then Party(true, k.si, k.ei, Some(k.sr), Some(k.er), HashAfter2(k), XkChain(k)[..2])
    else Party(true, k.si, k.ei, Some(k.sr), Some(k.er), HashAfter3(k), XkChain(k))
  }

  function ResponderAfter(k: Keys, n: nat): Party {
    if n == 0 then NewResponder(k.sr, k.er)
    else if n == 1 then Party(false, k.sr, k.er, None, Some(k.ei), HashAfter1(k), XkChain(k)[..1])
    else if n == 2 then Party(false, k.sr, k.er, None, Some(k.ei), HashAfter2(k), XkChain(k)[..2])
    else Party(false, k.sr, k.er, Some(k.si), Some(k.ei), HashAfter3(k), XkChain(k))
  }

  function Message(k: Keys, n: nat): HandshakeMessage {
    if n == 1 then [Clear(k.ei), Sealed(Box(XkChain(k)[..1], [PublicKey(k.sr), PublicKey(k.ei)], Nothing))]
    else if n == 2 then [Clear(k.er), Sealed(Box(XkChain(k)[..2], HashAfter1(k) + [PublicKey(k.er)], Nothing))]
    else [Sealed(StaticBox(k)), Sealed(Box(XkChain(k), HashAfter2(k) + [Ciphertext(StaticBox(k))], Nothing))]
  }

  lemma FirstExact(k: Keys)
    ensures Write(InitiatorAfter(k, 0), MESSAGE_1) == Some((InitiatorAfter(k, 1), Message(k, 1)))
    ensures Read(ResponderAfter(k, 0), MESSAGE_1, Message(k, 1)) == Some(ResponderAfter(k, 1))
  {
    assert MESSAGE_1[1..] == [ES] && [ES][1..] == [];
    var c := XkChain(k);
    assert [] + [c[0]] == c[..1];
    var m := Message(k, 1);
    assert m[1..] == [m[1]] && [m[0]] + [m[1]] == m;
    var a := InitiatorAfter(k, 0).(hash := [PublicKey(k.sr), PublicKey(k.ei)]);
    assert InitiatorAfter(k, 0).hash + [PublicKey(k.ei)] == a.hash;
    assert a.hash + [Ciphertext(m[1].box)] == HashAfter1(k);
    assert Write(a.(chain := c[..1]), []) == Some((InitiatorAfter(k, 1), [m[1]]));
    assert Write(a, [ES]) == Some((InitiatorAfter(k, 1), [m[1]]));
  }

  lemma SecondExact(k: Keys)
    ensures Write(ResponderAfter(k, 1), MESSAGE_2) == Some((ResponderAfter(k, 2), Message(k, 2)))
    ensures Read(InitiatorAfter(k, 1), MESSAGE_2, Message(k, 2)) == Some(InitiatorAfter(k, 2))
  {
    assert MESSAGE_2[1..] == [EE] && [EE][1..] == [];
    var c := XkChain(k);
    assert c[..1] + [c[1]] == c[..2];
    var m := Message(k, 2);
    assert m[1..] == [m[1]] && [m[0]] + [m[1]] == m;
    var a := ResponderAfter(k, 1).(hash := HashAfter1(k) + [PublicKey(k.er)]);
    assert Write(a.(chain := c[..2]), []) == Some((ResponderAfter(k, 2), [m[1]]));
    assert Write(a, [EE]) == Some((ResponderAfter(k, 2), [m[1]]));
  }

  lemma ThirdExact(k: Keys)
    ensures Write(InitiatorAfter(k, 2), MESSAGE_3) == Some((InitiatorAfter(k, 3), Message(k, 3)))
    ensures Read(ResponderAfter(k, 2), MESSAGE_3, Message(k, 3)) == Some(ResponderAfter(k, 3))
  {
    assert MESSAGE_3[1..] == [SE] && [SE][1..] == [];
    var c := XkChain(k);
    assert c[..2] + [c[2]] == c;
    var m := Message(k, 3);
    assert m[1..] == [m[1]] && [m[0]] + [m[1]] == m;
    var a := InitiatorAfter(k, 2).(hash := HashAfter2(k) + [Ciphertext(StaticBox(k))]);
    assert Write(a.(chain := c), []) == Some((InitiatorAfter(k, 3), [m[1]]));
    assert Write(a, [SE]) == Some((InitiatorAfter(k, 3), [m[1]]));
  }

  /** The handshake states and the message under way after n steps of an honest run. */
  ghost predicate Exact(sys: System, k: Keys, n: nat) {
    && sys.i.party == InitiatorAfter(k, if n == 0 then 0 else if n <= 3 then 1 else if n == 4 then 2 else 3)
    && sys.r.party == ResponderAfter(k, if n <= 1 then 0 else if n == 2 then 1 else if n <= 5 then 2 else 3)
    && (n == 1 ==> sys.toR == [Handshake(Message(k, 1))])
    && (n == 3 ==> sys.toI == [Handshake(Message(k, 2))])
    && (n == 5 ==> sys.toR == [Handshake(Message(k, 3))])
  }

  lemma ExactStep(sys: System, p: Pair, k: Keys, n: nat)
    requires OnCourse(sys, p, n) && n < 10 && Exact(sys, k, n)
    ensures Exact(Step(sys, Turn(n)), k, n + 1)
  {
    hide Write, Read, Linked, InFlight, InitiatorAfter, ResponderAfter, Message, Named;
    FirstExact(k);
    SecondExact(k);
    ThirdExact(k);
  }

  lemma {:induction false} RunIsExact(sys: System, p: Pair, k: Keys, n: nat, moves: seq<bool>, last: System)
    requires OnCourse(sys, p, n) && Exact(sys, k, n) && Runs(sys, moves, last)
    ensures Exact(last, k, n + |moves|)
    decreases |moves|
  {
    hide OnCourse, Exact, Step, Enabled;
    if moves != [] {
      OneCanMove(sys, p, n);
      assert moves[0] == Turn(n);
      ExactStep(sys, p, k, n);
      assert Runs(sys, [moves[0]], Step(sys, moves[0])) by {
        assert [moves[0]][1..] == [];
        assert Runs(Step(sys, moves[0]), [], Step(sys, moves[0]));
      }
      RunStaysOnCourse(sys, p, n, [moves[0]], Step(sys, moves[0]));
      RunIsExact(Step(sys, moves[0]), p, k, n + 1, moves[1..], last);
    }
  }

  lemma AtStart(p: Pair, ei: KeyPair, er: KeyPair)
    requires p.idI.Identity? && p.idR.Identity?
    ensures OnCourse(Begin(p.si, ei, p.sr, p.sr, er, p.idI, p.idR), p, 0)
  {
  }

  lemma ExactSession(begin: System, p: Pair, k: Keys, moves: seq<bool>, last: System)
    requires begin == Begin(k.si, k.ei, k.sr, k.sr, k.er, p.idI, p.idR) && OnCourse(begin, p, 0) && Runs(begin, moves, last)
    ensures HasChannel(last.i) ==> SessionOf(last.i.party) == Session(HashAfter3(k), XkChain(k))
    ensures HasChannel(last.r) ==> SessionOf(last.r.party) == Session(HashAfter3(k), XkChain(k))
    ensures HasChannel(last.i) ==> last.i.party.rs == Some(k.sr)
    ensures HasChannel(last.r) ==> last.r.party.rs == Some(k.si)
  {
    RunStaysOnCourse(begin, p, 0, moves, last);
    RunIsExact(begin, p, k, 0, moves, last);
    hide HashAfter3, XkChain, Linked, InFlight, Runs;
  }

  /** If the scanned key is the responder's, then in every run: neither side ever fails; a side
      that holds a channel has mixed in exactly the secrets es, ee and se of the four true keys
      and has hashed exactly the three messages of XK, so both are in one session, and each holds the
      other's true static key; some side can move until both are done, after exactly ten steps;
      and then each has learned the identity the other announced. */
  lemma RightKey(p: Pair, ei: KeyPair, er: KeyPair, moves: seq<bool>, last: System)
    requires p.idI.Identity? && p.idR.Identity?
    requires Runs(Begin(p.si, ei, p.sr, p.sr, er, p.idI, p.idR), moves, last)
    ensures last.i.phase != Failed && last.r.phase != Failed
    ensures var k := Keys(p.si, ei, p.sr, er);
      && (HasChannel(last.i) ==>
          SessionOf(last.i.party) == Session(HashAfter3(k), XkChain(k)) && last.i.party.rs == Some(p.sr))
      && (HasChannel(last.r) ==>
          SessionOf(last.r.party) == Session(HashAfter3(k), XkChain(k)) && last.r.party.rs == Some(p.si))
    ensures |moves| <= 10
    ensures |moves| == 10 <==> !Enabled(last, true) && !Enabled(last, false)
    ensures |moves| == 10 ==> last.i.phase == last.r.phase == Done
    ensures |moves| == 10 ==> last.i.learned == Some(p.idR) && last.r.learned == Some(p.idI)
  {
    hide HashAfter3, XkChain, Linked, InFlight, Read, Write;
    var begin := Begin(p.si, ei, p.sr, p.sr, er, p.idI, p.idR);
    AtStart(p, ei, er);
    RunStaysOnCourse(begin, p, 0, moves, last);
    OneCanMove(last, p, |moves|);
    ExactSession(begin, p, Keys(p.si, ei, p.sr, er), moves, last);
  }

  // -------- The scanned key is another --------

  /** The states of a pairing whose initiator scanned another key. */
  ghost predicate OffCourse(sys: System, k: nat) {
    var phases := (sys.i.phase, sys.r.phase);
    match k
    case 0 => phases == (Start, Waiting) && sys.toI == [] && sys.toR == [] && sys.i.party.initiator && sys.i.party.rs.Some?
        && sys.i.party.hash != sys.r.party.hash && |sys.i.party.hash| == |sys.r.party.hash|
    case 1 => phases == (SentFirst, Waiting) && sys.toI == [] && |sys.toR| == 1 && sys.toR[0].Handshake?
        && Read(sys.r.party, MESSAGE_1, sys.toR[0].m).None?
    case 2 => phases == (SentFirst, Failed) && sys.toI == [] && sys.toR == []
    case 3 => phases == (Failed, Failed)
    case _ => false
  }

  lemma OffCourseStep(sys: System, k: nat, initiator: bool)
    requires OffCourse(sys, k) && Enabled(sys, initiator)
    ensures k < 3 && OffCourse(Step(sys, initiator), k + 1)
  {
    if k == 0 {
      assert MESSAGE_1[1..] == [ES] && [ES][1..] == [];
      NoReadAcross(sys.i.party, sys.r.party, MESSAGE_1);
    }
  }

  lemma {:induction false} RunStaysOffCourse(sys: System, k: nat, moves: seq<bool>, last: System)
    requires OffCourse(sys, k) && Runs(sys, moves, last)
    ensures OffCourse(last, k + |moves|)
    decreases |moves|
  {
    if moves != [] {
      OffCourseStep(sys, k, moves[0]);
      RunStaysOffCourse(Step(sys, moves[0]), k + 1, moves[1..], last);
    }
  }

  /** If the scanned key is not the responder's, no run ever gives either side a channel, and a
      run that cannot go on has failed on both sides. */
  lemma WrongKey(p: Pair, ei: KeyPair, scanned: KeyPair, er: KeyPair, moves: seq<bool>, last: System)
    requires scanned != p.sr && Runs(Begin(p.si, ei, scanned, p.sr, er, p.idI, p.idR), moves, last)
    ensures !HasChannel(last.i) && !HasChannel(last.r)
    ensures |moves| <= 3
    ensures !Enabled(last, true) && !Enabled(last, false) ==> last.i.phase == last.r.phase == Failed
  {
    var begin := Begin(p.si, ei, scanned, p.sr, er, p.idI, p.idR);
    assert begin.i.party.hash[0] != begin.r.party.hash[0];
    RunStaysOffCourse(begin, 0, moves, last);
  }
}
