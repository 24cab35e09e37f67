/** Length-prefixed frames over a byte stream, and messages cut into fragments. */
module Framing {
  import opened Prelude

  const MAX_FRAME: nat := 65535
  const TAG_BYTES: nat := 16
  const MAX_TRANSPORT_MSG: nat := 65535 - 16
  const FRAG_HEADER_BYTES: nat := 8
  const FRAG_PAYLOAD_MAX: nat := MAX_TRANSPORT_MSG - FRAG_HEADER_BYTES
  const MAX_VAULT_BYTES: nat := 1024 * 1024
  const MAX_MESSAGE_BYTES: nat := MAX_VAULT_BYTES + 4096

  datatype FrameError = TooLarge | UnexpectedEof | FragmentTooShort | WrongFragment | WrongTotal | WrongLength

  // -------- Frames as bytes --------

  function Frame(msg: Bytes): Bytes
    requires |msg| <= MAX_FRAME
  {
    BigEndian(|msg|, 2) + msg
  }

  predicate AllFit(msgs: seq<Bytes>) { forall i :: 0 <= i < |msgs| ==> |msgs[i]| <= MAX_FRAME }

  function Frames(msgs: seq<Bytes>): Bytes
    requires AllFit(msgs)
  {
    if msgs == [] then [] else Frame(msgs[0]) + Frames(msgs[1..])
  }

  /** The first whole frame of a stream, and the bytes after it. */
  function Unframe(s: Bytes): (r: Option<(Bytes, Bytes)>)
    ensures r.Some? ==> |r.value.1| < |s| && |r.value.0| <= MAX_FRAME
  {
    if |s| < 2 then None
    else
      var n: int := s[0] as int * 256 + s[1];
      if |s| < 2 + n then None else Some((s[2..2 + n], s[2 + n..]))
  }

  /** Every whole frame of a stream, in order, until the stream ends. */
  function UnframeAll(s: Bytes): seq<Bytes>
    decreases |s|
  {
    match Unframe(s)
    case None => []
    case Some(first) => [first.0] + UnframeAll(first.1)
  }

  // -------- The source's reads and writes --------

  /** A duplex stream: what was written, and what has arrived and not been read, in whatever
      pieces the network delivered it. */
  class Stream {
    var chunks: seq<Bytes>
    var sent: Bytes

    constructor (arrived: seq<Bytes>)
      ensures chunks == arrived && sent == []
    {
      chunks := arrived;
      sent := [];
    }

    /** Reads piece by piece until n bytes are there, or the stream ends. */
    method ReadExact(n: nat) returns (r: Option<Bytes>)
      modifies this`chunks
      ensures r.Some? <==> n <= |Flat(old(chunks))|
      ensures r.Some? ==> r.value == Flat(old(chunks))[..n] && Flat(chunks) == Flat(old(chunks))[n..]
      ensures r.None? ==> chunks == []
    {
      var buf: Bytes := [];
      while |buf| < n && chunks != []
        invariant |buf| <= n && Flat(old(chunks)) == buf + Flat(chunks)
        decreases |chunks|
      {
        var piece := chunks[0];
        var k := if n - |buf| < |piece| then n - |buf| else |piece|;
        assert buf + Flat(chunks) == (buf + piece[..k]) + (piece[k..] + Flat(chunks[1..]));
        buf := buf + piece[..k];
        if k < |piece| {
          chunks := [piece[k..]] + chunks[1..];
          break;
        }
        assert piece[k..] == [];
        chunks := chunks[1..];
      }
      r := if |buf| == n then Some(buf) else None;
    }

    method WriteFrame(msg: Bytes) returns (r: Option<FrameError>)
      modifies this`sent
      ensures r == if |msg| > MAX_FRAME then Some(TooLarge) else None
      ensures sent == if |msg| > MAX_FRAME then old(sent) else old(sent) + Frame(msg)
    {
      if |msg| > MAX_FRAME {
        return Some(TooLarge);
      }
      sent := sent + BigEndian(|msg|, 2);
      sent := sent + msg;
      assert old(sent) + BigEndian(|msg|, 2) + msg == old(sent) + Frame(msg);
      return None;
    }

    method ReadFrame() returns (r: Option<Bytes>)
      modifies this`chunks
      ensures match Unframe(Flat(old(chunks)))
        case None => r == None && chunks == []
        case Some(first) => r == Some(first.0) && Flat(chunks) == first.1
    {
      ghost var s := Flat(chunks);
      var lenBuf := ReadExact(2);
      if lenBuf.None? {
        return None;
      }
      var n: int := lenBuf.value[0] as int * 256 + lenBuf.value[1];
      assert n == s[0] as int * 256 + s[1];
      r := ReadExact(n);
      if r.Some? {
        assert s[2..][..n] == s[2..2 + n] && s[2..][n..] == s[2 + n..];
      }
    }

    /** Reads frames until the stream ends. */
    method ReadFrames() returns (msgs: seq<Bytes>)
      modifies this`chunks
      ensures msgs == UnframeAll(Flat(old(chunks))) && chunks == []
    {
      msgs := [];
      ghost var s := Flat(chunks);
      while true
        invariant UnframeAll(s) == msgs + UnframeAll(Flat(chunks))
        decreases |Flat(chunks)|
      {
        var before := Flat(chunks);
        var frame := ReadFrame();
        if frame.None? {
          assert UnframeAll(before) == [];
          return;
        }
        assert UnframeAll(before) == [frame.value] + UnframeAll(Flat(chunks));
        msgs := msgs + [frame.value];
      }
    }
  }

  // -------- Frames come back whole --------

  lemma UnframeOfFrame(msg: Bytes, rest: Bytes)
    requires |msg| <= MAX_FRAME
    ensures Unframe(Frame(msg) + rest) == Some((msg, rest))
  {
    var s := Frame(msg) + rest;
    var b := BigEndian(|msg|, 2);
    assert b == [|msg| / 256 % 256, |msg| % 256] by {
      assert BigEndian(|msg| / 256 / 256, 0) == [];
      assert BigEndian(|msg| / 256, 1) == [|msg| / 256 % 256];
    }
    assert s[0] == b[0] && s[1] == b[1];
    assert s[2..2 + |msg|] == msg && s[2 + |msg|..] == rest;
  }

  /** However the written frames are cut into pieces, reading gives back exactly the messages. */
  lemma {:induction false} FramesRoundTrip(msgs: seq<Bytes>)
    requires AllFit(msgs)
    ensures UnframeAll(Frames(msgs)) == msgs
  {
    if msgs != [] {
      UnframeOfFrame(msgs[0], Frames(msgs[1..]));
      FramesRoundTrip(msgs[1..]);
      assert [msgs[0]] + msgs[1..] == msgs;
    }
  }

  lemma UnframeShort(msg: Bytes, s: Bytes)
    requires |msg| <= MAX_FRAME && |s| < |Frame(msg)| && s == Frame(msg)[..|s|]
    ensures Unframe(s) == None
  {
    UnframeOfFrame(msg, []);
    assert Frame(msg) + [] == Frame(msg);
    if |s| >= 2 {
      assert s[0] == Frame(msg)[0] && s[1] == Frame(msg)[1];
    }
  }

  /** The number of messages whose frames lie within the first n bytes. */
  function Whole(msgs: seq<Bytes>, n: nat): nat
    requires AllFit(msgs)
  {
    if msgs == [] || |Frame(msgs[0])| > n then 0 else 1 + Whole(msgs[1..], n - |Frame(msgs[0])|)
  }

  /** A stream cut anywhere gives the messages that arrived whole, unaltered, and nothing else. */
  lemma {:induction false} TruncatedGivesPrefix(msgs: seq<Bytes>, n: nat)
    requires AllFit(msgs) && n <= |Frames(msgs)|
    ensures Whole(msgs, n) <= |msgs| && UnframeAll(Frames(msgs)[..n]) == msgs[..Whole(msgs, n)]
  {
    var s := Frames(msgs)[..n];
    if msgs != [] {
      var f := Frame(msgs[0]);
      if |f| > n {
        assert s == f[..n];
        UnframeShort(msgs[0], s);
      } else {
        var rest := Frames(msgs[1..])[..n - |f|];
        assert s == f + rest;
        UnframeOfFrame(msgs[0], rest);
        TruncatedGivesPrefix(msgs[1..], n - |f|);
        assert [msgs[0]] + msgs[1..][..Whole(msgs[1..], n - |f|)] == msgs[..Whole(msgs, n)];
      }
    }
  }

  // -------- Fragments --------

  function Header(total: nat, index: nat): (h: Bytes)
    ensures |h| == FRAG_HEADER_BYTES
  {
    BigEndian(total, 4) + BigEndian(index, 4)
  }

  /** The fragments of a body from one position on; an empty body has one empty fragment. */
  function FragmentsFrom(body: Bytes, at: nat, index: nat): seq<Bytes>
    requires at <= |body|
    decreases |body| - at
  {
    if |body| - at <= FRAG_PAYLOAD_MAX then
      if at == |body| && index > 0 then [] else [Header(|body|, index) + body[at..]]
    else [Header(|body|, index) + body[at..at + FRAG_PAYLOAD_MAX]] + FragmentsFrom(body, at + FRAG_PAYLOAD_MAX, index + 1)
  }

  function Fragments(body: Bytes): seq<Bytes> { FragmentsFrom(body, 0, 0) }

  method SendFragments(body: Bytes) returns (frags: seq<Bytes>)
    ensures frags == Fragments(body)
  {
    frags := [];
    var at, i := 0, 0;
    while at < |body|
      invariant at <= |body| && (at > 0 <==> i > 0)
      invariant Fragments(body) == frags + FragmentsFrom(body, at, i)
    {
      var end := if at + FRAG_PAYLOAD_MAX <= |body| then at + FRAG_PAYLOAD_MAX else |body|;
      FragmentStep(body, at, i, end);
      frags := frags + [Header(|body|, i) + body[at..end]];
      at, i := end, i + 1;
    }
    if body == [] {
      frags := frags + [Header(0, 0)];
      assert Header(0, 0) + body[0..] == Header(0, 0);
    }
  }

  function Piece(body: Bytes, at: nat): Bytes
    requires at <= |body|
  {
    if |body| - at <= FRAG_PAYLOAD_MAX then body[at..] else body[at..at + FRAG_PAYLOAD_MAX]
  }

  lemma {:induction false} FragmentCount(body: Bytes, at: nat, index: nat)
    requires at <= |body| && (at < |body| || index == 0)
    ensures |FragmentsFrom(body, at, index)| ==
      if at == |body| then 1 else (|body| - at + FRAG_PAYLOAD_MAX - 1) / FRAG_PAYLOAD_MAX
    decreases |body| - at
  {
    hide Header;
    if |body| - at > FRAG_PAYLOAD_MAX {
      FragmentCount(body, at + FRAG_PAYLOAD_MAX, index + 1);
    }
  }

  lemma FragmentsGoOn(body: Bytes, at: nat, index: nat, j: nat)
    requires at <= |body| && 0 < j < |FragmentsFrom(body, at, index)|
    ensures at + FRAG_PAYLOAD_MAX <= |body| && j - 1 < |FragmentsFrom(body, at + FRAG_PAYLOAD_MAX, index + 1)|
    ensures FragmentsFrom(body, at, index)[j] == FragmentsFrom(body, at + FRAG_PAYLOAD_MAX, index + 1)[j - 1]
  {
    hide Header;
  }

  lemma NextPosition(at: nat, j: nat, step: nat)
    requires j > 0
    ensures at + step + (j - 1) * step == at + j * step
  {
  }

  lemma {:induction false} FragmentAt(body: Bytes, at: nat, index: nat, j: nat)
    requires at <= |body| && j < |FragmentsFrom(body, at, index)|
    ensures at + j * FRAG_PAYLOAD_MAX <= |body|
    ensures FragmentsFrom(body, at, index)[j] == Header(|body|, index + j) + Piece(body, at + j * FRAG_PAYLOAD_MAX)
    decreases |body| - at
  {
    hide Header;
    if j > 0 {
      FragmentsGoOn(body, at, index, j);
      FragmentAt(body, at + FRAG_PAYLOAD_MAX, index + 1, j - 1);
      NextPosition(at, j, FRAG_PAYLOAD_MAX);
      hide FragmentsFrom, Piece, FRAG_PAYLOAD_MAX;
    }
  }

  /** As few fragments as can be, at least one: all but the last are full, and the j-th carries the total
      length and its own position. */
  lemma FragmentsAreFull(body: Bytes, j: nat)
    ensures |Fragments(body)| == if body == [] then 1 else (|body| + FRAG_PAYLOAD_MAX - 1) / FRAG_PAYLOAD_MAX
    ensures j < |Fragments(body)| ==> j * FRAG_PAYLOAD_MAX <= |body|
    ensures j < |Fragments(body)| ==>
      Fragments(body)[j] == Header(|body|, j) + Piece(body, j * FRAG_PAYLOAD_MAX)
  {
    FragmentCount(body, 0, 0);
    if j < |Fragments(body)| {
      FragmentAt(body, 0, 0, j);
    }
  }

  /** Collects fragments while the buffer is short of the announced total. */
  function Collect(buf: Bytes, total: nat, next: nat, received: seq<Bytes>): Result<(Bytes, seq<Bytes>), FrameError>
    decreases |received|
  {
    if |buf| >= total then
      if |buf| == total then Ok((buf, received)) else Err(WrongLength)
    else if received == [] then Err(UnexpectedEof)
    else
      var f := received[0];
      if |f| < FRAG_HEADER_BYTES then Err(FragmentTooShort)
      else if Word(f, 0) != total then Err(WrongTotal)
      else if Word(f, 4) != next then Err(WrongFragment)
      else Collect(buf + f[FRAG_HEADER_BYTES..], total, next + 1, received[1..])
  }

  /** One message from the received plaintexts, and the plaintexts after it. */
  function Reassemble(received: seq<Bytes>): Result<(Bytes, seq<Bytes>), FrameError> {
    if received == [] then Err(UnexpectedEof)
    else
      var first := received[0];
      if |first| < FRAG_HEADER_BYTES then Err(FragmentTooShort)
      else if Word(first, 4) != 0 then Err(WrongFragment)
      else if Word(first, 0) > MAX_MESSAGE_BYTES then Err(TooLarge)
      else Collect(first[FRAG_HEADER_BYTES..], Word(first, 0), 1, received[1..])
  }

  lemma WordOf(n: nat, before: Bytes, after: Bytes)
    requires n < 0x1_0000_0000
    ensures Word(before + (BigEndian(n, 4) + after), |before|) == n
  {
    FourBytes(n);
    var b := before + (BigEndian(n, 4) + after);
    assert forall i :: 0 <= i < 4 ==> b[|before| + i] == BigEndian(n, 4)[i];
    FourDigits(n);
  }

  lemma FourBytes(n: nat)
    ensures BigEndian(n, 4) == [n / 256 / 256 / 256 % 256, n / 256 / 256 % 256, n / 256 % 256, n % 256]
  {
    assert BigEndian(n / 256 / 256 / 256, 1) == [n / 256 / 256 / 256 % 256] by {
      assert BigEndian(n / 256 / 256 / 256 / 256, 0) == [];
    }
    assert BigEndian(n / 256 / 256, 2) == [n / 256 / 256 / 256 % 256, n / 256 / 256 % 256];
    assert BigEndian(n / 256, 3) == [n / 256 / 256 / 256 % 256, n / 256 / 256 % 256, n / 256 % 256];
  }

  lemma FourDigits(n: nat)
    requires n < 0x1_0000_0000
    ensures ((n / 256 / 256 / 256 % 256 * 256 + n / 256 / 256 % 256) * 256 + n / 256 % 256) * 256 + n % 256 == n
  {
  }

  lemma HeaderWords(total: nat, index: nat, payload: Bytes)
    requires total < 0x1_0000_0000 && index < 0x1_0000_0000
    ensures var f := Header(total, index) + payload;
      Word(f, 0) == total && Word(f, 4) == index && f[FRAG_HEADER_BYTES..] == payload
  {
    var f := Header(total, index) + payload;
    WordOf(total, [], BigEndian(index, 4) + payload);
    WordOf(index, BigEndian(total, 4), payload);
    assert f == [] + (BigEndian(total, 4) + (BigEndian(index, 4) + payload));
    assert f == BigEndian(total, 4) + (BigEndian(index, 4) + payload);
  }

  lemma FragmentStep(body: Bytes, at: nat, index: nat, end: nat)
    requires at < |body| && end == if at + FRAG_PAYLOAD_MAX <= |body| then at + FRAG_PAYLOAD_MAX else |body|
    ensures FragmentsFrom(body, at, index) == [Header(|body|, index) + body[at..end]] + FragmentsFrom(body, end, index + 1)
  {
    if end == |body| {
      assert body[at..] == body[at..end];
    }
  }

  /** Collecting the fragments from a position on completes the body that far read. */
  lemma {:induction false} CollectFrom(body: Bytes, at: nat, index: nat, rest: seq<Bytes>)
    requires at <= |body| <= MAX_MESSAGE_BYTES && 0 < index && (index <= at || at == |body|)
    ensures Collect(body[..at], |body|, index, FragmentsFrom(body, at, index) + rest) == Ok((body, rest))
    decreases |body| - at
  {
    var frags := FragmentsFrom(body, at, index);
    if at == |body| {
      assert body[..at] == body && frags + rest == rest;
    } else {
      var end := if at + FRAG_PAYLOAD_MAX <= |body| then at + FRAG_PAYLOAD_MAX else |body|;
      HeaderWords(|body|, index, body[at..end]);
      FragmentStep(body, at, index, end);
      hide Header, Word;
      assert body[..at] + body[at..end] == body[..end];
      assert (frags + rest)[0] == Header(|body|, index) + body[at..end];
      assert (frags + rest)[1..] == FragmentsFrom(body, end, index + 1) + rest;
      CollectFrom(body, end, index + 1, rest);
    }
  }

  /** Reassembling undoes fragmenting, and takes no plaintext of the next message. */
  lemma ReassembleOfFragments(body: Bytes, rest: seq<Bytes>)
    requires |body| <= MAX_MESSAGE_BYTES
    ensures Reassemble(Fragments(body) + rest) == Ok((body, rest))
  {
    var end := if FRAG_PAYLOAD_MAX <= |body| then FRAG_PAYLOAD_MAX else |body|;
    var frags := Fragments(body);
    HeaderWords(|body|, 0, body[..end]);
    assert body[0..end] == body[..end];
    assert (frags + rest)[0] == Header(|body|, 0) + body[..end];
    assert (frags + rest)[1..] == (if end == |body| then [] else FragmentsFrom(body, end, 1)) + rest;
    CollectFrom(body, end, 1, rest);
    if end == |body| {
      assert [] + rest == rest;
    }
  }

  /** Whatever is reassembled was announced: every fragment taken carries the total length and
      its own position, in order, and the message is exactly their payloads. */
  ghost predicate Announced(taken: seq<Bytes>, total: nat, first: nat, payload: Bytes)
    decreases |taken|
  {
    if taken == [] then payload == []
    else
      && |taken[0]| >= FRAG_HEADER_BYTES && Word(taken[0], 0) == total && Word(taken[0], 4) == first
      && taken[0][FRAG_HEADER_BYTES..] <= payload
      && Announced(taken[1..], total, first + 1, payload[|taken[0]| - FRAG_HEADER_BYTES..])
  }

  lemma {:induction false} CollectedIsAnnounced(buf: Bytes, total: nat, next: nat, received: seq<Bytes>)
    requires Collect(buf, total, next, received).Ok?
    ensures var r := Collect(buf, total, next, received).value;
      && |r.0| == total && buf <= r.0 && |r.1| <= |received| && received[|received| - |r.1|..] == r.1
      && Announced(received[..|received| - |r.1|], total, next, r.0[|buf|..])
    decreases |received|
  {
    var r := Collect(buf, total, next, received).value;
    var k := |received| - |r.1|;
    if |buf| < total {
      var f := received[0];
      var payload := f[FRAG_HEADER_BYTES..];
      CollectedIsAnnounced(buf + payload, total, next + 1, received[1..]);
      k := |received| - |r.1|;
      assert received[..k][1..] == received[1..][..k - 1];
      assert received[k..] == received[1..][k - 1..];
      assert r.0[|buf|..|buf| + |payload|] == (buf + payload)[|buf|..] == payload;
      assert r.0[|buf|..][|payload|..] == r.0[|buf + payload|..];
    }
  }

  /** A message is accepted only whole: its length is the announced total, and it is exactly the
      payloads of fragments 0, 1, 2, ... that all announce that total. */
  lemma ReassembledIsAnnounced(received: seq<Bytes>)
    requires Reassemble(received).Ok?
    ensures var r := Reassemble(received).value;
      && |r.0| <= MAX_MESSAGE_BYTES && |r.1| < |received| && received[|received| - |r.1|..] == r.1
      && Announced(received[..|received| - |r.1|], |r.0|, 0, r.0)
  {
    var first := received[0];
    CollectedIsAnnounced(first[FRAG_HEADER_BYTES..], Word(first, 0), 1, received[1..]);
    var r := Reassemble(received).value;
    var k := |received| - |r.1|;
    assert received[..k][1..] == received[1..][..k - 1];
    assert received[k..] == received[1..][k - 1..];
  }
}
