/** The encrypted channel: numbered, sealed and framed messages over a byte stream. */
module Channel {
  import opened Prelude
  import opened Framing

  /** The transport cipher of one direction: key, message number, text. */
  datatype Cipher = Cipher(seal: (Bytes, nat, Bytes) -> Bytes, open: (Bytes, nat, Bytes) -> Option<Bytes>)

  /** A sealed message is its text and a tag. */
  ghost predicate TagsFit(c: Cipher) { forall k, n, p :: |c.seal(k, n, p)| == |p| + TAG_BYTES }

  datatype RecvResult = Received(plaintext: Bytes) | Ended | TransportTooLarge | TransportDecrypt

  class Endpoint {
    const io: Stream
    const cipher: Cipher
    const sendKey: Bytes
    const recvKey: Bytes
    var sendCount: nat
    var recvCount: nat

    constructor (io: Stream, cipher: Cipher, sendKey: Bytes, recvKey: Bytes)
      ensures this.io == io && this.cipher == cipher && this.sendKey == sendKey && this.recvKey == recvKey
      ensures sendCount == 0 && recvCount == 0
    {
      this.io, this.cipher, this.sendKey, this.recvKey := io, cipher, sendKey, recvKey;
      sendCount, recvCount := 0, 0;
    }

    /** A message that fits is always written: its frame is never too large. */
    method Send(plaintext: Bytes) returns (r: Option<FrameError>)
      requires TagsFit(cipher)
      modifies this`sendCount, io`sent
      ensures r.Some? <==> |plaintext| > MAX_TRANSPORT_MSG
      ensures r.Some? ==> r.value == TooLarge && sendCount == old(sendCount) && io.sent == old(io.sent)
      ensures r.None? ==> sendCount == old(sendCount) + 1
      ensures r.None? ==> io.sent == old(io.sent) + Frame(cipher.seal(sendKey, old(sendCount), plaintext))
    {
      if |plaintext| > MAX_TRANSPORT_MSG {
        return Some(TooLarge);
      }
      var ciphertext := cipher.seal(sendKey, sendCount, plaintext);
      assert |ciphertext| == |plaintext| + TAG_BYTES by { assert TagsFit(cipher); }
      sendCount := sendCount + 1;
      r := io.WriteFrame(ciphertext);
    }

    /** The message number advances only when a message opens. */
    method Recv() returns (r: RecvResult)
      modifies this`recvCount, io`chunks
      ensures match Unframe(Flat(old(io.chunks)))
        case None => r == Ended && recvCount == old(recvCount)
        case Some(first) =>
          && Flat(io.chunks) == first.1
          && r == RecvOf(cipher, recvKey, old(recvCount), first.0)
          && recvCount == if r.Received? then old(recvCount) + 1 else old(recvCount)
    {
      var ciphertext := io.ReadFrame();
      match ciphertext {
        case None => return Ended;
        case Some(bytes) =>
          if |bytes| > MAX_TRANSPORT_MSG + TAG_BYTES {
            return TransportTooLarge;
          }
          var plaintext := cipher.open(recvKey, recvCount, bytes);
          match plaintext {
            case None => return TransportDecrypt;
            case Some(p) =>
              recvCount := recvCount + 1;
              return Received(p);
          }
      }
    }
  }

  function RecvOf(c: Cipher, key: Bytes, n: nat, frame: Bytes): RecvResult {
    if |frame| > MAX_TRANSPORT_MSG + TAG_BYTES then TransportTooLarge
    else match c.open(key, n, frame)
      case None => TransportDecrypt
      case Some(p) => Received(p)
  }

  // -------- Whole conversations --------

  function SealAll(c: Cipher, key: Bytes, n: nat, msgs: seq<Bytes>): (frames: seq<Bytes>)
    ensures |frames| == |msgs|
    decreases |msgs|
  {
    if msgs == [] then [] else [c.seal(key, n, msgs[0])] + SealAll(c, key, n + 1, msgs[1..])
  }

  /** What a receiver gets that stops at the first message it cannot open. */
  function OpenAll(c: Cipher, key: Bytes, n: nat, frames: seq<Bytes>): seq<Bytes>
    decreases |frames|
  {
    if frames == [] then []
    else match RecvOf(c, key, n, frames[0])
      case Received(p) => [p] + OpenAll(c, key, n + 1, frames[1..])
      case _ => []
  }

  /** What a receiver gets that goes on after messages it cannot open. */
  function OpenOn(c: Cipher, key: Bytes, n: nat, frames: seq<Bytes>): seq<Bytes>
    decreases |frames|
  {
    if frames == [] then []
    else match RecvOf(c, key, n, frames[0])
      case Received(p) => [p] + OpenOn(c, key, n + 1, frames[1..])
      case _ => OpenOn(c, key, n, frames[1..])
  }

  predicate AllSmall(msgs: seq<Bytes>) { forall i :: 0 <= i < |msgs| ==> |msgs[i]| <= MAX_TRANSPORT_MSG }

  /** From number n on, these messages open in their turn. */
  ghost predicate OpensSent(c: Cipher, key: Bytes, n: nat, msgs: seq<Bytes>) {
    forall i :: 0 <= i < |msgs| ==> c.open(key, n + i, c.seal(key, n + i, msgs[i])) == Some(msgs[i])
  }

  lemma {:induction false} SealedFit(c: Cipher, key: Bytes, n: nat, msgs: seq<Bytes>)
    requires TagsFit(c) && OpensSent(c, key, n, msgs) && AllSmall(msgs)
    ensures AllFit(SealAll(c, key, n, msgs))
    ensures OpenAll(c, key, n, SealAll(c, key, n, msgs)) == msgs
    decreases |msgs|
  {
    if msgs != [] {
      forall i | 0 <= i < |msgs[1..]|
        ensures c.open(key, n + 1 + i, c.seal(key, n + 1 + i, msgs[1..][i])) == Some(msgs[1..][i])
      {
        assert msgs[1..][i] == msgs[i + 1] && n + 1 + i == n + (i + 1);
      }
      assert c.open(key, n + 0, c.seal(key, n + 0, msgs[0])) == Some(msgs[0]);
      SealedFit(c, key, n + 1, msgs[1..]);
      assert [msgs[0]] + msgs[1..] == msgs;
    }
  }

  /** Every list of messages of at most the transport size arrives whole and in order, however
      the stream is cut into pieces. */
  lemma ChannelRoundTrip(c: Cipher, key: Bytes, msgs: seq<Bytes>)
    requires TagsFit(c) && OpensSent(c, key, 0, msgs) && AllSmall(msgs)
    ensures AllFit(SealAll(c, key, 0, msgs))
    ensures OpenAll(c, key, 0, UnframeAll(Frames(SealAll(c, key, 0, msgs)))) == msgs
  {
    SealedFit(c, key, 0, msgs);
    FramesRoundTrip(SealAll(c, key, 0, msgs));
  }

  /** An ideal cipher after these messages were sealed: number n opens only the n-th of them. */
  ghost predicate OpensOnlySent(c: Cipher, key: Bytes, msgs: seq<Bytes>) {
    forall n: nat, ct :: c.open(key, n, ct).Some? ==>
      n < |msgs| && ct == c.seal(key, n, msgs[n]) && c.open(key, n, ct) == Some(msgs[n])
  }

  lemma {:induction false} OpenedArePrefix(c: Cipher, key: Bytes, msgs: seq<Bytes>, n: nat, frames: seq<Bytes>)
    requires OpensOnlySent(c, key, msgs) && n <= |msgs|
    ensures OpenOn(c, key, n, frames) <= msgs[n..]
    ensures OpenAll(c, key, n, frames) <= OpenOn(c, key, n, frames)
    decreases |frames|
  {
    if frames != [] {
      if RecvOf(c, key, n, frames[0]).Received? {
        assert c.open(key, n, frames[0]).Some?;
        OpenedArePrefix(c, key, msgs, n + 1, frames[1..]);
        assert msgs[n..] == [msgs[n]] + msgs[n + 1..];
      } else {
        OpenedArePrefix(c, key, msgs, n, frames[1..]);
      }
    }
  }

  /** Whatever bytes arrive, dropped, repeated, reordered, cut or altered, the receiver takes a
      prefix of the messages that were sent, even if it goes on after every refusal. */
  lemma AnyStreamGivesPrefix(c: Cipher, key: Bytes, msgs: seq<Bytes>, stream: Bytes)
    requires OpensOnlySent(c, key, msgs)
    ensures OpenOn(c, key, 0, UnframeAll(stream)) <= msgs
    ensures OpenAll(c, key, 0, UnframeAll(stream)) <= OpenOn(c, key, 0, UnframeAll(stream))
  {
    OpenedArePrefix(c, key, msgs, 0, UnframeAll(stream));
    assert msgs[0..] == msgs;
  }
}
