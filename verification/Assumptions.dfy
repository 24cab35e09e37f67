/** The cryptographic assumptions of the theorems can be met: a cipher for each of them. */
module Assumptions {
  import opened Prelude
  import opened Utf
  import opened Codec
  import opened Schedule
  import opened Aad
  import V = Vault
  import VT = VaultTheorems
  import P = Packet
  import PT = PacketTheorems
  import C = Channel

  function Fill(b: Byte, n: nat): Bytes { seq(n, i => b) }

  /** A key of 32 bytes that differs from the given one in its first byte. */
  function Other(key: Bytes, i: nat): Bytes
    requires |key| == 32 && 1 <= i <= 3
  {
    [if key[0] + i < 256 then key[0] + i else key[0] + i - 256] + Fill(0, 31)
  }

  lemma OthersDiffer(key: Bytes)
    requires |key| == 32
    ensures Other(key, 1)[0] != key[0] && Other(key, 2)[0] != key[0] && Other(key, 3)[0] != key[0]
    ensures Other(key, 1)[0] != Other(key, 2)[0] && Other(key, 1)[0] != Other(key, 3)[0] && Other(key, 2)[0] != Other(key, 3)[0]
  {
  }

  /** One derived key for the bytes a, another for b, and a third for all others. */
  function Derived(key: Bytes, a: Bytes, b: Bytes, phrase: Bytes): Bytes
    requires |key| == 32
  {
    if phrase == a then Other(key, 1) else if phrase == b then Other(key, 2) else Other(key, 3)
  }

  /** The text with a tag that tells the keys apart. */
  function Tagged(key: Bytes, k: Bytes, p: Bytes): Bytes
    requires |key| == 32
  {
    p + Fill(if k == Other(key, 1) then 1 else if k == Other(key, 2) then 2 else 0, 16)
  }

  /** A cipher that opens what these three calls sealed and nothing else. */
  function Table(key: Bytes, a: Bytes, b: Bytes, q1: V.SealCall, q2: V.SealCall, q3: V.SealCall): V.Crypto
    requires |key| == 32
  {
    V.Crypto(
      (phrase: Bytes, salt: Bytes, ops: int, mem: int) => Derived(key, a, b, phrase),
      (k: Bytes, n: Bytes, aad: Bytes, p: Bytes) => Tagged(key, k, p),
      (k: Bytes, n: Bytes, aad: Bytes, ct: Bytes) =>
        if Opens(key, q1, k, n, aad, ct) then Some(q1.plain)
        else if Opens(key, q2, k, n, aad, ct) then Some(q2.plain)
        else if Opens(key, q3, k, n, aad, ct) then Some(q3.plain)
        else None)
  }

  predicate Opens(key: Bytes, q: V.SealCall, k: Bytes, n: Bytes, aad: Bytes, ct: Bytes)
    requires |key| == 32
  {
    q.key == k && q.nonce == n && q.aad == aad && Tagged(key, k, q.plain) == ct
  }

  lemma TagsDiffer(p: Bytes, q: Bytes, s: Byte, t: Byte)
    requires s != t
    ensures p + Fill(s, 16) != q + Fill(t, 16)
  {
    var x, y := p + Fill(s, 16), q + Fill(t, 16);
    assert x[|x| - 1] == s && y[|y| - 1] == t;
  }

  lemma TaggedDiffer(key: Bytes, p: Bytes, q: Bytes, r: Bytes)
    requires |key| == 32
    ensures Tagged(key, Other(key, 1), p) != Tagged(key, Other(key, 2), q)
    ensures Tagged(key, Other(key, 1), p) != Tagged(key, key, r) && Tagged(key, Other(key, 2), q) != Tagged(key, key, r)
    ensures |Tagged(key, Other(key, 1), p)| == |p| + 16
  {
    OthersDiffer(key);
    TagsDiffer(p, q, 1, 2);
    TagsDiffer(p, r, 1, 0);
    TagsDiffer(q, r, 2, 0);
  }

  /** For every header, material, text and two phrases with different bytes, and for any third
      phrase, there is a cipher that meets every assumption of the vault theorems. */
  lemma VaultAssumptionsHold(h: Header, m: V.Material, p: JsString, q: JsString, plain: Bytes, other: JsString)
    returns (c: V.Crypto)
    requires V.GoodMaterial(m) && TextEncode(p) != TextEncode(q)
    ensures VT.Ideal(c, VT.CallsOf(c, h, m, [p, q], plain)) && VT.NoCollision(c, h, m, [p, q], other)
    ensures forall x :: x in [p, q] ==> V.WrapKey(c, h, m.salt, x) != m.vaultKey
  {
    hide BuildAAD, TextEncode;
    var key, a, b := m.vaultKey, TextEncode(p), TextEncode(q);
    var aad := BuildAAD(h);
    var q1 := V.SealCall(Other(key, 1), m.wrapNonce, aad, key);
    var q2 := V.SealCall(Other(key, 2), m.wrapNonce, aad, key);
    var q3 := V.SealCall(key, m.contentNonce, aad, plain);
    c := Table(key, a, b, q1, q2, q3);
    TableCalls(h, m, p, q, plain, q1, q2, q3, c);
    TableIsIdeal(key, a, b, q1, q2, q3);
    TableHasNoCollision(h, m, p, q, plain, q1, q2, q3, c, other);
  }

  /** The three calls of the construction are the calls that seal the text for p and q. */
  lemma TableCalls(h: Header, m: V.Material, p: JsString, q: JsString, plain: Bytes,
                   q1: V.SealCall, q2: V.SealCall, q3: V.SealCall, c: V.Crypto)
    requires V.GoodMaterial(m) && TextEncode(p) != TextEncode(q)
    requires q1 == V.SealCall(Other(m.vaultKey, 1), m.wrapNonce, BuildAAD(h), m.vaultKey)
    requires q2 == V.SealCall(Other(m.vaultKey, 2), m.wrapNonce, BuildAAD(h), m.vaultKey)
    requires q3 == V.SealCall(m.vaultKey, m.contentNonce, BuildAAD(h), plain)
    requires c == Table(m.vaultKey, TextEncode(p), TextEncode(q), q1, q2, q3)
    ensures VT.CallsOf(c, h, m, [p, q], plain) == {q1, q2, q3}
  {
    hide BuildAAD, TextEncode, Other;
    assert V.WrapCall(c, h, m, p) == q1 && V.WrapCall(c, h, m, q) == q2 && V.ContentCall(h, m, plain) == q3;
    assert p in [p, q] && q in [p, q];
  }

  lemma TableHasNoCollision(h: Header, m: V.Material, p: JsString, q: JsString, plain: Bytes,
                            q1: V.SealCall, q2: V.SealCall, q3: V.SealCall, c: V.Crypto, other: JsString)
    requires V.GoodMaterial(m) && TextEncode(p) != TextEncode(q)
    requires c == Table(m.vaultKey, TextEncode(p), TextEncode(q), q1, q2, q3)
    ensures VT.NoCollision(c, h, m, [p, q], other)
    ensures forall x :: x in [p, q] ==> V.WrapKey(c, h, m.salt, x) != m.vaultKey
  {
    hide TextEncode;
    OthersDiffer(m.vaultKey);
  }

  lemma TableIsIdeal(key: Bytes, a: Bytes, b: Bytes, q1: V.SealCall, q2: V.SealCall, q3: V.SealCall)
    requires |key| == 32 && q1.key == Other(key, 1) && q2.key == Other(key, 2) && q3.key == key
    ensures VT.Ideal(Table(key, a, b, q1, q2, q3), {q1, q2, q3})
  {
    var c := Table(key, a, b, q1, q2, q3);
    OthersDiffer(key);
    TaggedDiffer(key, q1.plain, q2.plain, q3.plain);
    assert V.Sealed(c, q1) == Tagged(key, q1.key, q1.plain) && V.Sealed(c, q2) == Tagged(key, q2.key, q2.plain);
    assert V.Sealed(c, q3) == Tagged(key, q3.key, q3.plain);
    assert VT.Faithful(c, {q1, q2, q3});
  }

  // -------- Packets --------

  lemma Longer(s: string, more: string)
    requires more != []
    ensures Utf8(s + more) != Utf8(s)
  {
    DecodeEncodeAll(Scalars(s + more));
    DecodeEncodeAll(Scalars(s));
    assert |Scalars(s + more)| != |Scalars(s)|;
  }

  /** For every session, valid configuration and non-empty text that normalizes there are hashes
      and a cipher that meet every assumption of the packet and audit theorems. */
  lemma PacketAssumptionsHold(plaintext: string, s: Session, c: Config) returns (h: Hashes, a: P.Aead)
    requires c.Valid() && Normalize(plaintext).Ok? && plaintext != [] && s.context != [] && s.nonce != []
    ensures DigestsAre32(h) && PT.OpensOnly(a, PT.CallOf(h, s, PT.Carried(h, s, c, plaintext)))
    ensures PT.OpensSealed(a, PT.CallOf(h, s, PT.Carried(h, s, c, plaintext)))
    ensures P.AeadKey(h, s.masterKey + "::wrong", s.context) != P.AeadKey(h, s.masterKey, s.context)
    ensures P.Built(h, a, plaintext, s, c).Ok? && P.Built(h, a, plaintext, s, c).value.packet.ciphertext != []
  {
    var wrong := Utf8(s.masterKey + "::wrong");
    Longer(s.masterKey, "::wrong");
    h := Hashes((key: Bytes, message: Bytes) => Fill(if key == wrong then 1 else 0, 32),
                (message: Bytes) => Fill(0, 32), (x: nat, y: nat, z: nat) => 0);
    assert Fill(1, 32)[0] != Fill(0, 32)[0];
    var q := PT.CallOf(h, s, PT.Carried(h, s, c, plaintext));
    a := P.Aead((k: Bytes, n: Bytes, p: Bytes, d: Bytes) => p + [0],
                (k: Bytes, n: Bytes, ct: Bytes, d: Bytes) =>
                  if k == q.key && n == q.nonce && d == q.aad && ct == q.plain + [0] then Some(q.plain) else None);
    PT.BuiltIff(h, a, plaintext, s, c);
  }

  // -------- The channel --------

  /** For every list of messages there is a cipher that opens each in its turn and nothing else. */
  lemma ChannelAssumptionsHold(key: Bytes, msgs: seq<Bytes>) returns (c: C.Cipher)
    ensures C.TagsFit(c) && C.OpensSent(c, key, 0, msgs) && C.OpensOnlySent(c, key, msgs)
  {
    c := C.Cipher((k: Bytes, n: nat, p: Bytes) => p + Fill(0, 16),
                  (k: Bytes, n: nat, ct: Bytes) =>
                    if k == key && n < |msgs| && ct == msgs[n] + Fill(0, 16) then Some(msgs[n]) else None);
  }
}
