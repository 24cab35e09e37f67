/** Opening a packet undoes building it, and opens nothing else. */
module PacketTheorems {
  import opened Prelude
  import opened Utf
  import opened Alphabet
  import opened Codec
  import opened CodecTheorems
  import opened Human
  import opened Schedule
  import opened Transform
  import opened Packet

  /** Splitting a rendered non-empty list gives the list; splitting nothing gives one empty part. */
  lemma SplitRendered(ts: seq<string>)
    requires AllTokens(ts)
    ensures ts != [] ==> Split(JoinWith(ts)) == ts
    ensures ts == [] ==> Split(JoinWith(ts)) == [[]]
  {
    if ts != [] {
      SplitJoin(ts);
    }
  }

  /** The tokens that a packet carries: those of the message, each turned by its row. */
  ghost function Carried(h: Hashes, s: Session, c: Config, plaintext: string): (us: seq<string>)
    requires DigestsAre32(h) && c.Valid() && Normalize(plaintext).Ok?
    ensures MessageTokens(plaintext).Ok? && AllTokens(us) && |us| == |MessageTokens(plaintext).value|
  {
    MessageTokensPrint(plaintext);
    var ts := MessageTokens(plaintext).value;
    Turn(ts, Rows(h, s, c, |ts|), true)
  }

  lemma CarriedIsApplied(h: Hashes, s: Session, c: Config, plaintext: string)
    requires DigestsAre32(h) && c.Valid() && Normalize(plaintext).Ok?
    ensures MessageTokens(plaintext).Ok? && Applied(h, s, c, plaintext).Ok?
    ensures Applied(h, s, c, plaintext).value.transformedHuman == JoinWith(Carried(h, s, c, plaintext))
    ensures plaintext == [] <==> Carried(h, s, c, plaintext) == []
  {
    MessageTokensPrint(plaintext);
    var n := Normalize(plaintext).value;
    if n != [] {
      EncodeStart(n);
      CharOfTokenOf(n[0]);
      assert Join(MessageTokens(plaintext).value) != [];
    }
  }

  /** The header and the payload that building produces. */
  ghost function HeaderOf(s: Session, count: int): PacketHeader {
    PacketHeader(SUPPORTED_VERSION, SUPPORTED_ALG, SUPPORTED_MODE, s.context, s.nonce, count)
  }

  ghost function BuiltPacket(h: Hashes, a: Aead, s: Session, us: seq<string>): Packet
    requires DigestsAre32(h) && AllTokens(us)
  {
    var header := HeaderOf(s, |us|);
    Packet(header, Sealed(a, CallFor(h, s.masterKey, header, TokensToBytes(us).value)))
  }

  /** Building succeeds iff the configuration is valid, the text normalizes and is not empty,
      and neither context nor nonce is empty; then the header counts the payload. */
  lemma BuiltIff(h: Hashes, a: Aead, plaintext: string, s: Session, c: Config)
    requires DigestsAre32(h)
    ensures Built(h, a, plaintext, s, c).Ok? <==>
      c.Valid() && Normalize(plaintext).Ok? && plaintext != [] && s.context != [] && s.nonce != []
    ensures Built(h, a, plaintext, s, c).Ok? ==>
      var us := Carried(h, s, c, plaintext);
      var r := Built(h, a, plaintext, s, c).value;
      && us != [] && r.packet == BuiltPacket(h, a, s, us) && r.header == r.packet.header
      && r.tokenCount == r.header.tokenCount == |TokensToBytes(us).value| == |us|
      && r.transformedHuman == JoinWith(us)
  {
    if c.Valid() && Normalize(plaintext).Ok? {
      CarriedIsApplied(h, s, c, plaintext);
      var us := Carried(h, s, c, plaintext);
      SplitRendered(us);
      if us == [] {
        assert !IsToken([[]][0]);
      }
    } else if Normalize(plaintext).Err? {
      assert Applied(h, s, c, plaintext).Err?;
    }
  }

  /** An opened payload of a message's turned tokens gives back what the codec preserves. */
  lemma OpenedCarried(h: Hashes, s: Session, c: Config, plaintext: string)
    requires DigestsAre32(h) && c.Valid() && Normalize(plaintext).Ok? && plaintext != []
    ensures var us := Carried(h, s, c, plaintext);
      var r := OpenedPayload(h, HeaderOf(s, |us|), TokensToBytes(us).value, s.masterKey, c);
      && r.Ok? && r.value.header == HeaderOf(s, |us|) && r.value.transformedHuman == JoinWith(us)
      && Ok(r.value.recoveredPlaintext) == Decode(Encode(Normalize(plaintext).value))
      && r.value.recoveredHuman == JoinWith(MessageTokens(plaintext).value)
  {
    var us := Carried(h, s, c, plaintext);
    IdentifiersRoundTrip(us, []);
    CarriedIsApplied(h, s, c, plaintext);
    ReverseOfApplied(h, s, c, plaintext);
    assert RenderHuman(us) == Ok(JoinWith(us));
    assert Session(s.masterKey, s.nonce, s.context) == s;
  }

  /** The one call that building makes. */
  ghost function CallOf(h: Hashes, s: Session, us: seq<string>): SealCall
    requires DigestsAre32(h) && AllTokens(us)
  {
    CallFor(h, s.masterKey, HeaderOf(s, |us|), TokensToBytes(us).value)
  }

  /** What this call seals, the cipher opens again. */
  ghost predicate OpensSealed(a: Aead, q: SealCall) { a.open(q.key, q.nonce, Sealed(a, q), q.aad) == Some(q.plain) }

  /** Opening what was built, with the same key and configuration, for every non-empty text
      that normalizes and every non-empty context and nonce. */
  lemma OpenOfBuild(h: Hashes, a: Aead, plaintext: string, s: Session, c: Config)
    requires DigestsAre32(h) && Built(h, a, plaintext, s, c).Ok?
    requires c.Valid() && Normalize(plaintext).Ok? && OpensSealed(a, CallOf(h, s, Carried(h, s, c, plaintext)))
    ensures var b := Built(h, a, plaintext, s, c).value;
      var r := Opened(h, a, b.packet, s.masterKey, c);
      && r.Ok? && r.value.header == b.header && r.value.transformedHuman == b.transformedHuman
      && Ok(r.value.recoveredPlaintext) == Decode(Encode(Normalize(plaintext).value))
  {
    BuiltIff(h, a, plaintext, s, c);
    OpenedCarried(h, s, c, plaintext);
  }

  // -------- Nothing else opens --------

  /** An ideal cipher after one call: it opens that call's output, under the call's key, nonce
      and additional data, and nothing else. */
  ghost predicate OpensOnly(a: Aead, q: SealCall) {
    forall k, n, ct, d :: a.open(k, n, ct, d) ==
      if k == q.key && n == q.nonce && d == q.aad && ct == Sealed(a, q) then Some(q.plain) else None
  }

  /** After one packet was built, a packet opens iff its header and ciphertext are those of the
      built one and the key derives the same cipher key; then the configuration decides the rest. */
  lemma OpenOnly(h: Hashes, a: Aead, s: Session, us: seq<string>, packet: Packet, masterKey: string, c: Config)
    requires DigestsAre32(h) && AllTokens(us) && us != [] && s.context != [] && s.nonce != []
    requires OpensOnly(a, CallOf(h, s, us))
    ensures
      var same := packet == BuiltPacket(h, a, s, us) && AeadKey(h, masterKey, s.context) == AeadKey(h, s.masterKey, s.context);
      var r := Opened(h, a, packet, masterKey, c);
      && (same ==> r == OpenedPayload(h, HeaderOf(s, |us|), TokensToBytes(us).value, masterKey, c))
      && (!same ==> r.Err?)
      && (!same && ValidateHeader(packet.header).None? ==> r == Err(InvalidTag))
  {
    hide HeaderBytes, OpenedPayload, TokensToBytes, Utf8;
    var q, r := CallOf(h, s, us), CallFor(h, masterKey, packet.header, []);
    HeaderBytesBind(packet.header, HeaderOf(s, |us|));
  }

  /** Under the right key and any valid configuration, the built packet opens. */
  lemma OpensWithAnyConfig(h: Hashes, header: PacketHeader, us: seq<string>, masterKey: string, c: Config)
    requires DigestsAre32(h) && AllTokens(us) && header.tokenCount == |us|
    ensures OpenedPayload(h, header, TokensToBytes(us).value, masterKey, c).Ok? <==> c.Valid()
  {
    IdentifiersRoundTrip(us, []);
    ParseInputOfRender(us);
  }
}
