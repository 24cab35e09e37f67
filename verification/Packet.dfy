/** Sealed packets of token identifiers. */
module Packet {
  import opened Prelude
  import opened Utf
  import opened Alphabet
  import opened Codec
  import opened Human
  import opened Schedule
  import opened Transform
  import opened JsonTheorems
  import Aad

  datatype PacketError =
    | BadVersion | BadAlgorithm | BadMode | EmptyContext | EmptyNonce | BadTokenCount
    | UnknownIdentifier | InvalidTag | TokenCountMismatch
    | BryFailed(error: BryError) | TransformFailed(transform: TransformError)

  // -------- Token identifiers --------

  predicate AllIdentifiers(data: Bytes) { forall i :: 0 <= i < |data| ==> data[i] < |TABLE| }

  function TokensToBytes(ts: seq<string>): Result<Bytes, PacketError> {
    if AllTokens(ts) then Ok(seq(|ts|, i requires 0 <= i < |ts| => Identifier(ts[i]))) else Err(BryFailed(UnknownToken))
  }

  function Identifier(t: string): Byte
    requires IsToken(t)
  {
    TokenAtTableIndex(t);
    TableIndex(t)
  }

  function TokenAt(id: Byte): string
    requires id < |TABLE|
  {
    TABLE[id].0
  }

  function BytesToTokens(data: Bytes): Result<seq<string>, PacketError> {
    if AllIdentifiers(data) then Ok(seq(|data|, i requires 0 <= i < |data| => TokenAt(data[i]))) else Err(UnknownIdentifier)
  }

  method ReadIdentifiers(data: Bytes) returns (r: Result<seq<string>, PacketError>)
    ensures r == BytesToTokens(data)
  {
    var out: seq<string> := [];
    var invalid: Bytes := [];
    for i := 0 to |data|
      invariant invalid == [] <==> AllIdentifiers(data[..i])
      invariant invalid == [] ==> |out| == i
      invariant invalid == [] ==> forall j :: 0 <= j < i ==> data[j] < |TABLE| && out[j] == TokenAt(data[j])
    {
      if data[i] < |TABLE| {
        out := out + [TokenAt(data[i])];
      } else {
        invalid := invalid + [data[i]];
        assert data[..i + 1][i] == data[i];
      }
    }
    assert data[..|data|] == data;
    if invalid == [] {
      assert out == BytesToTokens(data).value;
    }
    r := if invalid != [] then Err(UnknownIdentifier) else Ok(out);
  }

  lemma TokenOfIdentifier(t: string)
    requires IsToken(t)
    ensures Identifier(t) < |TABLE| && TokenAt(Identifier(t)) == t
  {
    TokenAtTableIndex(t);
  }

  lemma IdentifierOfToken(id: Byte)
    requires id < |TABLE|
    ensures IsToken(TokenAt(id)) && Identifier(TokenAt(id)) == id
  {
    TableIsExact(id);
    TokenAtTableIndex(TokenAt(id));
    if id < 26 {
      TableLetters(id);
    }
  }

  /** Token lists and identifier strings are inverse to each other. */
  lemma IdentifiersRoundTrip(ts: seq<string>, data: Bytes)
    ensures AllTokens(ts) ==> TokensToBytes(ts).Ok? && BytesToTokens(TokensToBytes(ts).value) == Ok(ts)
    ensures AllIdentifiers(data) ==> BytesToTokens(data).Ok? && TokensToBytes(BytesToTokens(data).value) == Ok(data)
  {
    if AllTokens(ts) {
      var b := TokensToBytes(ts).value;
      forall i | 0 <= i < |ts| ensures b[i] < |TABLE| && TokenAt(b[i]) == ts[i] {
        TokenOfIdentifier(ts[i]);
      }
      assert BytesToTokens(b).value == ts;
    }
    if AllIdentifiers(data) {
      var us := BytesToTokens(data).value;
      forall i | 0 <= i < |data| ensures IsToken(us[i]) && Identifier(us[i]) == data[i] {
        IdentifierOfToken(data[i]);
      }
      assert TokensToBytes(us).value == data;
    }
  }

  // -------- Headers --------

  datatype PacketHeader = PacketHeader(
    version: int, alg: string, bryMode: string, context: string, packetNonce: string, tokenCount: int)

  const SUPPORTED_VERSION: int := 1
  const SUPPORTED_ALG: string := "ChaCha20-Poly1305"
  const SUPPORTED_MODE: string := "token_ids_v1"

  /** None is acceptance. */
  function ValidateHeader(h: PacketHeader): Option<PacketError> {
    if h.version != SUPPORTED_VERSION then Some(BadVersion)
    else if h.alg != SUPPORTED_ALG then Some(BadAlgorithm)
    else if h.bryMode != SUPPORTED_MODE then Some(BadMode)
    else if h.context == [] then Some(EmptyContext)
    else if h.packetNonce == [] then Some(EmptyNonce)
    else if h.tokenCount < 1 then Some(BadTokenCount)
    else None
  }

  /** {"alg":" */
  const ALG_PART: JsString := [0x7b, 0x22, 0x61, 0x6c, 0x67, 0x22, 0x3a, 0x22]
  /** "bry_mode":" */
  const MODE_PART: JsString := [0x22, 0x62, 0x72, 0x79, 0x5f, 0x6d, 0x6f, 0x64, 0x65, 0x22, 0x3a, 0x22]
  /** "context":" */
  const CONTEXT_PART: JsString := [0x22, 0x63, 0x6f, 0x6e, 0x74, 0x65, 0x78, 0x74, 0x22, 0x3a, 0x22]
  /** "packet_nonce":" */
  const NONCE_PART: JsString := [0x22, 0x70, 0x61, 0x63, 0x6b, 0x65, 0x74, 0x5f, 0x6e, 0x6f, 0x6e, 0x63, 0x65, 0x22, 0x3a, 0x22]
  /** "token_count": */
  const COUNT_PART: JsString := [0x22, 0x74, 0x6f, 0x6b, 0x65, 0x6e, 0x5f, 0x63, 0x6f, 0x75, 0x6e, 0x74, 0x22, 0x3a]
  /** "version": */
  const VERSION_PART: JsString := [0x22, 0x76, 0x65, 0x72, 0x73, 0x69, 0x6f, 0x6e, 0x22, 0x3a]

  /** A quoted string as json.dumps writes it, its opening quote in the part before it. */
  function QuotedOnto(s: string, rest: JsString): JsString {
    Json.AsciiBody(Units(s)) + ([Json.QUOTE] + rest)
  }

  function VersionOnto(h: PacketHeader): JsString { VERSION_PART + (Json.PrintInt(h.version) + [Json.RBRACE]) }

  function CountOnto(h: PacketHeader): JsString {
    COUNT_PART + (Json.PrintInt(h.tokenCount) + ([Json.COMMA] + VersionOnto(h)))
  }

  function NonceOnto(h: PacketHeader): JsString { NONCE_PART + QuotedOnto(h.packetNonce, [Json.COMMA] + CountOnto(h)) }

  function ContextOnto(h: PacketHeader): JsString { CONTEXT_PART + QuotedOnto(h.context, [Json.COMMA] + NonceOnto(h)) }

  function ModeOnto(h: PacketHeader): JsString { MODE_PART + QuotedOnto(h.bryMode, [Json.COMMA] + ContextOnto(h)) }

  /** json.dumps with sorted keys and no white space. */
  function HeaderText(h: PacketHeader): JsString { ALG_PART + QuotedOnto(h.alg, [Json.COMMA] + ModeOnto(h)) }

  function HeaderBytes(h: PacketHeader): Bytes { TextEncode(HeaderText(h)) }

  lemma SamePrefix(p: JsString, a: JsString, b: JsString)
    requires p + a == p + b
    ensures a == b
  {
    assert (p + a)[|p|..] == a && (p + b)[|p|..] == b;
  }

  lemma SplitQuoted(s: string, a: JsString, t: string, b: JsString)
    requires QuotedOnto(s, a) == QuotedOnto(t, b)
    ensures s == t && a == b
  {
    ReadStringOfAscii(Units(s), a);
    ReadStringOfAscii(Units(t), b);
    UnitsInjective(s, t);
  }

  lemma SplitField(part: JsString, s: string, a: JsString, t: string, b: JsString)
    requires part + QuotedOnto(s, [Json.COMMA] + a) == part + QuotedOnto(t, [Json.COMMA] + b)
    ensures s == t && a == b
  {
    SamePrefix(part, QuotedOnto(s, [Json.COMMA] + a), QuotedOnto(t, [Json.COMMA] + b));
    SplitQuoted(s, [Json.COMMA] + a, t, [Json.COMMA] + b);
    SamePrefix([Json.COMMA], a, b);
  }

  lemma SplitNumber(part: JsString, m: int, a: JsString, n: int, b: JsString)
    requires Delimited(a) && Delimited(b) && part + (Json.PrintInt(m) + a) == part + (Json.PrintInt(n) + b)
    ensures m == n && a == b
  {
    SamePrefix(part, Json.PrintInt(m) + a, Json.PrintInt(n) + b);
    ReadIntOfPrint(m, a);
    ReadIntOfPrint(n, b);
  }

  lemma SplitTail(g: PacketHeader, h: PacketHeader)
    requires CountOnto(g) == CountOnto(h)
    ensures g.tokenCount == h.tokenCount && g.version == h.version
  {
    SplitNumber(COUNT_PART, g.tokenCount, [Json.COMMA] + VersionOnto(g), h.tokenCount, [Json.COMMA] + VersionOnto(h));
    SamePrefix([Json.COMMA], VersionOnto(g), VersionOnto(h));
    SplitNumber(VERSION_PART, g.version, [Json.RBRACE], h.version, [Json.RBRACE]);
  }

  lemma HeaderTextInjective(g: PacketHeader, h: PacketHeader)
    requires HeaderText(g) == HeaderText(h)
    ensures g == h
  {
    hide QuotedOnto;
    SplitField(ALG_PART, g.alg, ModeOnto(g), h.alg, ModeOnto(h));
    SplitField(MODE_PART, g.bryMode, ContextOnto(g), h.bryMode, ContextOnto(h));
    SplitField(CONTEXT_PART, g.context, NonceOnto(g), h.context, NonceOnto(h));
    SplitField(NONCE_PART, g.packetNonce, CountOnto(g), h.packetNonce, CountOnto(h));
    SplitTail(g, h);
  }

  lemma {:induction false} AsciiIsPlain(s: JsString)
    ensures Aad.Plain(Json.AsciiBody(s))
  {
    if s != [] {
      AsciiIsPlain(s[1..]);
    }
  }

  lemma FieldIsPlain(part: JsString, s: string, rest: JsString)
    requires Aad.Plain(part) && Aad.Plain(rest)
    ensures Aad.Plain(part + QuotedOnto(s, [Json.COMMA] + rest))
  {
    AsciiIsPlain(Units(s));
  }

  lemma HeaderIsPlain(h: PacketHeader)
    ensures Aad.Plain(HeaderText(h))
  {
    hide QuotedOnto;
    assert Aad.Plain(VersionOnto(h));
    assert Aad.Plain(CountOnto(h));
    FieldIsPlain(NONCE_PART, h.packetNonce, CountOnto(h));
    FieldIsPlain(CONTEXT_PART, h.context, NonceOnto(h));
    FieldIsPlain(MODE_PART, h.bryMode, ContextOnto(h));
    FieldIsPlain(ALG_PART, h.alg, ModeOnto(h));
  }

  /** The additional data of a packet determines all six header fields. */
  lemma HeaderBytesBind(g: PacketHeader, h: PacketHeader)
    ensures HeaderBytes(g) == HeaderBytes(h) <==> g == h
  {
    hide HeaderText;
    if HeaderBytes(g) == HeaderBytes(h) {
      HeaderIsPlain(g);
      HeaderIsPlain(h);
      Aad.PlainIsWellFormed(HeaderText(g));
      Aad.PlainIsWellFormed(HeaderText(h));
      TextEncodeInjective(HeaderText(g), HeaderText(h));
      HeaderTextInjective(g, h);
    }
  }

  // -------- Sealing and opening --------

  /** ChaCha20-Poly1305: key, nonce, text, additional data. */
  datatype Aead = Aead(seal: (Bytes, Bytes, Bytes, Bytes) -> Bytes, open: (Bytes, Bytes, Bytes, Bytes) -> Option<Bytes>)

  /** BRY-NFET-SX|AEAD|KEY| */
  const KEY_LABEL: Bytes := [66, 82, 89, 45, 78, 70, 69, 84, 45, 83, 88, 124, 65, 69, 65, 68, 124, 75, 69, 89, 124]
  /** BRY-NFET-SX|AEAD|NONCE| */
  const NONCE_LABEL: Bytes := [66, 82, 89, 45, 78, 70, 69, 84, 45, 83, 88, 124, 65, 69, 65, 68, 124, 78, 79, 78, 67, 69, 124]

  function AeadKey(h: Hashes, masterKey: string, context: string): Bytes {
    h.hmac(Utf8(masterKey), KEY_LABEL + Utf8(context))
  }

  ghost function AeadNonce(h: Hashes, key: Bytes, packetNonce: string, context: string): Bytes
    requires DigestsAre32(h)
  {
    h.hmac(key, NONCE_LABEL + Utf8(packetNonce) + BAR + Utf8(context))[..12]
  }

  datatype Packet = Packet(header: PacketHeader, ciphertext: Bytes)

  datatype SealCall = SealCall(key: Bytes, nonce: Bytes, plain: Bytes, aad: Bytes)

  /** The call that seals, or opens, a payload under this header. */
  ghost function CallFor(h: Hashes, masterKey: string, header: PacketHeader, payload: Bytes): SealCall
    requires DigestsAre32(h)
  {
    var key := AeadKey(h, masterKey, header.context);
    SealCall(key, AeadNonce(h, key, header.packetNonce, header.context), payload, HeaderBytes(header))
  }

  function Sealed(a: Aead, q: SealCall): Bytes { a.seal(q.key, q.nonce, q.plain, q.aad) }

  datatype BuildResult = BuildResult(header: PacketHeader, packet: Packet, transformedHuman: string, tokenCount: nat)

  /** The token list of the sealed text: the human form split at its separators, so the
      empty text gives one empty part, which is no token. */
  ghost function Built(h: Hashes, a: Aead, plaintext: string, s: Session, c: Config): Result<BuildResult, PacketError>
    requires DigestsAre32(h)
  {
    match Applied(h, s, c, plaintext)
    case Err(e) => Err(TransformFailed(e))
    case Ok(t) =>
      var tokens := Split(t.transformedHuman);
      match TokensToBytes(tokens)
      case Err(e) => Err(e)
      case Ok(payload) =>
        var header := PacketHeader(SUPPORTED_VERSION, SUPPORTED_ALG, SUPPORTED_MODE, s.context, s.nonce, |tokens|);
        if ValidateHeader(header).Some? then Err(ValidateHeader(header).value)
        else
          var packet := Packet(header, Sealed(a, CallFor(h, s.masterKey, header, payload)));
          Ok(BuildResult(header, packet, t.transformedHuman, |tokens|))
  }

  datatype OpenResult = OpenResult(header: PacketHeader, transformedHuman: string, recoveredPlaintext: string, recoveredHuman: string)

  ghost function Opened(h: Hashes, a: Aead, packet: Packet, masterKey: string, c: Config): Result<OpenResult, PacketError>
    requires DigestsAre32(h)
  {
    var header := packet.header;
    var q := CallFor(h, masterKey, header, []);
    if ValidateHeader(header).Some? then Err(ValidateHeader(header).value)
    else match a.open(q.key, q.nonce, packet.ciphertext, q.aad)
      case None => Err(InvalidTag)
      case Some(payload) => OpenedPayload(h, header, payload, masterKey, c)
  }

  ghost function OpenedPayload(h: Hashes, header: PacketHeader, payload: Bytes, masterKey: string, c: Config)
    : Result<OpenResult, PacketError>
    requires DigestsAre32(h)
  {
    match BytesToTokens(payload)
    case Err(e) => Err(e)
    case Ok(tokens) =>
      if |tokens| != header.tokenCount then Err(TokenCountMismatch)
      else match RenderHuman(tokens)
        case Err(e) => Err(BryFailed(e))
        case Ok(human) =>
          match Reversed(h, Session(masterKey, header.packetNonce, header.context), c, human)
          case Err(e) => Err(TransformFailed(e))
          case Ok(r) => Ok(OpenResult(header, human, r.recoveredPlaintext, r.originalHuman))
  }

  // -------- The source's calls --------

  method BuildPacket(h: Hashes, a: Aead, plaintext: string, s: Session, c: Config)
    returns (r: Result<BuildResult, PacketError>)
    requires DigestsAre32(h)
    ensures r == Built(h, a, plaintext, s, c)
  {
    hide HeaderBytes, Utf8, Applied, Split, TokensToBytes, ValidateHeader;
    var transformed := ApplyTransform(h, s, c, plaintext);
    if transformed.Err? {
      return Err(TransformFailed(transformed.error));
    }
    var tokens := Split(transformed.value.transformedHuman);
    var payload := TokensToBytes(tokens);
    if payload.Err? {
      return Err(payload.error);
    }
    var header := PacketHeader(SUPPORTED_VERSION, SUPPORTED_ALG, SUPPORTED_MODE, s.context, s.nonce, |tokens|);
    var invalid := ValidateHeader(header);
    if invalid.Some? {
      return Err(invalid.value);
    }
    var key := AeadKey(h, s.masterKey, header.context);
    var nonce := h.hmac(key, NONCE_LABEL + Utf8(header.packetNonce) + BAR + Utf8(header.context))[..12];
    var ciphertext := a.seal(key, nonce, payload.value, HeaderBytes(header));
    return Ok(BuildResult(header, Packet(header, ciphertext), transformed.value.transformedHuman, |tokens|));
  }

  method OpenPacket(h: Hashes, a: Aead, packet: Packet, masterKey: string, c: Config)
    returns (r: Result<OpenResult, PacketError>)
    requires DigestsAre32(h)
    ensures r == Opened(h, a, packet, masterKey, c)
  {
    hide HeaderBytes, Utf8, RenderHuman, Reversed, BytesToTokens, ValidateHeader;
    var header := packet.header;
    var invalid := ValidateHeader(header);
    if invalid.Some? {
      return Err(invalid.value);
    }
    var key := AeadKey(h, masterKey, header.context);
    var nonce := h.hmac(key, NONCE_LABEL + Utf8(header.packetNonce) + BAR + Utf8(header.context))[..12];
    var payload := a.open(key, nonce, packet.ciphertext, HeaderBytes(header));
    if payload.None? {
      return Err(InvalidTag);
    }
    var tokens := ReadIdentifiers(payload.value);
    if tokens.Err? {
      return Err(tokens.error);
    }
    if |tokens.value| != header.tokenCount {
      return Err(TokenCountMismatch);
    }
    var human := RenderHuman(tokens.value);
    if human.Err? {
      return Err(BryFailed(human.error));
    }
    var reversed := ReverseTransform(h, Session(masterKey, header.packetNonce, header.context), c, human.value);
    if reversed.Err? {
      return Err(TransformFailed(reversed.error));
    }
    return Ok(OpenResult(header, human.value, reversed.value.recoveredPlaintext, reversed.value.originalHuman));
  }
}
