/** The additional data of a packet, read back as JSON, and the headers that are accepted. */
module PacketHeaders {
  import opened Prelude
  import opened Utf
  import opened Json
  import opened JsonTheorems
  import opened Escapes
  import opened Packet

  const ALG: JsString := [0x61, 0x6c, 0x67]
  const BRY_MODE: JsString := [0x62, 0x72, 0x79, 0x5f, 0x6d, 0x6f, 0x64, 0x65]
  const CONTEXT: JsString := [0x63, 0x6f, 0x6e, 0x74, 0x65, 0x78, 0x74]
  const PACKET_NONCE: JsString := [0x70, 0x61, 0x63, 0x6b, 0x65, 0x74, 0x5f, 0x6e, 0x6f, 0x6e, 0x63, 0x65]
  const TOKEN_COUNT: JsString := [0x74, 0x6f, 0x6b, 0x65, 0x6e, 0x5f, 0x63, 0x6f, 0x75, 0x6e, 0x74]
  const VERSION: JsString := [0x76, 0x65, 0x72, 0x73, 0x69, 0x6f, 0x6e]

  function Members(h: PacketHeader): seq<(JsString, Value)> {
    [(ALG, Str(Units(h.alg))), (BRY_MODE, Str(Units(h.bryMode))), (CONTEXT, Str(Units(h.context))),
     (PACKET_NONCE, Str(Units(h.packetNonce))), (TOKEN_COUNT, Num(h.tokenCount)), (VERSION, Num(h.version))]
  }

  predicate PlainKey(key: JsString) { forall i :: 0 <= i < |key| ==> Literal(key[i]) }

  lemma KeyText(key: JsString, t: JsString)
    requires PlainKey(key)
    ensures [QUOTE] + key + [QUOTE, COLON] + t == QuoteOnto(key, [COLON] + ([] + t))
  {
    LiteralPrints(key);
    assert [] + t == t;
    assert [QUOTE, COLON] + t == [QUOTE] + ([COLON] + t);
    assert [QUOTE] + key + [QUOTE, COLON] + t == [QUOTE] + (key + ([QUOTE, COLON] + t));
  }

  lemma ReadAscii(s: string, rest: JsString)
    ensures ReadValue([QUOTE] + QuotedOnto(s, rest)) == Some((Str(Units(s)), rest))
  {
    ReadStringOfAscii(Units(s), rest);
    hide ReadItems, ReadMembers, ReadInt, ReadString, AsciiBody, Units;
    assert ([QUOTE] + QuotedOnto(s, rest))[1..] == QuotedOnto(s, rest);
  }

  lemma ReadText(key: JsString, part: JsString, s: string, rest: JsString)
    requires PlainKey(key) && part == [QUOTE] + key + [QUOTE, COLON] + [QUOTE]
    ensures ReadMember(part + QuotedOnto(s, rest)) == Some(((key, Str(Units(s))), rest))
  {
    hide ReadMember, ReadValue, QuotedOnto, QuoteOnto, PlainKey, Units;
    var t := [QUOTE] + QuotedOnto(s, rest);
    ReadAscii(s, rest);
    KeyText(key, t);
    ReadKeyed(key, [], t, Str(Units(s)), rest);
    assert part + QuotedOnto(s, rest) == [QUOTE] + key + [QUOTE, COLON] + t;
  }

  lemma ReadNum(key: JsString, part: JsString, n: int, rest: JsString)
    requires PlainKey(key) && part == [QUOTE] + key + [QUOTE, COLON] && Delimited(rest)
    ensures ReadMember(part + (PrintInt(n) + rest)) == Some(((key, Num(n)), rest))
  {
    hide ReadMember, ReadValue, QuoteOnto, PlainKey, PrintInt;
    var t := PrintInt(n) + rest;
    ReadNumber(n, rest);
    KeyText(key, t);
    ReadKeyed(key, [], t, Num(n), rest);
  }

  lemma ReadVersion(h: PacketHeader)
    ensures ReadMembers(VersionOnto(h)) == Some((Members(h)[5..], []))
  {
    ReadNum(VERSION, VERSION_PART, h.version, [RBRACE]);
    assert [RBRACE] == [] + ([RBRACE] + []);
    hide ReadMember;
    ReadLastMember(VersionOnto(h), (VERSION, Num(h.version)), [], []);
    assert Members(h)[5..] == [(VERSION, Num(h.version))];
  }

  lemma Next(t: JsString, m: (JsString, Value), u: JsString, ms: seq<(JsString, Value)>)
    requires ReadMember(t) == Some((m, [COMMA] + u)) && ReadMembers(u) == Some((ms, []))
    ensures ReadMembers(t) == Some(([m] + ms, []))
  {
    hide ReadMember, ReadMembers;
    assert [COMMA] + u == [COMMA] + ([] + u);
    ReadNextMember(t, m, [], u, ms, []);
  }

  lemma ReadCount(h: PacketHeader)
    ensures ReadMembers(CountOnto(h)) == Some((Members(h)[4..], []))
  {
    ReadVersion(h);
    ReadNum(TOKEN_COUNT, COUNT_PART, h.tokenCount, [COMMA] + VersionOnto(h));
    hide ReadMember, ReadMembers, VersionOnto;
    Next(CountOnto(h), (TOKEN_COUNT, Num(h.tokenCount)), VersionOnto(h), Members(h)[5..]);
    assert Members(h)[4..] == [Members(h)[4]] + Members(h)[5..];
  }

  /** One more text member in front of those already read. */
  lemma ReadField(key: JsString, part: JsString, s: string, rest: JsString, ms: seq<(JsString, Value)>)
    requires PlainKey(key) && part == [QUOTE] + key + [QUOTE, COLON] + [QUOTE] && ReadMembers(rest) == Some((ms, []))
    ensures ReadMembers(part + QuotedOnto(s, [COMMA] + rest)) == Some(([(key, Str(Units(s)))] + ms, []))
  {
    hide ReadMember, ReadMembers, QuotedOnto, PlainKey, Units;
    ReadText(key, part, s, [COMMA] + rest);
    Next(part + QuotedOnto(s, [COMMA] + rest), (key, Str(Units(s))), rest, ms);
  }

  lemma PartsAre()
    ensures PlainKey(ALG) && PlainKey(BRY_MODE) && PlainKey(CONTEXT) && PlainKey(PACKET_NONCE)
    ensures ALG_PART == [LBRACE] + ([QUOTE] + ALG + [QUOTE, COLON] + [QUOTE])
    ensures MODE_PART == [QUOTE] + BRY_MODE + [QUOTE, COLON] + [QUOTE]
    ensures CONTEXT_PART == [QUOTE] + CONTEXT + [QUOTE, COLON] + [QUOTE]
    ensures NONCE_PART == [QUOTE] + PACKET_NONCE + [QUOTE, COLON] + [QUOTE]
  {
  }

  lemma Tails(ms: seq<(JsString, Value)>)
    requires |ms| == 6
    ensures ms[0..] == ms && forall i :: 0 <= i < 6 ==> ms[i..] == [ms[i]] + ms[i + 1..]
  {
  }

  /** Parsing the additional data gives the header's six fields, each under its own key. */
  lemma HeaderReadsBack(h: PacketHeader)
    ensures Parse(HeaderText(h)) == Some(Obj(Members(h)))
  {
    ReadCount(h);
    PartsAre();
    KeysDiffer(h);
    Tails(Members(h));
    HeaderParts(h);
    hide *;
    ReadField(PACKET_NONCE, NONCE_PART, h.packetNonce, CountOnto(h), Members(h)[4..]);
    ReadField(CONTEXT, CONTEXT_PART, h.context, NonceOnto(h), Members(h)[3..]);
    ReadField(BRY_MODE, MODE_PART, h.bryMode, ContextOnto(h), Members(h)[2..]);
    var part := [QUOTE] + ALG + [QUOTE, COLON] + [QUOTE];
    ReadField(ALG, part, h.alg, ModeOnto(h), Members(h)[1..]);
    ReadWhole(h, part + QuotedOnto(h.alg, [COMMA] + ModeOnto(h)));
  }

  lemma HeaderParts(h: PacketHeader)
    ensures NonceOnto(h) == NONCE_PART + QuotedOnto(h.packetNonce, [COMMA] + CountOnto(h))
    ensures ContextOnto(h) == CONTEXT_PART + QuotedOnto(h.context, [COMMA] + NonceOnto(h))
    ensures ModeOnto(h) == MODE_PART + QuotedOnto(h.bryMode, [COMMA] + ContextOnto(h))
    ensures HeaderText(h) ==
      [LBRACE] + ([] + ([QUOTE] + ALG + [QUOTE, COLON] + [QUOTE] + QuotedOnto(h.alg, [COMMA] + ModeOnto(h))))
    ensures Members(h)[0] == (ALG, Str(Units(h.alg))) && Members(h)[1] == (BRY_MODE, Str(Units(h.bryMode)))
    ensures Members(h)[2] == (CONTEXT, Str(Units(h.context))) && Members(h)[3] == (PACKET_NONCE, Str(Units(h.packetNonce)))
  {
    PartsAre();
    hide QuotedOnto, Units, PlainKey;
    var q := QuotedOnto(h.alg, [COMMA] + ModeOnto(h));
    var part := [QUOTE] + ALG + [QUOTE, COLON] + [QUOTE];
    assert [] + (part + q) == part + q;
    assert [LBRACE] + part + q == [LBRACE] + (part + q);
  }

  lemma ReadWhole(h: PacketHeader, t: JsString)
    requires HeaderText(h) == [LBRACE] + ([] + t) && ReadMembers(t) == Some((Members(h), []))
    requires t != [] && t[0] == QUOTE && DistinctKeys(Members(h))
    ensures Parse(HeaderText(h)) == Some(Obj(Members(h)))
  {
    hide ReadMembers, Members, HeaderText;
    ReadObject([], t, Members(h), []);
  }

  lemma KeysDiffer(h: PacketHeader)
    ensures DistinctKeys(Members(h))
  {
    var ms := Members(h);
    forall i, j | 0 <= i < j < 6 ensures ms[i].0 != ms[j].0 {
      assert |ms[i].0| != |ms[j].0| || ms[i].0[0] != ms[j].0[0];
    }
  }

  /** A header is accepted iff it names the one version, algorithm and mode, its context and nonce are
      not empty, and it counts at least one token. */
  lemma AcceptedIff(h: PacketHeader)
    ensures ValidateHeader(h).None? <==>
      && h.version == 1 && h.alg == "ChaCha20-Poly1305" && h.bryMode == "token_ids_v1"
      && |h.context| > 0 && |h.packetNonce| > 0 && h.tokenCount >= 1
  {
  }
}
