/** Unpadded base64url (section 5 of RFC 4648), as both vault implementations build it. */
module Base64 {
  import opened Prelude
  import opened Utf

  const PAD: Unit := 0x3D
  const PLUS: Unit := 0x2B
  const SLASH: Unit := 0x2F
  const DASH: Unit := 0x2D
  const UNDERSCORE: Unit := 0x5F

  type Sextet = n: int | 0 <= n < 64

  function Symbol(n: Sextet): Unit {
    if n < 26 then 0x41 + n
    else if n < 52 then 0x61 + n - 26
    else if n < 62 then 0x30 + n - 52
    else if n == 62 then PLUS
    else SLASH
  }

  function ValueOf(u: Unit): Option<Sextet> {
    if 0x41 <= u < 0x5B then Some(u - 0x41)
    else if 0x61 <= u < 0x7B then Some(u - 0x61 + 26)
    else if 0x30 <= u < 0x3A then Some(u - 0x30 + 52)
    else if u == PLUS then Some(62)
    else if u == SLASH then Some(63)
    else None
  }

  function ToUrl(u: Unit): Unit { if u == PLUS then DASH else if u == SLASH then UNDERSCORE else u }

  function FromUrl(u: Unit): Unit { if u == DASH then PLUS else if u == UNDERSCORE then SLASH else u }

  function Mapped(f: Unit -> Unit, s: JsString): (r: JsString)
    ensures |r| == |s| && forall i :: 0 <= i < |s| ==> r[i] == f(s[i])
  {
    seq(|s|, i requires 0 <= i < |s| => f(s[i]))
  }

  // -------- Bytes and sextets --------

  /** The sextets of three bytes, and back. */
  function Split3(b0: Byte, b1: Byte, b2: Byte): (Sextet, Sextet, Sextet, Sextet) {
    (b0 / 4, b0 % 4 * 16 + b1 / 16, b1 % 16 * 4 + b2 / 64, b2 % 64)
  }

  function Join4(n0: Sextet, n1: Sextet, n2: Sextet, n3: Sextet): (Byte, Byte, Byte) {
    (n0 * 4 + n1 / 16, n1 % 16 * 16 + n2 / 4, n2 % 4 * 64 + n3)
  }

  function SextetsOf(b: Bytes): (n: seq<Sextet>)
    ensures |n| == (4 * |b| + 2) / 3
  {
    if b == [] then []
    else
      var g := Split3(b[0], if |b| > 1 then b[1] else 0, if |b| > 2 then b[2] else 0);
      if |b| == 1 then [g.0, g.1]
      else if |b| == 2 then [g.0, g.1, g.2]
      else [g.0, g.1, g.2, g.3] + SextetsOf(b[3..])
  }

  /** Whole bytes of a run of sextets; a lone last sextet and unused low bits are dropped. */
  function BytesOf(n: seq<Sextet>): Bytes {
    if |n| < 2 then []
    else
      var g := Join4(n[0], n[1], if |n| > 2 then n[2] else 0, if |n| > 3 then n[3] else 0);
      if |n| == 2 then [g.0]
      else if |n| == 3 then [g.0, g.1]
      else [g.0, g.1, g.2] + BytesOf(n[4..])
  }

  /** No sextet is alone and the bits that no byte uses are zero (section 3.5 of RFC 4648). */
  predicate LeavesNothing(n: seq<Sextet>) {
    if n == [] then true
    else if |n| == 1 then false
    else if |n| == 2 then n[1] % 16 == 0
    else if |n| == 3 then n[2] % 4 == 0
    else LeavesNothing(n[4..])
  }

  /** The two digits of a number in one of the bases used here. */
  lemma Digits(q: int, r: int, base: int)
    requires (base == 4 || base == 16 || base == 64) && 0 <= r < base
    ensures (q * base + r) / base == q && (q * base + r) % base == r
  {
  }

  lemma JoinOfSplit(b0: Byte, b1: Byte, b2: Byte)
    ensures var g := Split3(b0, b1, b2); Join4(g.0, g.1, g.2, g.3) == (b0, b1, b2)
    ensures b1 == b2 == 0 ==> Split3(b0, b1, b2).2 == 0
    ensures b2 == 0 ==> Split3(b0, b1, b2).3 == 0
  {
    Digits(b0 % 4, b1 / 16, 16);
    Digits(b1 % 16, b2 / 64, 4);
  }

  lemma SplitOfJoin(n0: Sextet, n1: Sextet, n2: Sextet, n3: Sextet)
    ensures var g := Join4(n0, n1, n2, n3); Split3(g.0, g.1, g.2) == (n0, n1, n2, n3)
  {
    Digits(n0, n1 / 16, 4);
    Digits(n1 % 16, n2 / 4, 16);
    Digits(n2 % 4, n3, 64);
  }

  lemma SplitOfJoinCut(n0: Sextet, n1: Sextet, n2: Sextet)
    ensures var g := Join4(n0, n1, n2, 0); var h := Split3(g.0, g.1, 0);
      h.0 == n0 && h.1 == n1 && (h.2 == n2 <==> n2 % 4 == 0)
    ensures var g := Join4(n0, n1, 0, 0); var h := Split3(g.0, 0, 0);
      h.0 == n0 && (h.1 == n1 <==> n1 % 16 == 0)
  {
    Digits(n0, n1 / 16, 4);
    Digits(n1 % 16, n2 / 4, 16);
  }

  lemma BytesOfGroup(b0: Byte, b1: Byte, b2: Byte, n0: Sextet, n1: Sextet, n2: Sextet, n3: Sextet, n: seq<Sextet>)
    requires (n0, n1, n2, n3) == Split3(b0, b1, b2)
    ensures BytesOf([n0, n1, n2, n3] + n) == [b0, b1, b2] + BytesOf(n)
  {
    JoinOfSplit(b0, b1, b2);
    assert ([n0, n1, n2, n3] + n)[4..] == n;
  }

  lemma SextetsStep(b: Bytes) returns (n0: Sextet, n1: Sextet, n2: Sextet, n3: Sextet)
    requires |b| >= 3
    ensures (n0, n1, n2, n3) == Split3(b[0], b[1], b[2])
    ensures SextetsOf(b) == [n0, n1, n2, n3] + SextetsOf(b[3..])
  {
    var g := Split3(b[0], b[1], b[2]);
    n0, n1, n2, n3 := g.0, g.1, g.2, g.3;
  }

  lemma BytesOfOne(b0: Byte)
    ensures BytesOf(SextetsOf([b0])) == [b0]
  {
    JoinOfSplit(b0, 0, 0);
  }

  lemma BytesOfTwo(b0: Byte, b1: Byte)
    ensures BytesOf(SextetsOf([b0, b1])) == [b0, b1]
  {
    JoinOfSplit(b0, b1, 0);
  }

  lemma {:induction false} BytesOfSextets(b: Bytes)
    ensures BytesOf(SextetsOf(b)) == b
  {
    if |b| == 1 {
      BytesOfOne(b[0]);
      assert b == [b[0]];
    } else if |b| == 2 {
      BytesOfTwo(b[0], b[1]);
      assert b == [b[0], b[1]];
    } else if |b| >= 3 {
      BytesOfSextets(b[3..]);
      var n0, n1, n2, n3 := SextetsStep(b);
      BytesOfGroup(b[0], b[1], b[2], n0, n1, n2, n3, SextetsOf(b[3..]));
      assert b == [b[0], b[1], b[2]] + b[3..];
    }
  }

  lemma SextetsOfTwo(n0: Sextet, n1: Sextet)
    ensures SextetsOf(BytesOf([n0, n1])) == [n0, n1] <==> n1 % 16 == 0
  {
    SplitOfJoinCut(n0, n1, 0);
    var g := Join4(n0, n1, 0, 0);
    assert BytesOf([n0, n1]) == [g.0];
    var h := Split3(g.0, 0, 0);
    assert SextetsOf([g.0]) == [h.0, h.1];
  }

  lemma SextetsOfThree(n0: Sextet, n1: Sextet, n2: Sextet)
    ensures SextetsOf(BytesOf([n0, n1, n2])) == [n0, n1, n2] <==> n2 % 4 == 0
  {
    SplitOfJoinCut(n0, n1, n2);
    var g := Join4(n0, n1, n2, 0);
    assert BytesOf([n0, n1, n2]) == [g.0, g.1];
    var h := Split3(g.0, g.1, 0);
    assert SextetsOf([g.0, g.1]) == [h.0, h.1, h.2];
  }

  /** Encoding undoes decoding iff nothing was dropped. */
  lemma {:induction false} SextetsOfBytesIff(n: seq<Sextet>)
    ensures SextetsOf(BytesOf(n)) == n <==> LeavesNothing(n)
  {
    hide Split3, Join4;
    if |n| >= 4 {
      SextetsOfBytesIff(n[4..]);
      SextetsOfGroup(n, BytesOf(n[4..]));
    } else if |n| == 2 {
      SextetsOfTwo(n[0], n[1]);
      assert n == [n[0], n[1]];
    } else if |n| == 3 {
      SextetsOfThree(n[0], n[1], n[2]);
      assert n == [n[0], n[1], n[2]];
    }
  }

  lemma SextetsOfGroup(n: seq<Sextet>, rest: Bytes)
    requires |n| >= 4
    ensures var g := Join4(n[0], n[1], n[2], n[3]);
      SextetsOf([g.0, g.1, g.2] + rest) == n <==> SextetsOf(rest) == n[4..]
  {
    var g := Join4(n[0], n[1], n[2], n[3]);
    var b := [g.0, g.1, g.2] + rest;
    SplitOfJoin(n[0], n[1], n[2], n[3]);
    assert b[3..] == rest;
    assert SextetsOf(b) == n[..4] + SextetsOf(rest);
    assert SextetsOf(b)[4..] == SextetsOf(rest) && n == n[..4] + n[4..];
  }

  // -------- Text --------

  function Symbols(n: seq<Sextet>): (s: JsString)
    ensures |s| == |n|
  {
    seq(|n|, i requires 0 <= i < |n| => Symbol(n[i]))
  }

  function Pads(n: nat): JsString { if n == 0 then [] else [PAD] + Pads(n - 1) }

  function PadTo4(s: JsString): JsString {
    if |s| % 4 == 0 then s else s + Pads(4 - |s| % 4)
  }

  /** btoa, and Buffer.toString("base64"): padded, with the standard alphabet. */
  function Btoa(b: Bytes): JsString { PadTo4(Symbols(SextetsOf(b))) }

  function StripPads(s: JsString): (r: JsString)
    ensures |r| <= |s| && r == s[..|r|]
    ensures r != [] ==> r[|r| - 1] != PAD
  {
    if s != [] && s[|s| - 1] == PAD then StripPads(s[..|s| - 1]) else s
  }

  function Encode(b: Bytes): JsString { StripPads(Mapped(ToUrl, Btoa(b))) }

  predicate IsUrlUnit(u: Unit) { ValueOf(FromUrl(u)).Some? && u != PLUS && u != SLASH }

  /** The decoder's pattern: URL symbols, then any number of pads. */
  predicate Matches(s: JsString) {
    forall i :: 0 <= i < |StripPads(s)| ==> IsUrlUnit(s[i])
  }

  /** The symbols up to the first pad. */
  function Payload(s: JsString): (n: seq<Sextet>) {
    if s == [] || ValueOf(s[0]).None? then [] else [ValueOf(s[0]).value] + Payload(s[1..])
  }

  /** The symbols of a text, its padding completed first. */
  function SextetsIn(s: JsString): seq<Sextet> { Payload(PadTo4(Mapped(FromUrl, s))) }

  /** The decoder of the command line: after the pattern, Buffer takes what it can. */
  function Decode(s: JsString): Option<Bytes> {
    if !Matches(s) then None else Some(BytesOf(SextetsIn(s)))
  }

  /** What atob leaves of a text whose length is a multiple of four: at most two pads go. */
  function DropTwoPads(s: JsString): JsString {
    if s == [] || s[|s| - 1] != PAD then s
    else if |s| >= 2 && s[|s| - 2] == PAD then s[..|s| - 2]
    else s[..|s| - 1]
  }

  /** The decoder of the lock page: after the same pattern, atob refuses any pad beyond two. */
  function AtobDecode(s: JsString): Option<Bytes> {
    var rest := DropTwoPads(PadTo4(Mapped(FromUrl, s)));
    if !Matches(s) || PAD in rest then None else Some(BytesOf(Payload(rest)))
  }

  /** The decoder of the vault page: libsodium refuses padding, a lone symbol and unused bits. */
  function StrictDecode(s: JsString): Option<Bytes> {
    if (exists i :: 0 <= i < |s| && !IsUrlUnit(s[i])) || !LeavesNothing(SextetsIn(s)) then None
    else Some(BytesOf(SextetsIn(s)))
  }

  lemma {:induction false} PadsAre(n: nat)
    ensures |Pads(n)| == n && forall i :: 0 <= i < n ==> Pads(n)[i] == PAD
  {
    if n > 0 {
      PadsAre(n - 1);
    }
  }

  lemma {:induction false} StripPadsOf(body: JsString, pads: JsString)
    requires body == [] || body[|body| - 1] != PAD
    requires forall i :: 0 <= i < |pads| ==> pads[i] == PAD
    ensures StripPads(body + pads) == body
  {
    var s := body + pads;
    if pads == [] {
      assert s == body;
    } else {
      assert s[..|s| - 1] == body + pads[..|pads| - 1];
      StripPadsOf(body, pads[..|pads| - 1]);
    }
  }

  lemma {:induction false} PayloadOf(n: seq<Sextet>, pads: JsString)
    requires pads == [] || pads[0] == PAD
    ensures Payload(Symbols(n) + pads) == n
  {
    var s := Symbols(n) + pads;
    if n == [] {
      assert s == pads;
    } else {
      SymbolValue(n[0]);
      assert s[1..] == Symbols(n[1..]) + pads;
      PayloadOf(n[1..], pads);
      assert [n[0]] + n[1..] == n;
    }
  }

  lemma SymbolValue(n: Sextet)
    ensures ValueOf(Symbol(n)) == Some(n) && Symbol(n) != PAD
    ensures IsUrlUnit(ToUrl(Symbol(n))) && FromUrl(ToUrl(Symbol(n))) == Symbol(n)
  {
  }

  lemma ValueSymbol(u: Unit)
    requires IsUrlUnit(u)
    ensures Symbol(ValueOf(FromUrl(u)).value) == FromUrl(u) && ToUrl(FromUrl(u)) == u
  {
  }

  function UrlSymbols(n: seq<Sextet>): JsString { Mapped(ToUrl, Symbols(n)) }

  lemma UrlSymbolsAt(n: seq<Sextet>)
    ensures forall i :: 0 <= i < |n| ==> IsUrlUnit(UrlSymbols(n)[i]) && UrlSymbols(n)[i] != PAD
  {
    forall i | 0 <= i < |n| ensures IsUrlUnit(UrlSymbols(n)[i]) && UrlSymbols(n)[i] != PAD {
      SymbolValue(n[i]);
    }
  }

  /** Encoding is the symbols alone: the padding it adds is taken off again. */
  lemma EncodeIsSymbols(b: Bytes)
    ensures Encode(b) == UrlSymbols(SextetsOf(b))
  {
    var n := SextetsOf(b);
    var s := Symbols(n);
    var pads := if |s| % 4 == 0 then [] else Pads(4 - |s| % 4);
    PadsAre(4 - |s| % 4);
    assert Mapped(ToUrl, Btoa(b)) == UrlSymbols(n) + pads;
    UrlSymbolsAt(n);
    StripPadsOf(UrlSymbols(n), pads);
  }

  lemma SextetsInOf(n: seq<Sextet>, pads: JsString)
    requires forall i :: 0 <= i < |pads| ==> pads[i] == PAD
    ensures SextetsIn(UrlSymbols(n) + pads) == n
  {
    var t := Mapped(FromUrl, UrlSymbols(n) + pads);
    forall i | 0 <= i < |n| ensures t[i] == Symbols(n)[i] {
      SymbolValue(n[i]);
    }
    var more := if |t| % 4 == 0 then [] else Pads(4 - |t| % 4);
    PadsAre(4 - |t| % 4);
    assert PadTo4(t) == Symbols(n) + (pads + more);
    PayloadOf(n, pads + more);
  }

  /** Decoding reads a text of symbols followed by pads as the symbols alone. */
  lemma DecodeSymbols(n: seq<Sextet>, pads: JsString)
    requires forall i :: 0 <= i < |pads| ==> pads[i] == PAD
    ensures Decode(UrlSymbols(n) + pads) == Some(BytesOf(n))
  {
    var s := UrlSymbols(n) + pads;
    UrlSymbolsAt(n);
    StripPadsOf(UrlSymbols(n), pads);
    SextetsInOf(n, pads);
  }

  /** Decoding undoes encoding for every byte string; n bytes give ceil(4n / 3) units. */
  lemma DecodeOfEncode(b: Bytes)
    ensures Decode(Encode(b)) == Some(b)
    ensures |Encode(b)| == (4 * |b| + 2) / 3
    ensures forall i :: 0 <= i < |Encode(b)| ==> IsUrlUnit(Encode(b)[i])
  {
    var n := SextetsOf(b);
    EncodeIsSymbols(b);
    assert UrlSymbols(n) + [] == UrlSymbols(n);
    DecodeSymbols(n, []);
    BytesOfSextets(b);
    UrlSymbolsAt(n);
  }

  /** The sextets a matching text stands for. */
  lemma MatchedSymbols(s: JsString) returns (n: seq<Sextet>, pads: JsString)
    requires Matches(s)
    ensures s == UrlSymbols(n) + pads && StripPads(s) == UrlSymbols(n)
    ensures forall i :: 0 <= i < |pads| ==> pads[i] == PAD
  {
    var body := StripPads(s);
    n := seq(|body|, i requires 0 <= i < |body| => ValueOf(FromUrl(body[i])).value);
    forall i | 0 <= i < |body| ensures UrlSymbols(n)[i] == body[i] {
      ValueSymbol(body[i]);
    }
    pads := s[|body|..];
    StripPadsDrops(s);
    assert s == body + pads && UrlSymbols(n) == body;
  }

  lemma {:induction false} StripPadsDrops(s: JsString)
    ensures forall i :: |StripPads(s)| <= i < |s| ==> s[i] == PAD
  {
    if s != [] && s[|s| - 1] == PAD {
      StripPadsDrops(s[..|s| - 1]);
    }
  }

  lemma UrlSymbolsInjective(m: seq<Sextet>, n: seq<Sextet>)
    requires UrlSymbols(m) == UrlSymbols(n)
    ensures m == n
  {
    assert |m| == |UrlSymbols(m)| == |n|;
    forall i | 0 <= i < |m| ensures m[i] == n[i] {
      SymbolValue(m[i]);
      SymbolValue(n[i]);
      assert UrlSymbols(m)[i] == UrlSymbols(n)[i];
    }
  }

  /** Decoding accepts exactly the matching texts; re-encoding gives such a text back iff it has
      no padding, no lone last symbol and zero trailing bits. */
  lemma ReencodeIff(s: JsString)
    ensures Decode(s).Some? <==> Matches(s)
    ensures Decode(s).Some? ==>
      (Encode(Decode(s).value) == s <==> StripPads(s) == s && LeavesNothing(SextetsIn(s)))
  {
    if Matches(s) {
      var n, pads := MatchedSymbols(s);
      DecodeSymbols(n, pads);
      SextetsInOf(n, pads);
      SextetsOfBytesIff(n);
      var b := Decode(s).value;
      EncodeIsSymbols(b);
      if Encode(b) == s {
        UrlSymbolsAt(SextetsOf(b));
        assert s + [] == s;
        StripPadsOf(s, []);
        UrlSymbolsInjective(SextetsOf(b), n);
      }
    }
  }

  // -------- The three decoders --------

  lemma DropPadsOf(n: seq<Sextet>, pads: JsString)
    requires forall i :: 0 <= i < |pads| ==> pads[i] == PAD
    ensures var rest := DropTwoPads(Symbols(n) + pads);
      (PAD !in rest <==> |pads| <= 2) && (|pads| <= 2 ==> rest == Symbols(n))
  {
    SymbolsHaveNoPad(n);
    DropPadsAfter(Symbols(n), pads);
  }

  lemma DropPadsAfter(body: JsString, pads: JsString)
    requires PAD !in body && forall i :: 0 <= i < |pads| ==> pads[i] == PAD
    ensures |pads| <= 2 ==> DropTwoPads(body + pads) == body
    ensures |pads| > 2 ==> PAD in DropTwoPads(body + pads)
  {
    var s := body + pads;
    if pads == [] {
      assert s == body;
    } else if |pads| == 1 {
      assert s[|s| - 1] == PAD && s[..|s| - 1] == body;
      if body != [] { assert s[|s| - 2] == body[|body| - 1]; }
    } else {
      assert s[|s| - 1] == pads[|pads| - 1] && s[|s| - 2] == pads[|pads| - 2];
      if |pads| == 2 {
        assert s[..|s| - 2] == body;
      } else {
        assert s[..|s| - 2][|body|] == pads[0];
      }
    }
  }

  lemma SymbolsHaveNoPad(n: seq<Sextet>)
    ensures PAD !in Symbols(n)
  {
    forall i | 0 <= i < |n| ensures Symbols(n)[i] != PAD {
      SymbolValue(n[i]);
    }
  }

  lemma PadLength(s: JsString)
    ensures |PadTo4(s)| == if |s| % 4 == 0 then |s| else |s| + 4 - |s| % 4
  {
    PadsAre(4 - |s| % 4);
  }

  /** What atob sees of a matching text. */
  lemma AtobRest(n: seq<Sextet>, pads: JsString)
    requires forall i :: 0 <= i < |pads| ==> pads[i] == PAD
    ensures var s := UrlSymbols(n) + pads; var rest := DropTwoPads(PadTo4(Mapped(FromUrl, s)));
      && (PAD !in rest <==> |PadTo4(s)| <= |n| + 2)
      && (PAD !in rest ==> Payload(rest) == n)
  {
    var s := UrlSymbols(n) + pads;
    MappedBack(n, pads);
    var t := Symbols(n) + pads;
    var more := if |t| % 4 == 0 then [] else Pads(4 - |t| % 4);
    PadsAre(4 - |t| % 4);
    PadLength(s);
    assert PadTo4(t) == Symbols(n) + (pads + more);
    hide Payload, Symbols;
    DropPadsOf(n, pads + more);
    PayloadOf(n, []);
    assert Symbols(n) + [] == Symbols(n);
  }

  /** The lock page accepts a text iff it matches and, completed, ends in at most two pads; then
      it reads what the command line reads. */
  lemma AtobIff(s: JsString)
    ensures AtobDecode(s).Some? <==> Matches(s) && |PadTo4(s)| <= |StripPads(s)| + 2
    ensures AtobDecode(s).Some? ==> AtobDecode(s) == Decode(s)
  {
    if Matches(s) {
      var n, pads := MatchedSymbols(s);
      hide PadTo4, Payload, DropTwoPads, Mapped, StripPads;
      AtobRest(n, pads);
      DecodeSymbols(n, pads);
    }
  }

  lemma MappedBack(n: seq<Sextet>, pads: JsString)
    requires forall i :: 0 <= i < |pads| ==> pads[i] == PAD
    ensures Mapped(FromUrl, UrlSymbols(n) + pads) == Symbols(n) + pads
  {
    forall i | 0 <= i < |n| ensures FromUrl(UrlSymbols(n)[i]) == Symbols(n)[i] {
      SymbolValue(n[i]);
    }
  }

  /** The vault page accepts exactly what encoding emits, and undoes it. */
  lemma StrictIff(s: JsString, b: Bytes)
    ensures StrictDecode(s) == Some(b) <==> s == Encode(b)
  {
    DecodeOfEncode(b);
    if s == Encode(b) {
      var n := SextetsOf(b);
      EncodeIsSymbols(b);
      assert s + [] == s;
      SextetsInOf(n, []);
      BytesOfSextets(b);
      SextetsOfBytesIff(n);
    } else if StrictDecode(s) == Some(b) {
      StripPadsNone(s);
      ReencodeIff(s);
    }
  }

  lemma StripPadsNone(s: JsString)
    requires forall i :: 0 <= i < |s| ==> IsUrlUnit(s[i])
    ensures StripPads(s) == s && Matches(s)
  {
  }

  /** All three decoders undo encoding. */
  lemma AllDecodeEncode(b: Bytes)
    ensures Decode(Encode(b)) == AtobDecode(Encode(b)) == StrictDecode(Encode(b)) == Some(b)
  {
    DecodeOfEncode(b);
    StrictIff(Encode(b), b);
    StripPadsNone(Encode(b));
    SextetsLength(b);
    AtobIff(Encode(b));
  }

  lemma SextetsLength(b: Bytes)
    ensures |PadTo4(Encode(b))| <= |Encode(b)| + 2
  {
    hide Encode;
    DecodeOfEncode(b);
    PadLength(Encode(b));
    ResidueIsNotOne(|b|);
  }

  lemma ResidueIsNotOne(n: nat)
    ensures (4 * n + 2) / 3 % 4 != 1
  {
    var k := n / 3;
    assert n % 3 == 0 ==> (4 * n + 2) / 3 == 4 * k;
    assert n % 3 == 1 ==> (4 * n + 2) / 3 == 4 * k + 2;
    assert n % 3 == 2 ==> (4 * n + 2) / 3 == 4 * k + 3;
  }

  // -------- The browser's loops --------

  /** Copies the bytes one by one before they are encoded. */
  method EncodeArray(bytes: array<Byte>) returns (text: JsString)
    ensures text == Encode(bytes[..])
  {
    var binary: Bytes := [];
    for i := 0 to bytes.Length
      invariant binary == bytes[..i]
    {
      binary := binary + [bytes[i]];
    }
    assert binary == bytes[..];
    text := Encode(binary);
  }

  /** Fills a fresh array with the decoded bytes. */
  method DecodeToArray(value: JsString) returns (out: Option<array<Byte>>)
    ensures out.Some? <==> AtobDecode(value).Some?
    ensures out.Some? ==> fresh(out.value) && out.value[..] == AtobDecode(value).value
  {
    hide AtobDecode;
    var decoded := AtobDecode(value);
    match decoded {
      case None => out := None;
      case Some(binary) =>
        var bytes := new Byte[|binary|];
        for i := 0 to |binary|
          invariant bytes[..i] == binary[..i]
        {
          bytes[i] := binary[i];
        }
        out := Some(bytes);
    }
  }
}
