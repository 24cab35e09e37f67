/** The additional data of a vault: canonical JSON of twelve fields, in UTF-8. */
module Aad {
  import opened Prelude
  import opened Utf
  import opened Json
  import opened JsonTheorems
  import opened Canonical
  import opened CanonicalTheorems

  /** content */
  const K_CONTENT: JsString := [0x63, 0x6F, 0x6E, 0x74, 0x65, 0x6E, 0x74]
  /** created_at */
  const K_CREATED_AT: JsString := [0x63, 0x72, 0x65, 0x61, 0x74, 0x65, 0x64, 0x5F, 0x61, 0x74]
  /** kdf */
  const K_KDF: JsString := [0x6B, 0x64, 0x66]
  /** mode */
  const K_MODE: JsString := [0x6D, 0x6F, 0x64, 0x65]
  /** schema */
  const K_SCHEMA: JsString := [0x73, 0x63, 0x68, 0x65, 0x6D, 0x61]
  /** version */
  const K_VERSION: JsString := [0x76, 0x65, 0x72, 0x73, 0x69, 0x6F, 0x6E]
  /** wrap */
  const K_WRAP: JsString := [0x77, 0x72, 0x61, 0x70]
  /** algorithm */
  const K_ALGORITHM: JsString := [0x61, 0x6C, 0x67, 0x6F, 0x72, 0x69, 0x74, 0x68, 0x6D]
  /** nonce */
  const K_NONCE: JsString := [0x6E, 0x6F, 0x6E, 0x63, 0x65]
  /** memlimit */
  const K_MEMLIMIT: JsString := [0x6D, 0x65, 0x6D, 0x6C, 0x69, 0x6D, 0x69, 0x74]
  /** opslimit */
  const K_OPSLIMIT: JsString := [0x6F, 0x70, 0x73, 0x6C, 0x69, 0x6D, 0x69, 0x74]
  /** salt */
  const K_SALT: JsString := [0x73, 0x61, 0x6C, 0x74]
  /** wrapped_key */
  const K_WRAPPED_KEY: JsString := [0x77, 0x72, 0x61, 0x70, 0x70, 0x65, 0x64, 0x5F, 0x6B, 0x65, 0x79]
  /** ciphertext */
  const K_CIPHERTEXT: JsString := [0x63, 0x69, 0x70, 0x68, 0x65, 0x72, 0x74, 0x65, 0x78, 0x74]

  /** The twelve fields that both seals of a vault bind. */
  datatype Header = Header(
    contentAlgorithm: JsString, contentNonce: JsString, createdAt: JsString,
    kdfAlgorithm: JsString, memlimit: int, opslimit: int, salt: JsString,
    mode: JsString, schema: JsString, version: JsString,
    wrapAlgorithm: JsString, wrapNonce: JsString)

  /** The object with these keys and values, in this order. */
  function Record(keys: seq<JsString>, values: seq<Value>): Value
    requires |keys| == |values|
  {
    Obj(seq(|keys|, i requires 0 <= i < |keys| => (keys[i], values[i])))
  }

  const PAIR_KEYS: seq<JsString> := [K_ALGORITHM, K_NONCE]
  const KDF_KEYS: seq<JsString> := [K_ALGORITHM, K_MEMLIMIT, K_OPSLIMIT, K_SALT]
  const AAD_KEYS: seq<JsString> := [K_CONTENT, K_CREATED_AT, K_KDF, K_MODE, K_SCHEMA, K_VERSION, K_WRAP]

  function PairPart(algorithm: JsString, nonce: JsString): Value {
    Record(PAIR_KEYS, [Str(algorithm), Str(nonce)])
  }

  function KdfValues(h: Header): (vs: seq<Value>)
    ensures |vs| == 4
  {
    [Str(h.kdfAlgorithm), Num(h.memlimit), Num(h.opslimit), Str(h.salt)]
  }

  function AadValues(h: Header): (vs: seq<Value>)
    ensures |vs| == 7
  {
    [PairPart(h.contentAlgorithm, h.contentNonce), Str(h.createdAt), Record(KDF_KEYS, KdfValues(h)),
     Str(h.mode), Str(h.schema), Str(h.version), PairPart(h.wrapAlgorithm, h.wrapNonce)]
  }

  function AadValue(h: Header): Value { Record(AAD_KEYS, AadValues(h)) }

  function BuildAAD(h: Header): Bytes { TextEncode(CanonicalJSON(AadValue(h))) }

  // -------- Printed text has no lone surrogate --------

  lemma {:induction false} WellFormedConcat(a: JsString, b: JsString)
    requires WellFormed(a) && WellFormed(b)
    ensures WellFormed(a + b)
    decreases |a|
  {
    if a == [] {
      assert a + b == b;
    } else if StartsPair(a) {
      WellFormedConcat(a[2..], b);
      assert (a + b)[2..] == a[2..] + b;
    } else {
      WellFormedConcat(a[1..], b);
      assert (a + b)[1..] == a[1..] + b;
    }
  }

  predicate Plain(s: JsString) { forall i :: 0 <= i < |s| ==> s[i] < 0xD800 }

  lemma {:induction false} PlainIsWellFormed(s: JsString)
    requires Plain(s)
    ensures WellFormed(s)
  {
    if s != [] {
      PlainIsWellFormed(s[1..]);
    }
  }

  lemma PlainOnto(a: JsString, rest: JsString)
    requires Plain(a) && WellFormed(rest)
    ensures WellFormed(a + rest)
  {
    PlainIsWellFormed(a);
    WellFormedConcat(a, rest);
  }

  lemma EscapeIsWellFormed(u: Unit, literal: bool)
    requires literal ==> !IsHigh(u) && !IsLow(u)
    ensures WellFormed(EscapeUnit(u, literal))
  {
    var e := EscapeUnit(u, literal);
    if |e| > 1 {
      assert Plain(e);
      PlainIsWellFormed(e);
    } else {
      assert e[1..] == [];
    }
  }

  /** Quoting escapes every lone surrogate. */
  lemma {:induction false} QuoteIsWellFormed(s: JsString)
    ensures WellFormed(QuoteBody(s))
    decreases |s|
  {
    if s == [] {
    } else if StartsPair(s) {
      QuoteIsWellFormed(s[2..]);
      assert s[..2][2..] == [];
      WellFormedConcat(s[..2], QuoteBody(s[2..]));
    } else {
      var literal := !IsHigh(s[0]) && !IsLow(s[0]);
      QuoteIsWellFormed(s[1..]);
      EscapeIsWellFormed(s[0], literal);
      WellFormedConcat(EscapeUnit(s[0], literal), QuoteBody(s[1..]));
    }
  }

  lemma QuoteOntoWellFormed(s: JsString, rest: JsString)
    requires WellFormed(rest)
    ensures WellFormed(QuoteOnto(s, rest))
  {
    PlainOnto([QUOTE], rest);
    QuoteIsWellFormed(s);
    WellFormedConcat(QuoteBody(s), [QUOTE] + rest);
    PlainOnto([QUOTE], QuoteBody(s) + ([QUOTE] + rest));
  }

  lemma BreakOnto(style: Style, depth: nat, rest: JsString)
    requires WellFormed(rest)
    ensures WellFormed(Break(style, depth) + rest) && WellFormed(AfterColon(style) + rest)
  {
    BreakIsWhite(style, depth);
    PlainOnto(Break(style, depth), rest);
    PlainOnto(AfterColon(style), rest);
  }

  lemma LeafWellFormed(v: Value, style: Style, depth: nat, rest: JsString)
    requires WellFormed(rest) && !v.Arr? && !v.Obj?
    ensures WellFormed(PrintOnto(v, style, depth, rest))
  {
    match v
    case Str(s) => QuoteOntoWellFormed(s, rest);
    case Num(n) => PlainOnto(PrintInt(n), rest);
    case Bool(b) => PlainOnto(if b then TRUE_WORD else FALSE_WORD, rest);
    case Null => PlainOnto(NULL_WORD, rest);
  }

  lemma {:induction false} PrintWellFormed(v: Value, style: Style, depth: nat, rest: JsString)
    requires WellFormed(rest)
    ensures WellFormed(PrintOnto(v, style, depth, rest))
    decreases v, 1
  {
    match v
    case Arr(items) =>
      PlainOnto([RBRACKET], rest);
      if items == [] {
        PlainOnto([LBRACKET], [RBRACKET] + rest);
      } else {
        BreakOnto(style, depth, [RBRACKET] + rest);
        var inner := ItemsOnto(items, style, depth + 1, Break(style, depth) + ([RBRACKET] + rest));
        ItemsWellFormed(items, style, depth + 1, Break(style, depth) + ([RBRACKET] + rest));
        BreakOnto(style, depth + 1, inner);
        PlainOnto([LBRACKET], Break(style, depth + 1) + inner);
      }
    case Obj(ms) =>
      PlainOnto([RBRACE], rest);
      if ms == [] {
        PlainOnto([LBRACE], [RBRACE] + rest);
      } else {
        BreakOnto(style, depth, [RBRACE] + rest);
        var inner := MembersOnto(ms, style, depth + 1, Break(style, depth) + ([RBRACE] + rest));
        MembersWellFormed(ms, style, depth + 1, Break(style, depth) + ([RBRACE] + rest));
        BreakOnto(style, depth + 1, inner);
        PlainOnto([LBRACE], Break(style, depth + 1) + inner);
      }
    case _ => LeafWellFormed(v, style, depth, rest);
  }

  lemma CommaOnto(style: Style, depth: nat, rest: JsString)
    requires WellFormed(rest)
    ensures WellFormed([COMMA] + (Break(style, depth) + rest))
  {
    BreakOnto(style, depth, rest);
    PlainOnto([COMMA], Break(style, depth) + rest);
  }

  lemma {:induction false} ItemsWellFormed(items: seq<Value>, style: Style, depth: nat, rest: JsString)
    requires items != [] && WellFormed(rest)
    ensures WellFormed(ItemsOnto(items, style, depth, rest))
    decreases items, 0
  {
    if |items| == 1 {
      PrintWellFormed(items[0], style, depth, rest);
    } else {
      ItemsWellFormed(items[1..], style, depth, rest);
      var tail := ItemsOnto(items[1..], style, depth, rest);
      CommaOnto(style, depth, tail);
      PrintWellFormed(items[0], style, depth, [COMMA] + (Break(style, depth) + tail));
    }
  }

  lemma {:induction false} MembersWellFormed(ms: seq<(JsString, Value)>, style: Style, depth: nat, rest: JsString)
    requires ms != [] && WellFormed(rest)
    ensures WellFormed(MembersOnto(ms, style, depth, rest))
    decreases ms, 0
  {
    if |ms| == 1 {
      MemberWellFormed(ms[0], style, depth, rest);
    } else {
      MembersWellFormed(ms[1..], style, depth, rest);
      var tail := MembersOnto(ms[1..], style, depth, rest);
      CommaOnto(style, depth, tail);
      MemberWellFormed(ms[0], style, depth, [COMMA] + (Break(style, depth) + tail));
    }
  }

  lemma {:induction false} MemberWellFormed(m: (JsString, Value), style: Style, depth: nat, rest: JsString)
    requires WellFormed(rest)
    ensures WellFormed(MemberOnto(m, style, depth, rest))
    decreases m, 2
  {
    PrintWellFormed(m.1, style, depth, rest);
    var text := PrintOnto(m.1, style, depth, rest);
    BreakOnto(style, depth, text);
    PlainOnto([COLON], AfterColon(style) + text);
    QuoteOntoWellFormed(m.0, [COLON] + (AfterColon(style) + text));
  }

  /** The bytes of a canonical text determine the text: it has no lone surrogate. */
  lemma CanonicalBytesIff(v: Value, w: Value)
    requires Proper(v) && Proper(w)
    ensures TextEncode(CanonicalJSON(v)) == TextEncode(CanonicalJSON(w)) <==> Same(v, w)
  {
    CanonicalIff(v, w);
    CanonicalIsPrint(v, 0, []);
    CanonicalIsPrint(w, 0, []);
    assert CanonicalJSON(v) + [] == CanonicalJSON(v) && CanonicalJSON(w) + [] == CanonicalJSON(w);
    PrintWellFormed(Norm(v), Compact, 0, []);
    PrintWellFormed(Norm(w), Compact, 0, []);
    if TextEncode(CanonicalJSON(v)) == TextEncode(CanonicalJSON(w)) {
      TextEncodeInjective(CanonicalJSON(v), CanonicalJSON(w));
    }
  }

  // -------- Equal bytes, equal fields --------

  predicate Distinct(keys: seq<JsString>) {
    forall i, j :: 0 <= i < j < |keys| ==> keys[i] != keys[j]
  }

  lemma KeysDiffer()
    ensures Distinct(PAIR_KEYS) && Distinct(KDF_KEYS) && Distinct(AAD_KEYS)
  {
    forall i, j | 0 <= i < j < 7 ensures AAD_KEYS[i] != AAD_KEYS[j] {
      assert |AAD_KEYS[i]| != |AAD_KEYS[j]| || AAD_KEYS[i][0] != AAD_KEYS[j][0];
    }
    forall i, j | 0 <= i < j < 4 ensures KDF_KEYS[i] != KDF_KEYS[j] {
      assert |KDF_KEYS[i]| != |KDF_KEYS[j]| || KDF_KEYS[i][0] != KDF_KEYS[j][0];
    }
    assert |K_ALGORITHM| != |K_NONCE|;
  }

  lemma RecordIsProper(keys: seq<JsString>, values: seq<Value>)
    requires |keys| == |values| && Distinct(keys) && forall i :: 0 <= i < |values| ==> Proper(values[i])
    ensures Proper(Record(keys, values))
  {
  }

  lemma AadIsProper(h: Header)
    ensures Proper(AadValue(h))
  {
    KeysDiffer();
    RecordIsProper(PAIR_KEYS, [Str(h.contentAlgorithm), Str(h.contentNonce)]);
    RecordIsProper(PAIR_KEYS, [Str(h.wrapAlgorithm), Str(h.wrapNonce)]);
    RecordIsProper(KDF_KEYS, KdfValues(h));
    RecordIsProper(AAD_KEYS, AadValues(h));
  }

  lemma CoveredAligned(p: seq<(JsString, Value)>, q: seq<(JsString, Value)>, i: nat)
    requires |p| == |q| && i < |p| && Covered(p, q)
    requires forall j :: 0 <= j < |q| && q[j].0 == p[i].0 ==> j == i
    ensures Same(p[i].1, q[i].1)
  {
    var j :| 0 <= j < |q| && SameMember(p[i], q[j]);
  }

  /** Objects with the same keys in the same order are the same only value by value. */
  lemma SameAligned(keys: seq<JsString>, a: seq<Value>, b: seq<Value>, i: nat)
    requires |a| == |b| == |keys| && Distinct(keys) && i < |a|
    requires Same(Record(keys, a), Record(keys, b))
    ensures Same(a[i], b[i])
  {
    CoveredAligned(Record(keys, a).members, Record(keys, b).members, i);
  }

  lemma SameLeaf(v: Value, w: Value)
    requires Same(v, w) && !v.Arr? && !v.Obj?
    ensures v == w
  {
  }

  lemma AlignedLeaf(keys: seq<JsString>, a: seq<Value>, b: seq<Value>, i: nat)
    requires |a| == |b| == |keys| && Distinct(keys) && i < |a|
    requires Same(Record(keys, a), Record(keys, b)) && !a[i].Arr? && !a[i].Obj?
    ensures a[i] == b[i]
  {
    SameAligned(keys, a, b, i);
    SameLeaf(a[i], b[i]);
  }

  lemma AlignedPair(n: JsString, c: JsString, n': JsString, c': JsString)
    requires Same(PairPart(n, c), PairPart(n', c'))
    ensures n == n' && c == c'
  {
    KeysDiffer();
    AlignedLeaf(PAIR_KEYS, [Str(n), Str(c)], [Str(n'), Str(c')], 0);
    AlignedLeaf(PAIR_KEYS, [Str(n), Str(c)], [Str(n'), Str(c')], 1);
  }

  lemma AlignedKdf(g: Header, h: Header)
    requires Same(Record(KDF_KEYS, KdfValues(g)), Record(KDF_KEYS, KdfValues(h)))
    ensures g.kdfAlgorithm == h.kdfAlgorithm && g.memlimit == h.memlimit
    ensures g.opslimit == h.opslimit && g.salt == h.salt
  {
    KeysDiffer();
    forall i | 0 <= i < 4 ensures KdfValues(g)[i] == KdfValues(h)[i] {
      AlignedLeaf(KDF_KEYS, KdfValues(g), KdfValues(h), i);
    }
    assert KdfValues(g) == KdfValues(h);
  }

  lemma AlignedAad(g: Header, h: Header)
    requires Same(AadValue(g), AadValue(h))
    ensures forall i :: 0 <= i < 7 ==> Same(AadValues(g)[i], AadValues(h)[i])
    ensures forall i :: i in [1, 3, 4, 5] ==> AadValues(g)[i] == AadValues(h)[i]
  {
    KeysDiffer();
    forall i | 0 <= i < 7 ensures Same(AadValues(g)[i], AadValues(h)[i]) {
      SameAligned(AAD_KEYS, AadValues(g), AadValues(h), i);
    }
    forall i | i in [1, 3, 4, 5] ensures AadValues(g)[i] == AadValues(h)[i] {
      AlignedLeaf(AAD_KEYS, AadValues(g), AadValues(h), i);
    }
  }

  lemma AadFields(g: Header, h: Header)
    requires Same(AadValue(g), AadValue(h))
    ensures g == h
  {
    AlignedAad(g, h);
    var a, b := AadValues(g), AadValues(h);
    assert Same(a[0], b[0]) && Same(a[2], b[2]) && Same(a[6], b[6]);
    assert a[1] == b[1] && a[3] == b[3] && a[4] == b[4] && a[5] == b[5];
    AlignedPair(g.contentAlgorithm, g.contentNonce, h.contentAlgorithm, h.contentNonce);
    AlignedPair(g.wrapAlgorithm, g.wrapNonce, h.wrapAlgorithm, h.wrapNonce);
    AlignedKdf(g, h);
  }

  /** Two vaults have the same additional data iff all twelve bound fields are equal. */
  lemma AadBinds(g: Header, h: Header)
    ensures BuildAAD(g) == BuildAAD(h) <==> g == h
  {
    if BuildAAD(g) == BuildAAD(h) {
      AadIsProper(g);
      AadIsProper(h);
      CanonicalBytesIff(AadValue(g), AadValue(h));
      AadFields(g, h);
    }
  }
}
