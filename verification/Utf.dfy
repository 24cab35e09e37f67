/** UTF-16 strings of the JavaScript side, UTF-8 (RFC 3629), and the two text codecs. */
module Utf {
  import opened Prelude

  type Unit = u: int | 0 <= u < 0x10000
  type JsString = seq<Unit>
  type Scalar = c: int | 0 <= c < 0xD800 || 0xE000 <= c < 0x110000

  const REPLACEMENT: Scalar := 0xFFFD
  const BOM: Unit := 0xFEFF

  // -------- UTF-8, one scalar value at a time --------

  function EncodeScalar(c: Scalar): (b: Bytes)
    ensures 1 <= |b| <= 4
  {
    if c < 0x80 then [c]
    else if c < 0x800 then [0xC0 + c / 0x40, 0x80 + c % 0x40]
    else if c < 0x10000 then [0xE0 + c / 0x40 / 0x40, 0x80 + c / 0x40 % 0x40, 0x80 + c % 0x40]
    else [0xF0 + c / 0x40 / 0x40 / 0x40, 0x80 + c / 0x40 / 0x40 % 0x40, 0x80 + c / 0x40 % 0x40, 0x80 + c % 0x40]
  }

  predicate IsTail(b: Byte) { 0x80 <= b < 0xC0 }

  function ScalarOr(n: int, len: nat): Option<(Scalar, nat)> {
    if 0 <= n < 0xD800 || 0xE000 <= n < 0x110000 then Some((n, len)) else None
  }

  /** The six payload bits of a continuation byte. */
  function Low6(b: Byte): int { b as int - 0x80 }

  /** The strict decoder's next scalar value and its length; None is a fatal error. */
  function DecodeFirst(b: Bytes): (r: Option<(Scalar, nat)>)
    ensures r.Some? ==> 1 <= r.value.1 <= |b|
  {
    if b == [] then None
    else
      var lead: int := b[0];
      if lead < 0x80 then Some((lead, 1))
      else if 0xC2 <= lead < 0xE0 then
        if |b| >= 2 && IsTail(b[1]) then ScalarOr((lead - 0xC0) * 0x40 + Low6(b[1]), 2) else None
      else if 0xE0 <= lead < 0xF0 then
        if |b| >= 3 && IsTail(b[1]) && IsTail(b[2]) && (lead == 0xE0 ==> b[1] >= 0xA0) && (lead == 0xED ==> b[1] < 0xA0)
        then ScalarOr(((lead - 0xE0) * 0x40 + Low6(b[1])) * 0x40 + Low6(b[2]), 3)
        else None
      else if 0xF0 <= lead < 0xF5 then
        if |b| >= 4 && IsTail(b[1]) && IsTail(b[2]) && IsTail(b[3])
          && (lead == 0xF0 ==> b[1] >= 0x90) && (lead == 0xF4 ==> b[1] < 0x90)
        then ScalarOr((((lead - 0xF0) * 0x40 + Low6(b[1])) * 0x40 + Low6(b[2])) * 0x40 + Low6(b[3]), 4)
        else None
      else None
  }

  function EncodeAll(cs: seq<Scalar>): Bytes {
    if cs == [] then [] else EncodeScalar(cs[0]) + EncodeAll(cs[1..])
  }

  function DecodeAll(b: Bytes): Option<seq<Scalar>> {
    if b == [] then Some([])
    else match DecodeFirst(b)
      case None => None
      case Some(first) =>
        match DecodeAll(b[first.1..])
        case None => None
        case Some(rest) => Some([first.0] + rest)
  }

  lemma SplitLow6(q: int, t: int)
    requires 0 <= t < 0x40
    ensures (q * 0x40 + t) / 0x40 == q && (q * 0x40 + t) % 0x40 == t
  {
  }

  lemma DecodeFirstOfEncode(c: Scalar, rest: Bytes)
    ensures DecodeFirst(EncodeScalar(c) + rest) == Some((c, |EncodeScalar(c)|))
  {
    var e := EncodeScalar(c);
    var b := e + rest;
    assert forall i :: 0 <= i < |e| ==> b[i] == e[i];
  }

  lemma EncodeOfDecodeFirst(b: Bytes)
    requires DecodeFirst(b).Some?
    ensures EncodeScalar(DecodeFirst(b).value.0) == b[..DecodeFirst(b).value.1]
  {
    var lead: int := b[0];
    if 0xC2 <= lead < 0xE0 {
      SplitLow6(lead - 0xC0, Low6(b[1]));
    } else if 0xE0 <= lead < 0xF0 {
      SplitLow6(lead - 0xE0, Low6(b[1]));
      SplitLow6((lead - 0xE0) * 0x40 + Low6(b[1]), Low6(b[2]));
    } else if 0xF0 <= lead {
      var q := (lead - 0xF0) * 0x40 + Low6(b[1]);
      SplitLow6(lead - 0xF0, Low6(b[1]));
      SplitLow6(q, Low6(b[2]));
      SplitLow6(q * 0x40 + Low6(b[2]), Low6(b[3]));
    }
  }

  lemma {:induction false} DecodeEncodeAll(cs: seq<Scalar>)
    ensures DecodeAll(EncodeAll(cs)) == Some(cs)
  {
    if cs != [] {
      DecodeEncodeAll(cs[1..]);
      DecodeFirstOfEncode(cs[0], EncodeAll(cs[1..]));
      assert EncodeAll(cs)[|EncodeScalar(cs[0])|..] == EncodeAll(cs[1..]);
      assert [cs[0]] + cs[1..] == cs;
    }
  }

  lemma EncodeCons(c: Scalar, rest: seq<Scalar>)
    ensures EncodeAll([c] + rest) == EncodeScalar(c) + EncodeAll(rest)
  {
    assert ([c] + rest)[1..] == rest;
  }

  /** The decoder accepts only the shortest form: what it accepts re-encodes to itself. */
  lemma {:induction false} EncodeDecodeAll(b: Bytes)
    requires DecodeAll(b).Some?
    ensures EncodeAll(DecodeAll(b).value) == b
  {
    if b != [] {
      var first := DecodeFirst(b).value;
      EncodeOfDecodeFirst(b);
      EncodeDecodeAll(b[first.1..]);
      EncodeCons(first.0, DecodeAll(b[first.1..]).value);
      assert b[..first.1] + b[first.1..] == b;
    }
  }

  // -------- UTF-16 --------

  predicate IsHigh(u: Unit) { 0xD800 <= u < 0xDC00 }

  predicate IsLow(u: Unit) { 0xDC00 <= u < 0xE000 }

  predicate StartsPair(s: JsString) { |s| >= 2 && IsHigh(s[0]) && IsLow(s[1]) }

  /** Conversion to scalar values; a lone surrogate becomes U+FFFD. */
  function ToScalars(s: JsString): seq<Scalar> {
    if s == [] then []
    else if StartsPair(s) then
      [0x10000 + (s[0] - 0xD800) * 0x400 + (s[1] - 0xDC00)] + ToScalars(s[2..])
    else if IsHigh(s[0]) || IsLow(s[0]) then [REPLACEMENT] + ToScalars(s[1..])
    else [s[0]] + ToScalars(s[1..])
  }

  function UnitsOf(c: Scalar): JsString {
    if c < 0x10000 then [c] else [0xD800 + (c - 0x10000) / 0x400, 0xDC00 + (c - 0x10000) % 0x400]
  }

  function FromScalars(cs: seq<Scalar>): JsString {
    if cs == [] then [] else UnitsOf(cs[0]) + FromScalars(cs[1..])
  }

  predicate WellFormed(s: JsString) {
    if s == [] then true
    else if StartsPair(s) then WellFormed(s[2..])
    else !IsHigh(s[0]) && !IsLow(s[0]) && WellFormed(s[1..])
  }

  lemma {:induction false} FromToScalars(s: JsString)
    ensures FromScalars(ToScalars(s)) == s <==> WellFormed(s)
    ensures WellFormed(FromScalars(ToScalars(s)))
    ensures |FromScalars(ToScalars(s))| == |s|
  {
    if s != [] {
      var n := if StartsPair(s) then 2 else 1;
      var rest := s[n..];
      FromToScalars(rest);
      var back := FromScalars(ToScalars(s));
      assert ToScalars(s)[1..] == ToScalars(rest);
      assert back[n..] == FromScalars(ToScalars(rest));
      if StartsPair(s) {
        assert back[..2] == s[..2];
      }
      assert back == s <==> back[..n] == s[..n] && back[n..] == s[n..] by {
        assert back == back[..n] + back[n..] && s == s[..n] + s[n..];
      }
    }
  }

  lemma {:induction false} ToFromScalars(cs: seq<Scalar>)
    ensures ToScalars(FromScalars(cs)) == cs
  {
    if cs != [] {
      ToFromScalars(cs[1..]);
      var rest := FromScalars(cs[1..]);
      var s := UnitsOf(cs[0]) + rest;
      if cs[0] < 0x10000 {
        assert s[1..] == rest;
      } else {
        assert s[2..] == rest && StartsPair(s);
      }
      assert cs == [cs[0]] + cs[1..];
    }
  }

  // -------- TextEncoder and TextDecoder --------

  function TextEncode(s: JsString): Bytes { EncodeAll(ToScalars(s)) }

  /** TextDecoder with fatal set: a leading byte order mark is dropped. */
  function TextDecode(b: Bytes): Option<JsString> {
    var body := if [0xEF, 0xBB, 0xBF] <= b then b[3..] else b;
    match DecodeAll(body)
    case None => None
    case Some(cs) => Some(FromScalars(cs))
  }

  function DropBom(s: JsString): JsString {
    if s != [] && s[0] == BOM then s[1..] else s
  }

  lemma EncodeStartsWithBom(cs: seq<Scalar>)
    ensures [0xEF, 0xBB, 0xBF] <= EncodeAll(cs) <==> cs != [] && cs[0] == 0xFEFF
    ensures cs != [] && cs[0] == 0xFEFF ==> EncodeAll(cs)[3..] == EncodeAll(cs[1..])
  {
    var b := EncodeAll(cs);
    if cs != [] {
      DecodeFirstOfEncode(cs[0], EncodeAll(cs[1..]));
      if [0xEF, 0xBB, 0xBF] <= b {
        assert b[0] == 0xEF && b[1] == 0xBB && b[2] == 0xBF;
        assert DecodeFirst(b) == Some((0xFEFF, 3));
      }
      if cs[0] == 0xFEFF {
        assert EncodeScalar(cs[0]) == [0xEF, 0xBB, 0xBF];
      }
    }
  }

  /** The text read back is the well-formed version of the input, less one leading U+FEFF. */
  lemma DecodeOfEncode(s: JsString)
    ensures TextDecode(TextEncode(s)) == Some(DropBom(FromScalars(ToScalars(s))))
    ensures TextDecode(TextEncode(s)) == Some(s) <==> WellFormed(s) && (s == [] || s[0] != BOM)
  {
    var cs := ToScalars(s);
    var w := FromScalars(cs);
    EncodeStartsWithBom(cs);
    FromToScalars(s);
    if cs != [] && cs[0] == 0xFEFF {
      DecodeEncodeAll(cs[1..]);
      assert w[1..] == FromScalars(cs[1..]);
    } else {
      DecodeEncodeAll(cs);
      assert w != [] ==> w[0] != BOM;
    }
  }

  /** TextEncoder is injective on well-formed strings. */
  lemma TextEncodeInjective(s: JsString, t: JsString)
    requires WellFormed(s) && WellFormed(t) && TextEncode(s) == TextEncode(t)
    ensures s == t
  {
    DecodeEncodeAll(ToScalars(s));
    DecodeEncodeAll(ToScalars(t));
    FromToScalars(s);
    FromToScalars(t);
  }

  // -------- Text of the Python side: scalar values only --------

  function CharScalar(c: char): Scalar { c as int }

  function {:induction false} Scalars(s: string): seq<Scalar> {
    seq(|s|, i requires 0 <= i < |s| => CharScalar(s[i]))
  }

  /** str.encode("utf-8"). */
  function Utf8(s: string): Bytes { EncodeAll(Scalars(s)) }

  /** The text as JavaScript or json.dumps sees it, in UTF-16 units. */
  function Units(s: string): JsString { FromScalars(Scalars(s)) }

  lemma ScalarsInjective(s: string, t: string)
    requires Scalars(s) == Scalars(t)
    ensures s == t
  {
    assert |s| == |Scalars(s)| == |t|;
    forall i | 0 <= i < |s| ensures s[i] == t[i] {
      assert Scalars(s)[i] == Scalars(t)[i];
    }
  }

  lemma UnitsInjective(s: string, t: string)
    requires Units(s) == Units(t)
    ensures s == t
  {
    ToFromScalars(Scalars(s));
    ToFromScalars(Scalars(t));
    ScalarsInjective(s, t);
  }
}
