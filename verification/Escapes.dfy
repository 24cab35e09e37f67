/** Which of the many JSON texts of a value the printers choose. */
module Escapes {
  import opened Prelude
  import opened Utf
  import opened Json

  /** A unit that needs no escape. */
  predicate Literal(u: Unit) { (0x20 <= u < 0xD800 || 0xE000 <= u) && u != QUOTE && u != BACKSLASH }

  /** Such text prints as itself between quotes. */
  lemma {:induction false} LiteralPrints(s: JsString)
    requires forall i :: 0 <= i < |s| ==> Literal(s[i])
    ensures QuoteBody(s) == s && Print(Str(s), Compact) == [QUOTE] + s + [QUOTE]
  {
    if s != [] {
      LiteralPrints(s[1..]);
      assert [s[0]] + s[1..] == s;
    }
    assert [QUOTE] + (s + ([QUOTE] + [])) == [QUOTE] + s + [QUOTE];
  }

  predicate LowerHex(u: Unit) { 0x30 <= u <= 0x39 || 0x61 <= u <= 0x66 }

  /** Any other unit prints as the shortest escape that reads back as it: two units for the quote, the
      backslash and the five controls that have one, and else six with lower-case digits. */
  lemma EscapeIsShortest(u: Unit, literal: bool)
    requires !(Literal(u) && literal) && (IsHigh(u) || IsLow(u) ==> !literal)
    ensures var e := EscapeUnit(u, literal);
      && |e| == (if u in {0x22, 0x5C, 0x08, 0x09, 0x0A, 0x0C, 0x0D} then 2 else 6)
      && e[0] == BACKSLASH && ReadUnit(e) == Some((u, []))
      && (|e| == 6 ==> e[1] == 0x75 && forall i :: 2 <= i < 6 ==> LowerHex(e[i]))
  {
    if ShortEscape(u).None? {
      HexReads(u);
    } else {
      assert EscapeUnit(u, literal)[2..] == [];
    }
  }

  lemma HexReads(u: Unit)
    ensures var e := HexEscape(u); ReadUnit(e) == Some((u, [])) && forall i :: 2 <= i < 6 ==> LowerHex(e[i])
  {
    var e := HexEscape(u);
    DigitReads(u / 16 / 16 / 16);
    DigitReads(u / 16 / 16 % 16);
    DigitReads(u / 16 % 16);
    DigitReads(u % 16);
    hide HexDigit, HexValue, LowerHex;
    var d := e[2..6];
    assert d[0] == e[2] && d[1] == e[3] && d[2] == e[4] && d[3] == e[5] && e[6..] == [];
    HexBack(u);
  }

  lemma DigitReads(n: int)
    requires 0 <= n < 16
    ensures HexValue(HexDigit(n)) == Some(n) && LowerHex(HexDigit(n))
  {
  }

  lemma HexBack(u: Unit)
    ensures ((u / 16 / 16 / 16 * 16 + u / 16 / 16 % 16) * 16 + u / 16 % 16) * 16 + u % 16 == u
  {
  }

  /** The compact print has no white space outside strings; the indented one breaks lines with two spaces
      for each level and puts one space after a colon. */
  lemma {:induction false} BreakIs(depth: nat)
    ensures Break(Compact, depth) == [] && AfterColon(Compact) == [] && AfterColon(Pretty) == [0x20]
    ensures Break(Pretty, depth) == [0x0A] + seq(2 * depth, i => 0x20)
  {
    SpacesAre(2 * depth);
  }

  lemma {:induction false} SpacesAre(n: nat)
    ensures Spaces(n) == seq(n, i => 0x20)
  {
    if n > 0 {
      SpacesAre(n - 1);
    }
  }
}
