/** What base64url texts spell: the alphabet in its order, and groups of bytes as numbers. */
module Base64Values {
  import opened Prelude
  import opened Utf
  import opened Base64

  const UPPER: string := "ABCDEFGHIJKLMNOPQRSTUVWXYZ"
  const LOWER: string := "abcdefghijklmnopqrstuvwxyz"
  const DIGITS: string := "0123456789"

  /** The n-th symbol of the URL alphabet (table 2 of RFC 4648). */
  lemma SymbolIs(n: Sextet)
    ensures var u := ToUrl(Symbol(n));
      && (n < 26 ==> u == UPPER[n] as int)
      && (26 <= n < 52 ==> u == LOWER[n - 26] as int)
      && (52 <= n < 62 ==> u == DIGITS[n - 52] as int)
      && (n == 62 ==> u == '-' as int) && (n == 63 ==> u == '_' as int)
  {
    if n < 26 {
      UpperAt(n);
    } else if n < 52 {
      LowerAt(n - 26);
    }
  }

  lemma UpperAt(k: nat)
    requires k < 26
    ensures UPPER[k] as int == 'A' as int + k
  {
  }

  lemma LowerAt(k: nat)
    requires k < 26
    ensures LOWER[k] as int == 'a' as int + k
  {
  }

  function UrlSymbol(n: Sextet): Unit { ToUrl(Symbol(n)) }

  /** The number that these base-64 digits spell, the first digit highest. */
  function Number(n: seq<Sextet>): nat {
    if n == [] then 0 else 64 * Number(n[..|n| - 1]) + n[|n| - 1]
  }

  lemma NumberOf(n: seq<Sextet>)
    requires 2 <= |n| <= 4
    ensures |n| == 2 ==> Number(n) == n[0] as int * 64 + n[1]
    ensures |n| == 3 ==> Number(n) == (n[0] as int * 64 + n[1]) * 64 + n[2]
    ensures |n| == 4 ==> Number(n) == ((n[0] as int * 64 + n[1]) * 64 + n[2]) * 64 + n[3]
  {
    assert n[..1][..0] == [];
    assert Number(n[..1]) == n[0] as int;
    assert n[..2][..1] == n[..1] && Number(n[..2]) == n[0] as int * 64 + n[1];
    if |n| >= 3 {
      assert n[..3][..2] == n[..2] && Number(n[..3]) == (n[0] as int * 64 + n[1]) * 64 + n[2];
    }
    assert n[..|n|] == n;
  }

  lemma SplitIsNumber(b0: Byte, b1: Byte, b2: Byte)
    ensures var g := Split3(b0, b1, b2);
      && Number([g.0, g.1, g.2, g.3]) == (b0 as int * 256 + b1) * 256 + b2
      && (b2 == 0 ==> Number([g.0, g.1, g.2]) == (b0 as int * 256 + b1) * 4)
      && (b1 == 0 && b2 == 0 ==> Number([g.0, g.1]) == b0 as int * 16)
  {
    var g := Split3(b0, b1, b2);
    NumberOf([g.0, g.1, g.2, g.3]);
    NumberOf([g.0, g.1, g.2]);
    NumberOf([g.0, g.1]);
  }

  /** Three bytes become four symbols that spell the same number, and the rest follows; two bytes become
      three symbols and one byte two, with zero bits added at the end. */
  lemma EncodeSpells(b: Bytes) returns (n: seq<Sextet>)
    requires b != []
    ensures |n| == if |b| >= 3 then 4 else |b| + 1
    ensures Encode(b) == seq(|n|, i requires 0 <= i < |n| => UrlSymbol(n[i])) + Encode(if |b| >= 3 then b[3..] else [])
    ensures Number(n) ==
      if |b| >= 3 then (b[0] as int * 256 + b[1]) * 256 + b[2]
      else if |b| == 2 then (b[0] as int * 256 + b[1]) * 4
      else b[0] as int * 16
  {
    hide Symbol, ToUrl, Encode, Number;
    var b1: Byte, b2: Byte := if |b| > 1 then b[1] else 0, if |b| > 2 then b[2] else 0;
    var g := Split3(b[0], b1, b2);
    SplitIsNumber(b[0], b1, b2);
    n := if |b| == 1 then [g.0, g.1] else if |b| == 2 then [g.0, g.1, g.2] else [g.0, g.1, g.2, g.3];
    var rest := if |b| >= 3 then b[3..] else [];
    EncodeIsSymbols(b);
    EncodeIsSymbols(rest);
    assert SextetsOf(b) == n + SextetsOf(rest);
    SymbolsOfSum(n, SextetsOf(rest));
  }

  lemma SymbolsOfSum(m: seq<Sextet>, n: seq<Sextet>)
    ensures UrlSymbols(m + n) == seq(|m|, i requires 0 <= i < |m| => UrlSymbol(m[i])) + UrlSymbols(n)
  {
  }
}
