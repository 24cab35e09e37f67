/** The keyed ring rotation applied to each token. */
module Ring {
  import opened Prelude
  import opened Alphabet

  /** The tokens of the first n letters, in alphabetical order. */
  function LettersUpTo(n: nat): (ring: seq<string>)
    requires n <= 26
    ensures |ring| == n
  {
    if n == 0 then [] else LettersUpTo(n - 1) + [TokenOf(Letter(n - 1))]
  }

  function LetterTokens(): (ring: seq<string>)
    ensures |ring| == 26
  {
    LettersUpTo(26)
  }

  const PUNCT_TOKENS: seq<string> := ["--p", "--c", "--q", "--e", "--a"]
  const SPACE_TOKEN: string := "-"

  /** One row of the schedule. The scaled ridge signal is an integer in 0..1000. */
  datatype Row = Row(index: nat, state: Bytes, bucket: nat, channel: nat, dummy: bool, ridge: nat, mask: Byte)

  datatype TokenClass = LetterClass | PunctClass | SpaceClass | NoClass

  function ClassOf(t: string): TokenClass {
    if t in LetterTokens() then LetterClass
    else if t in PUNCT_TOKENS then PunctClass
    else if t == SPACE_TOKEN then SpaceClass
    else NoClass
  }

  /** None stands for the ValueError raised on a token of no class. */
  function TokenRing(t: string): Option<seq<string>> {
    match ClassOf(t)
    case LetterClass => Some(LetterTokens())
    case PunctClass => Some(PUNCT_TOKENS)
    case SpaceClass => Some([SPACE_TOKEN])
    case NoClass => None
  }

  function IndexOf(ring: seq<string>, t: string): (k: nat)
    requires t in ring
    ensures k < |ring| && ring[k] == t
  {
    if ring[0] == t then 0
    else
      assert t in ring[1..];
      1 + IndexOf(ring[1..], t)
  }

  function Direction(row: Row): int {
    if (row.channel + (if row.dummy then 1 else 0)) % 2 == 0 then 1 else -1
  }

  /** The remainder of the source language: in 0..n-1 for every x. */
  function Wrap(x: int, n: int): (j: int)
    requires n > 0
    ensures 0 <= j < n
    decreases if x < 0 then n - x else x
  {
    if x < 0 then Wrap(x + n, n) else if x < n then x else Wrap(x - n, n)
  }

  function ShiftAmount(size: int, row: Row): (shift: int)
    ensures size <= 1 ==> shift == 0
    ensures size > 1 ==> 1 <= shift < size
  {
    if size <= 1 then 0
    else 1 + Wrap(row.bucket * 131 + row.mask + row.ridge + row.index * 17, size - 1)
  }

  function SignedShift(size: int, row: Row): (d: int)
    ensures size > 1 ==> -size < d < size && d != 0
  {
    if Direction(row) == 1 then ShiftAmount(size, row) else -ShiftAmount(size, row)
  }

  function Rotate(t: string, row: Row, forward: bool): Option<string> {
    match TokenRing(t)
    case None => None
    case Some(ring) =>
      if |ring| <= 1 then Some(t)
      else
        var d := SignedShift(|ring|, row);
        var k := IndexOf(ring, t);
        Some(ring[Wrap(if forward then k + d else k - d, |ring|)])
  }

  // -------- Rings --------

  lemma RingOf(t: string)
    requires IsToken(t)
    ensures ClassOf(t) != NoClass && t in TokenRing(t).value
  {
    var c := CharOf(t);
    TokenOfCharOf(t);
    if IsLetter(c) {
      var k := c as int - 'A' as int;
      assert Letter(k) == c;
      LettersAreLetters(k);
      assert LetterTokens()[k] == t;
    }
  }

  lemma {:induction false} LettersAreLetters(i: nat, n: nat := 26)
    requires i < n <= 26
    ensures IsToken(LettersUpTo(n)[i]) && CharOf(LettersUpTo(n)[i]) == Letter(i)
    ensures LettersUpTo(n)[i] == TokenOf(Letter(i))
  {
    CharOfTokenOf(Letter(i));
    if i < n - 1 {
      LettersAreLetters(i, n - 1);
    }
  }

  /** Every entry of a ring is a token whose ring is that same ring, at its own index. */
  lemma RingEntry(t: string, j: nat)
    requires IsToken(t)
    requires TokenRing(t).Some? && j < |TokenRing(t).value|
    ensures var u := TokenRing(t).value[j];
      IsToken(u) && ClassOf(u) == ClassOf(t) && IndexOf(TokenRing(u).value, u) == j
  {
    RingOf(t);
    var ring := TokenRing(t).value;
    var u := ring[j];
    if ClassOf(t) == LetterClass {
      LettersAreLetters(j);
      assert u in LetterTokens();
      var k := IndexOf(ring, u);
      LettersAreLetters(k);
    } else if ClassOf(t) == PunctClass {
      NoPunctIsLetter(u);
    } else {
      NoPunctIsLetter(u);
    }
  }

  lemma NoPunctIsLetter(u: string)
    requires IsToken(u) && !IsLetter(CharOf(u))
    ensures u !in LetterTokens()
  {
    if i :| 0 <= i < |LetterTokens()| && LetterTokens()[i] == u {
      LettersAreLetters(i);
    }
  }

  lemma WrapBack(k: int, d: int, n: int)
    requires 0 <= k < n && -n < d < n
    ensures Wrap(Wrap(k + d, n) + -d, n) == k
    ensures d != 0 ==> Wrap(k + d, n) != k
  {
    assert Wrap(k, n) == k;
  }

  lemma RingSize(t: string)
    requires TokenRing(t).Some?
    ensures |TokenRing(t).value| > 1 || t == SPACE_TOKEN
    ensures t == SPACE_TOKEN ==> |TokenRing(t).value| == 1
  {
    if t == SPACE_TOKEN && t in LetterTokens() {
      var i :| 0 <= i < 26 && LetterTokens()[i] == t;
      LettersAreLetters(i);
    }
  }

  function Turned(ring: seq<string>, row: Row, forward: bool): (d: int)
    ensures |ring| > 1 ==> -|ring| < d < |ring| && d != 0
  {
    if forward then SignedShift(|ring|, row) else -SignedShift(|ring|, row)
  }

  lemma RotateIs(t: string, row: Row, forward: bool, ring: seq<string>, k: nat, d: int)
    requires IsToken(t) && t != SPACE_TOKEN && TokenRing(t) == Some(ring)
    requires t in ring && k == IndexOf(ring, t) && d == Turned(ring, row, forward)
    ensures |ring| > 1 && Rotate(t, row, forward) == Some(ring[Wrap(k + d, |ring|)])
  {
    RingSize(t);
  }

  lemma RotateSpace(row: Row, forward: bool)
    ensures Rotate(SPACE_TOKEN, row, forward) == Some(SPACE_TOKEN)
    ensures ClassOf(SPACE_TOKEN) == SpaceClass
  {
    RingOf(SPACE_TOKEN);
    RingSize(SPACE_TOKEN);
    NoPunctIsLetter(SPACE_TOKEN);
  }

  lemma Rotated(t: string, row: Row, forward: bool, ring: seq<string>, k: nat, d: int) returns (u: string)
    requires IsToken(t) && t != SPACE_TOKEN && TokenRing(t) == Some(ring)
    requires t in ring && k == IndexOf(ring, t) && d == Turned(ring, row, forward)
    ensures Rotate(t, row, forward) == Some(u)
    ensures IsToken(u) && u != SPACE_TOKEN && ClassOf(u) == ClassOf(t) && TokenRing(u) == Some(ring)
    ensures |ring| > 1 && u in ring && IndexOf(ring, u) == Wrap(k + d, |ring|)
  {
    RotateIs(t, row, forward, ring, k, d);
    u := ring[Wrap(k + d, |ring|)];
    RingEntry(t, Wrap(k + d, |ring|));
    RingSize(u);
  }

  lemma RotateReturn(t: string, row: Row, forward: bool, ring: seq<string>, k: nat, d: int, u: string)
    requires IsToken(t) && t != SPACE_TOKEN && IsToken(u) && u != SPACE_TOKEN
    requires TokenRing(t) == TokenRing(u) == Some(ring) && |ring| > 1
    requires t in ring && k == IndexOf(ring, t) && d == Turned(ring, row, forward)
    requires u in ring && IndexOf(ring, u) == Wrap(k + d, |ring|)
    ensures u != t && Rotate(u, row, !forward) == Some(t)
  {
    hide TokenRing, ClassOf, IndexOf;
    var j := IndexOf(ring, u);
    assert Turned(ring, row, !forward) == -d;
    RotateIs(u, row, !forward, ring, j, -d);
    WrapBack(k, d, |ring|);
    assert j + -d == Wrap(k + d, |ring|) + -d;
    assert Wrap(j + -d, |ring|) == k;
    assert ring[k] == t;
  }

  lemma RotateOther(t: string, row: Row, forward: bool) returns (u: string)
    requires IsToken(t) && t != SPACE_TOKEN
    ensures Rotate(t, row, forward) == Some(u)
    ensures IsToken(u) && u != SPACE_TOKEN && u != t && ClassOf(u) == ClassOf(t)
    ensures Rotate(u, row, !forward) == Some(t)
  {
    RingOf(t);
    var ring := TokenRing(t).value;
    var k, d := IndexOf(ring, t), Turned(ring, row, forward);
    u := Rotated(t, row, forward, ring, k, d);
    RotateReturn(t, row, forward, ring, k, d, u);
  }

  /** Each direction undoes the other; the class is kept; only the space stays in place. */
  lemma RotateBack(t: string, row: Row, forward: bool)
    requires IsToken(t)
    ensures Rotate(t, row, forward).Some?
    ensures var u := Rotate(t, row, forward).value;
      && IsToken(u) && ClassOf(u) == ClassOf(t)
      && (u == t <==> t == SPACE_TOKEN)
      && Rotate(u, row, !forward) == Some(t)
  {
    if t == SPACE_TOKEN {
      RotateSpace(row, forward);
      RotateSpace(row, !forward);
    } else {
      var u := RotateOther(t, row, forward);
    }
  }

  // -------- The rotation as arithmetic on characters --------

  lemma {:induction false} WrapIsRemainder(x: int, n: int)
    requires n > 0
    ensures Wrap(x, n) == x % n
    decreases if x < 0 then n - x else x
  {
    if x < 0 {
      WrapIsRemainder(x + n, n);
      SameRemainder(x, n);
    } else if x >= n {
      WrapIsRemainder(x - n, n);
      SameRemainder(x - n, n);
    }
  }

  lemma SameRemainder(x: int, n: int)
    requires n > 0
    ensures (x + n) % n == x % n
  {
    var q, r := x / n, x % n;
    assert x + n == (q + 1) * n + r;
    RemainderOf(q + 1, r, n);
  }

  lemma RemainderOf(q: int, r: int, n: int)
    requires 0 <= r < n
    ensures (q * n + r) % n == r
  {
    var x := q * n + r;
    var p := x / n;
    assert x == p * n + x % n;
    if p > q {
      assert (p - q) * n >= n by { Least(p - q, n); }
    } else if p < q {
      assert (q - p) * n >= n by { Least(q - p, n); }
    }
  }

  lemma Least(k: int, n: int)
    requires k >= 1 && n > 0
    ensures k * n >= n
  {
  }

  /** How far a row moves a character of a class of this size: at least one place and less than all
      of them, by bucket, mask, ridge and position; backwards if channel and dummy make an odd sum. */
  function Steps(size: int, row: Row, forward: bool): int
    requires size > 1
  {
    var n := 1 + (131 * row.bucket + row.mask + row.ridge + 17 * row.index) % (size - 1);
    if forward <==> ((row.channel + if row.dummy then 1 else 0) % 2 == 0) then n else -n
  }

  lemma StepsAre(size: int, row: Row, forward: bool)
    requires size > 1
    ensures Steps(size, row, forward) == if forward then SignedShift(size, row) else -SignedShift(size, row)
  {
    WrapIsRemainder(row.bucket * 131 + row.mask + row.ridge + row.index * 17, size - 1);
  }

  const PUNCT_CHARS: string := ".,?!'"

  /** On characters the rotation is a shift of the alphabet, or of the five marks, of which the
      character may be the k-th. */
  lemma RotationShifts(t: string, row: Row, forward: bool, k: nat)
    requires IsToken(t)
    ensures var u := Rotate(t, row, forward);
      && u.Some? && IsToken(u.value)
      && (IsLetter(CharOf(t)) ==>
          CharOf(u.value) == Letter((CharOf(t) as int - 'A' as int + Steps(26, row, forward)) % 26))
      && (k < 5 && CharOf(t) == PUNCT_CHARS[k] ==>
          CharOf(u.value) == PUNCT_CHARS[(k + Steps(5, row, forward)) % 5])
      && (CharOf(t) == ' ' ==> CharOf(u.value) == ' ')
  {
    hide Rotate, TokenRing, ClassOf, Steps, SignedShift, IndexOf, Wrap;
    RotateBack(t, row, forward);
    if IsLetter(CharOf(t)) {
      LetterShifts(t, row, forward);
    } else if k < 5 && CharOf(t) == PUNCT_CHARS[k] {
      PunctShifts(t, row, forward, k);
    } else {
      TokenOfCharOf(t);
    }
  }

  lemma LetterShifts(t: string, row: Row, forward: bool)
    requires IsToken(t) && IsLetter(CharOf(t)) && Rotate(t, row, forward).Some?
    ensures IsToken(Rotate(t, row, forward).value)
    ensures CharOf(Rotate(t, row, forward).value)
         == Letter((CharOf(t) as int - 'A' as int + Steps(26, row, forward)) % 26)
  {
    var k := CharOf(t) as int - 'A' as int;
    RingOf(t);
    TokenOfCharOf(t);
    LettersAreLetters(k);
    assert t in LetterTokens();
    assert t != SPACE_TOKEN;
    var j := IndexOf(LetterTokens(), t);
    LettersAreLetters(j);
    assert j == k;
    RotateIs(t, row, forward, LetterTokens(), j, Turned(LetterTokens(), row, forward));
    StepsAre(26, row, forward);
    WrapIsRemainder(j + Steps(26, row, forward), 26);
    LettersAreLetters((j + Steps(26, row, forward)) % 26);
  }

  lemma PunctShifts(t: string, row: Row, forward: bool, k: nat)
    requires IsToken(t) && k < 5 && CharOf(t) == PUNCT_CHARS[k]
    ensures Rotate(t, row, forward).Some? && IsToken(Rotate(t, row, forward).value)
    ensures CharOf(Rotate(t, row, forward).value) == PUNCT_CHARS[(k + Steps(5, row, forward)) % 5]
  {
    TokenOfCharOf(t);
    assert t == PUNCT_TOKENS[k];
    NoPunctIsLetter(t);
    assert t in PUNCT_TOKENS;
    var j := IndexOf(PUNCT_TOKENS, t);
    assert j == k by { PunctDistinct(j, k); }
    RotateIs(t, row, forward, PUNCT_TOKENS, j, Turned(PUNCT_TOKENS, row, forward));
    StepsAre(5, row, forward);
    WrapIsRemainder(j + Steps(5, row, forward), 5);
    PunctAt((j + Steps(5, row, forward)) % 5);
  }

  lemma PunctAt(k: nat)
    requires k < 5
    ensures IsToken(PUNCT_TOKENS[k]) && CharOf(PUNCT_TOKENS[k]) == PUNCT_CHARS[k]
  {
  }

  lemma PunctDistinct(j: nat, k: nat)
    requires j < 5 && k < 5 && PUNCT_TOKENS[j] == PUNCT_TOKENS[k]
    ensures j == k
  {
    assert PUNCT_TOKENS[j][2] == PUNCT_TOKENS[k][2];
  }
}
