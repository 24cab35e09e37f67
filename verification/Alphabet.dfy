/** The Bry v1 token table and longest-match reading. */
module Alphabet {

  /** TOKEN_TO_CHAR, in its source order. */
  const TABLE: seq<(string, char)> := [
    ("1", 'A'), ("2", 'B'), ("3", 'C'), ("4", 'D'), ("5", 'E'), ("6", 'F'), ("7", 'G'), ("8", 'H'), ("9", 'I'),
    ("+", 'J'),
    ("+1", 'K'), ("+2", 'L'), ("+3", 'M'), ("+4", 'N'), ("+5", 'O'), ("+6", 'P'), ("+7", 'Q'), ("+8", 'R'), ("+9", 'S'),
    ("++", 'T'),
    ("++1", 'U'), ("++2", 'V'), ("++3", 'W'), ("++4", 'X'), ("++5", 'Y'), ("++6", 'Z'),
    ("-", ' '), ("--p", '.'), ("--c", ','), ("--q", '?'), ("--e", '!'), ("--a", '\'')
  ]

  /** SORTED_TOKENS: the keys by decreasing length, ties in table order. */
  const SORTED_TOKENS: seq<string> := [
    "++1", "++2", "++3", "++4", "++5", "++6", "--p", "--c", "--q", "--e", "--a",
    "+1", "+2", "+3", "+4", "+5", "+6", "+7", "+8", "+9", "++",
    "1", "2", "3", "4", "5", "6", "7", "8", "9", "+", "-"
  ]

  predicate IsDigit(c: char) { '1' <= c <= '9' }

  predicate IsMark(c: char) { c == 'p' || c == 'c' || c == 'q' || c == 'e' || c == 'a' }

  predicate IsLetter(c: char) { 'A' <= c <= 'Z' }

  predicate IsPunct(c: char) { c == '.' || c == ',' || c == '?' || c == '!' || c == '\'' }

  /** The characters with a token: the keys of CHAR_TO_TOKEN. */
  predicate Supported(c: char) { IsLetter(c) || IsPunct(c) || c == ' ' }

  /** The tokens: the keys of TOKEN_TO_CHAR. */
  predicate IsToken(t: string) {
    || (|t| == 1 && (IsDigit(t[0]) || t[0] == '+' || t[0] == '-'))
    || (|t| == 2 && t[0] == '+' && (IsDigit(t[1]) || t[1] == '+'))
    || (|t| == 3 && t[0] == '+' && t[1] == '+' && '1' <= t[2] <= '6')
    || (|t| == 3 && t[0] == '-' && t[1] == '-' && IsMark(t[2]))
  }

  function Letter(n: int): char
    requires 0 <= n < 26
  {
    ('A' as int + n) as char
  }

  function Digit(n: int): char
    requires 1 <= n <= 9
  {
    ('0' as int + n) as char
  }

  function DigitValue(c: char): int { c as int - '0' as int }

  function CharOf(t: string): char
    requires IsToken(t)
  {
    if |t| == 1 then
      if t[0] == '+' then 'J' else if t[0] == '-' then ' ' else Letter(DigitValue(t[0]) - 1)
    else if |t| == 2 then
      if t[1] == '+' then 'T' else Letter(DigitValue(t[1]) + 9)
    else if t[0] == '+' then Letter(DigitValue(t[2]) + 19)
    else match t[2]
      case 'p' => '.'
      case 'c' => ','
      case 'q' => '?'
      case 'e' => '!'
      case _ => '\''
  }

  function TokenOf(c: char): string
    requires Supported(c)
  {
    if 'A' <= c <= 'I' then [Digit(c as int - 'A' as int + 1)]
    else if c == 'J' then "+"
    else if 'K' <= c <= 'S' then ['+', Digit(c as int - 'A' as int - 9)]
    else if c == 'T' then "++"
    else if 'U' <= c <= 'Z' then ['+', '+', Digit(c as int - 'A' as int - 19)]
    else match c
      case ' ' => "-"
      case '.' => "--p"
      case ',' => "--c"
      case '?' => "--q"
      case '!' => "--e"
      case _ => "--a"
  }

  lemma TableLetters(i: nat)
    requires i < 26
    ensures |TABLE| == 32 && TABLE[i].1 == Letter(i)
  {
  }

  lemma TableTokens(i: nat)
    requires i < |TABLE|
    ensures Supported(TABLE[i].1) && TABLE[i].0 == TokenOf(TABLE[i].1)
  {
    if i < 26 {
      TableLetters(i);
    }
  }

  /** CHAR_TO_TOKEN and TOKEN_TO_CHAR are inverse bijections, and are exactly TABLE. */
  lemma TableIsExact(i: nat)
    requires i < |TABLE|
    ensures Supported(TABLE[i].1) && TokenOf(TABLE[i].1) == TABLE[i].0
    ensures IsToken(TABLE[i].0) && CharOf(TABLE[i].0) == TABLE[i].1
  {
    TableTokens(i);
    CharOfTokenOf(TABLE[i].1);
  }

  lemma TokenOfCharOf(t: string)
    requires IsToken(t)
    ensures Supported(CharOf(t)) && TokenOf(CharOf(t)) == t
  {
  }

  lemma CharOfTokenOf(c: char)
    requires Supported(c)
    ensures IsToken(TokenOf(c)) && CharOf(TokenOf(c)) == c
  {
  }

  /** The position of a token in TABLE. */
  function TableIndex(t: string): nat
    requires IsToken(t)
  {
    var c := CharOf(t);
    if IsLetter(c) then c as int - 'A' as int
    else match c
      case ' ' => 26
      case '.' => 27
      case ',' => 28
      case '?' => 29
      case '!' => 30
      case _ => 31
  }

  /** The position of a token in SORTED_TOKENS. */
  function SortedIndex(t: string): nat
    requires IsToken(t)
  {
    if |t| == 1 then (if t[0] == '+' then 30 else if t[0] == '-' then 31 else 20 + DigitValue(t[0]))
    else if |t| == 2 then (if t[1] == '+' then 20 else 10 + DigitValue(t[1]))
    else if t[0] == '+' then DigitValue(t[2]) - 1
    else TableIndex(t) - 21
  }

  lemma TokenAtTableIndex(t: string)
    requires IsToken(t)
    ensures TableIndex(t) < |TABLE| && TABLE[TableIndex(t)] == (t, CharOf(t))
  {
    var i := TableIndex(t);
    TokenOfCharOf(t);
    if i < 26 {
      TableLetters(i);
    }
    TableTokens(i);
  }

  lemma TokenAtSortedIndex(t: string)
    requires IsToken(t)
    ensures SortedIndex(t) < |SORTED_TOKENS| && SORTED_TOKENS[SortedIndex(t)] == t
  {
    var j := SortedIndex(t);
    if j < 11 {
    } else if j < 21 {
    } else {
    }
  }

  lemma SortedHoldsTokens(j: nat)
    requires j < |SORTED_TOKENS|
    ensures IsToken(SORTED_TOKENS[j])
  {
  }

  /** Both lists hold the tokens and nothing else. */
  lemma EveryTokenIsListed(t: string)
    ensures IsToken(t) <==> t in SORTED_TOKENS
    ensures IsToken(t) <==> exists i :: 0 <= i < |TABLE| && TABLE[i].0 == t
  {
    if IsToken(t) {
      TokenAtTableIndex(t);
      TokenAtSortedIndex(t);
    }
    if t in SORTED_TOKENS {
      var j :| 0 <= j < |SORTED_TOKENS| && SORTED_TOKENS[j] == t;
      SortedHoldsTokens(j);
    }
    if i :| 0 <= i < |TABLE| && TABLE[i].0 == t {
      TableIsExact(i);
    }
  }

  lemma SortedByLength(i: nat, j: nat)
    requires i < j < |SORTED_TOKENS|
    ensures |SORTED_TOKENS[i]| >= |SORTED_TOKENS[j]|
  {
  }
}
