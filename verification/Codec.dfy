/** The Bry v1 codec: normalization, printing, and the greedy readers. */
module Codec {
  import opened Prelude
  import opened Alphabet

  datatype BryError =
    | UnsupportedCharacter(c: char)
    | InvalidStream(position: nat)
    | UnknownToken
    | EmptySegment
    | RoundtripFailed

  datatype BryMessage = BryMessage(plaintext: string, canonicalBry: string)

  predicate AllSupported(text: string) { forall i :: 0 <= i < |text| ==> Supported(text[i]) }

  predicate AllTokens(ts: seq<string>) { forall i :: 0 <= i < |ts| ==> IsToken(ts[i]) }

  /** What one input character normalizes to. Besides a-z, exactly two characters
      have an upper case in the table: dotless i and long s. */
  function Fold(c: char): Option<char> {
    if c == '\t' || c == '\r' || c == '\n' then Some(' ')
    else if 'a' <= c <= 'z' then Some((c as int - 32) as char)
    else if c == '\U{131}' then Some('I')
    else if c == '\U{17F}' then Some('S')
    else if Supported(c) then Some(c)
    else None
  }

  function Normalize(text: string): (r: Result<string, BryError>)
    ensures r.Ok? ==> AllSupported(r.value) && |r.value| == |text|
    ensures r.Ok? <==> forall i :: 0 <= i < |text| ==> Fold(text[i]).Some?
  {
    if text == [] then Ok([])
    else match Fold(text[0])
      case None => Err(UnsupportedCharacter(text[0]))
      case Some(c) =>
        Prepend([c], Normalize(text[1..]))
  }

  /** Tokens printed one after another, with nothing in between. */
  function Join(ts: seq<string>): string {
    if ts == [] then [] else ts[0] + Join(ts[1..])
  }

  function TokensOf(text: string): (ts: seq<string>)
    requires AllSupported(text)
    ensures AllTokens(ts) && |ts| == |text|
  {
    seq(|text|, i requires 0 <= i < |text| => (CharOfTokenOf(text[i]); TokenOf(text[i])))
  }

  function CharsOf(ts: seq<string>): (text: string)
    requires AllTokens(ts)
    ensures |text| == |ts|
  {
    seq(|ts|, i requires 0 <= i < |ts| => CharOf(ts[i]))
  }

  function Encode(text: string): string
    requires AllSupported(text)
  {
    Join(TokensOf(text))
  }

  function EncodeToBry(text: string): Result<string, BryError> {
    match Normalize(text)
    case Err(e) => Err(e)
    case Ok(n) => Ok(Encode(n))
  }

  /** str.isspace() for one character. */
  predicate IsSpace(c: char) {
    || '\U{9}' <= c <= '\U{D}' || '\U{1C}' <= c <= ' '
    || c == '\U{85}' || c == '\U{A0}' || c == '\U{1680}' || '\U{2000}' <= c <= '\U{200A}'
    || c == '\U{2028}' || c == '\U{2029}' || c == '\U{202F}' || c == '\U{205F}' || c == '\U{3000}'
  }

  function Compact(code: string): (s: string)
    ensures forall c :: c in s ==> !IsSpace(c)
  {
    if code == [] then []
    else if IsSpace(code[0]) then Compact(code[1..])
    else [code[0]] + Compact(code[1..])
  }

  /** The token a greedy reader takes at the front of s. */
  function Munch(s: string): (r: Option<string>)
    ensures r.Some? ==> IsToken(r.value) && r.value <= s
  {
    if s == [] then None
    else if IsDigit(s[0]) then Some(s[..1])
    else if s[0] == '+' then
      if |s| >= 2 && s[1] == '+' then
        if |s| >= 3 && '1' <= s[2] <= '6' then Some(s[..3]) else Some(s[..2])
      else if |s| >= 2 && IsDigit(s[1]) then Some(s[..2])
      else Some(s[..1])
    else if s[0] == '-' then
      if |s| >= 3 && s[1] == '-' && IsMark(s[2]) then Some(s[..3]) else Some(s[..1])
    else None
  }

  /** Munch is maximal munch over the table, and fails only where no token fits. */
  lemma MunchIsLongest(s: string, t: string)
    requires IsToken(t) && t <= s
    ensures Munch(s).Some? && |t| <= |Munch(s).value|
  {
    assert forall i :: 0 <= i < |t| ==> s[i] == t[i];
  }

  function Prepend<T>(head: seq<T>, tail: Result<seq<T>, BryError>): Result<seq<T>, BryError> {
    match tail
    case Err(e) => Err(e)
    case Ok(ts) => Ok(head + ts)
  }

  function TokenizeAt(s: string, i: nat): (r: Result<seq<string>, BryError>)
    requires i <= |s|
    ensures r.Ok? ==> AllTokens(r.value)
    decreases |s| - i
  {
    if i == |s| then Ok([])
    else match Munch(s[i..])
      case None => Err(InvalidStream(i))
      case Some(t) => Prepend([t], TokenizeAt(s, i + |t|))
  }

  function Tokenize(s: string): (r: Result<seq<string>, BryError>)
    ensures r.Ok? ==> AllTokens(r.value)
  {
    TokenizeAt(s, 0)
  }

  function Decode(s: string): Result<string, BryError> {
    match Tokenize(s)
    case Err(e) => Err(e)
    case Ok(ts) => Ok(CharsOf(ts))
  }

  // -------- What normalization does to each character --------

  const LOWER: string := "abcdefghijklmnopqrstuvwxyz"
  const UPPER: string := "ABCDEFGHIJKLMNOPQRSTUVWXYZ"

  /** The k-th lower-case letter becomes the k-th upper-case letter, line ends and tabs become
      spaces, supported characters stay, and dotless i and long s have I and S as upper case. */
  predicate FoldsTo(c: char, d: char) {
    || (exists k :: 0 <= k < 26 && c == LOWER[k] && d == UPPER[k])
    || ((c == '\t' || c == '\r' || c == '\n') && d == ' ')
    || (c in UPPER + " .,?!'" && d == c)
    || (c == '\U{131}' && d == 'I') || (c == '\U{17F}' && d == 'S')
  }

  ghost predicate FoldsToNothing(c: char) { forall d :: !FoldsTo(c, d) }

  lemma LettersAt(k: nat)
    requires k < 26
    ensures |LOWER| == |UPPER| == 26 && LOWER[k] as int == 'a' as int + k && UPPER[k] as int == 'A' as int + k
  {
  }

  lemma SupportedIs(c: char)
    ensures Supported(c) <==> c in UPPER + " .,?!'"
  {
    var all := UPPER + " .,?!'";
    assert all[26..] == " .,?!'" && all[..26] == UPPER;
    if IsLetter(c) {
      LettersAt(c as int - 'A' as int);
      assert all[c as int - 'A' as int] == c;
    } else if Supported(c) {
      assert c in all[26..];
    }
    if i :| 0 <= i < |all| && all[i] == c {
      if i < 26 { LettersAt(i); }
    }
  }

  lemma FoldIs(c: char, d: char)
    ensures FoldsTo(c, d) <==> Fold(c) == Some(d)
  {
    SupportedIs(c);
    if 'a' <= c <= 'z' {
      LettersAt(c as int - 'a' as int);
    }
    forall k | 0 <= k < 26 ensures LOWER[k] as int == 'a' as int + k && UPPER[k] as int == 'A' as int + k {
      LettersAt(k);
    }
  }

  lemma {:induction false} NormalizeFolds(text: string)
    ensures Normalize(text).Ok? ==> forall i :: 0 <= i < |text| ==> FoldsTo(text[i], Normalize(text).value[i])
    ensures Normalize(text).Err? ==>
      exists i :: 0 <= i < |text| && Normalize(text).error == UnsupportedCharacter(text[i]) && FoldsToNothing(text[i])
        && forall j :: 0 <= j < i ==> !FoldsToNothing(text[j])
  {
    hide FoldsTo, Fold;
    if text != [] {
      NormalizeFolds(text[1..]);
      var c := text[0];
      if Fold(c).Some? {
        FoldIs(c, Fold(c).value);
        assert !FoldsToNothing(c);
        if Normalize(text).Err? {
          var i :| 0 <= i < |text[1..]| && Normalize(text[1..]).error == UnsupportedCharacter(text[1..][i])
            && FoldsToNothing(text[1..][i]) && forall j :: 0 <= j < i ==> !FoldsToNothing(text[1..][j]);
          forall j | 0 <= j < i + 1 ensures !FoldsToNothing(text[j]) {
            if j > 0 { assert text[j] == text[1..][j - 1]; }
          }
          assert text[i + 1] == text[1..][i];
        } else {
          forall i | 0 <= i < |text| ensures FoldsTo(text[i], Normalize(text).value[i]) {
            if i > 0 { assert text[i] == text[1..][i - 1]; }
          }
        }
      } else {
        forall d ensures !FoldsTo(c, d) {
          FoldIs(c, d);
        }
      }
    }
  }

  function Raise(c: char): char { if 'a' <= c <= 'z' then UPPER[c as int - 'a' as int] else c }

  /** The text with its lower-case letters raised. */
  function Raised(text: string): (r: string)
    ensures |r| == |text|
  {
    seq(|text|, i requires 0 <= i < |text| => Raise(text[i]))
  }

  lemma FoldOfRaised(c: char)
    ensures Fold(Raise(c)) == Fold(c) && (Fold(c).None? ==> Raise(c) == c)
  {
    if 'a' <= c <= 'z' {
      LettersAt(c as int - 'a' as int);
    }
  }

  /** Case does not matter to normalization, not even to what it refuses. */
  lemma {:induction false} NormalizeRaised(text: string)
    ensures Normalize(Raised(text)) == Normalize(text)
  {
    hide Fold, Raise;
    if text != [] {
      NormalizeRaised(text[1..]);
      FoldOfRaised(text[0]);
      assert Raised(text)[1..] == Raised(text[1..]);
    }
  }

  // -------- White space in compact texts --------

  lemma {:induction false} CompactConcat(a: string, b: string)
    ensures Compact(a + b) == Compact(a) + Compact(b)
  {
    if a == [] {
      assert a + b == b;
    } else {
      CompactConcat(a[1..], b);
      assert (a + b)[1..] == a[1..] + b;
    }
  }

  /** Compacting keeps every character that is no white space, in order, and drops the rest: it
      is the only function that keeps such texts and does not see a white space anywhere. */
  lemma WhiteSpaceIsIgnored(a: string, c: char, b: string)
    ensures IsSpace(c) ==> Compact(a + [c] + b) == Compact(a + b)
    ensures !IsSpace(c) ==> Compact(a + [c] + b) == Compact(a) + [c] + Compact(b)
  {
    CompactConcat(a + [c], b);
    CompactConcat(a, [c]);
    CompactConcat(a, b);
    assert Compact([c]) == if IsSpace(c) then [] else [c];
    assert Compact(a) + [] == Compact(a);
  }

  // -------- The source's loops --------

  method NormalizePlaintext(text: string) returns (r: Result<string, BryError>)
    ensures r == Normalize(text)
    ensures r.Ok? ==> |r.value| == |text| && forall i :: 0 <= i < |text| ==> FoldsTo(text[i], r.value[i])
    ensures r.Err? ==>
      exists i :: 0 <= i < |text| && r.error == UnsupportedCharacter(text[i]) && FoldsToNothing(text[i])
        && forall j :: 0 <= j < i ==> !FoldsToNothing(text[j])
  {
    NormalizeFolds(text);
    var out: string := [];
    PrependTwice([], [], Normalize(text));
    assert text[0..] == text;
    for k := 0 to |text|
      invariant Normalize(text) == Prepend(out, Normalize(text[k..]))
    {
      assert text[k..][1..] == text[k + 1..];
      var ch := text[k];
      if ch == '\t' || ch == '\r' || ch == '\n' {
        PrependTwice(out, [' '], Normalize(text[k + 1..]));
        out := out + [' '];
      } else {
        match Fold(ch) {
          case Some(up) =>
            PrependTwice(out, [up], Normalize(text[k + 1..]));
            out := out + [up];
          case None => return Err(UnsupportedCharacter(ch));
        }
      }
    }
    assert out + [] == out;
    return Ok(out);
  }

  /** The inner loop of both readers: the first entry of SORTED_TOKENS that is a prefix. */
  method FirstMatch(rest: string) returns (m: Option<string>)
    ensures m == Munch(rest)
  {
    for j := 0 to |SORTED_TOKENS|
      invariant forall k :: 0 <= k < j ==> !(SORTED_TOKENS[k] <= rest)
    {
      if SORTED_TOKENS[j] <= rest {
        FirstIsLongest(rest, j);
        return Some(SORTED_TOKENS[j]);
      }
    }
    if Munch(rest).Some? {
      TokenAtSortedIndex(Munch(rest).value);
    }
    return None;
  }

  lemma FirstIsLongest(rest: string, j: nat)
    requires j < |SORTED_TOKENS| && SORTED_TOKENS[j] <= rest
    requires forall k :: 0 <= k < j ==> !(SORTED_TOKENS[k] <= rest)
    ensures Munch(rest) == Some(SORTED_TOKENS[j])
  {
    SortedHoldsTokens(j);
    MunchIsLongest(rest, SORTED_TOKENS[j]);
    var t := Munch(rest).value;
    TokenAtSortedIndex(t);
    if SortedIndex(t) > j {
      SortedByLength(j, SortedIndex(t));
    }
    assert rest[..|t|] == t && rest[..|t|] == SORTED_TOKENS[j];
  }

  method TokenizeBry(code: string) returns (r: Result<seq<string>, BryError>)
    ensures r == Tokenize(Compact(code))
  {
    var compact := Compact(code);
    var out: seq<string> := [];
    var i := 0;
    PrependTwice<string>([], [], Tokenize(compact));
    while i < |compact|
      invariant i <= |compact|
      invariant Tokenize(compact) == Prepend(out, TokenizeAt(compact, i))
    {
      var m := FirstMatch(compact[i..]);
      match m {
        case None => return Err(InvalidStream(i));
        case Some(token) =>
          PrependTwice(out, [token], TokenizeAt(compact, i + |token|));
          out := out + [token];
          i := i + |token|;
      }
    }
    assert out + [] == out;
    return Ok(out);
  }

  lemma PrependTwice<T>(a: seq<T>, b: seq<T>, tail: Result<seq<T>, BryError>)
    ensures Prepend(a, Prepend(b, tail)) == Prepend(a + b, tail)
    ensures Prepend([], tail) == tail
  {
    if tail.Ok? {
      assert a + (b + tail.value) == (a + b) + tail.value;
      assert [] + tail.value == tail.value;
    }
  }

  method DecodeFromBry(code: string) returns (r: Result<string, BryError>)
    ensures r == Decode(Compact(code))
  {
    var compact := Compact(code);
    var out: string := [];
    ghost var seen: seq<string> := [];
    var i := 0;
    PrependTwice<string>([], [], Tokenize(compact));
    while i < |compact|
      invariant i <= |compact|
      invariant AllTokens(seen) && out == CharsOf(seen)
      invariant Tokenize(compact) == Prepend(seen, TokenizeAt(compact, i))
    {
      var m := FirstMatch(compact[i..]);
      match m {
        case None => return Err(InvalidStream(i));
        case Some(token) =>
          PrependTwice(seen, [token], TokenizeAt(compact, i + |token|));
          seen := seen + [token];
          out := out + [CharOf(token)];
          i := i + |token|;
      }
    }
    assert seen + [] == seen;
    return Ok(out);
  }
}
