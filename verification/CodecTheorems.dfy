/** What the Bry codec promises: when printing can be undone, and which texts the readers accept. */
module CodecTheorems {
  import opened Prelude
  import opened Alphabet
  import opened Codec

  // -------- When decode undoes encode --------

  /** The neighbours whose printed tokens run together into a different reading. */
  predicate Collides(a: char, b: char) {
    || (a == 'J' && IsLetter(b))
    || (a == 'T' && 'A' <= b <= 'F')
  }

  predicate Clean(n: string) {
    forall i :: 0 <= i < |n| - 1 ==> !Collides(n[i], n[i + 1])
  }

  lemma EncodeStep(n: string)
    requires AllSupported(n) && n != []
    ensures Encode(n) == TokenOf(n[0]) + Encode(n[1..])
  {
    assert TokensOf(n)[1..] == TokensOf(n[1..]);
  }

  lemma EncodeStart(n: string)
    requires AllSupported(n) && n != []
    ensures TokenOf(n[0]) <= Encode(n)
    ensures var c := Encode(n)[0]; IsDigit(c) || c == '+' || c == '-'
  {
    EncodeStep(n);
    CharOfTokenOf(n[0]);
  }

  /** Greedy reading takes the printed token back iff the next character does not collide. */
  lemma MunchOfPrinted(c: char, rest: string)
    requires Supported(c) && AllSupported(rest)
    ensures Munch(TokenOf(c) + Encode(rest)) == Some(TokenOf(c)) <==> rest == [] || !Collides(c, rest[0])
    ensures Munch(TokenOf(c) + Encode(rest)).Some?
  {
    var s := TokenOf(c) + Encode(rest);
    CharOfTokenOf(c);
    assert s[..|TokenOf(c)|] == TokenOf(c);
    MunchIsLongest(s, TokenOf(c));
    if rest == [] {
      assert s == TokenOf(c);
    } else {
      EncodeStart(rest);
      EncodeStep(rest);
      if c == ' ' && |rest| > 1 {
        EncodeStart(rest[1..]);
      }
    }
  }

  lemma {:induction false} ReadBackIff(s: string, i: nat, n: string)
    requires AllSupported(n) && i <= |s| && s[i..] == Encode(n)
    ensures TokenizeAt(s, i) == Ok(TokensOf(n)) <==> Clean(n)
    decreases |n|
  {
    hide Munch, Collides;
    if n == [] {
      assert TokensOf(n) == [];
    } else {
      EncodeStep(n);
      CharOfTokenOf(n[0]);
      var t := TokenOf(n[0]);
      MunchOfPrinted(n[0], n[1..]);
      var m := Munch(s[i..]).value;
      assert TokensOf(n) == [t] + TokensOf(n[1..]);
      if m == t {
        assert s[i + |t|..] == s[i..][|t|..] == Encode(n[1..]);
        ReadBackIff(s, i + |t|, n[1..]);
        CleanStep(n);
      } else {
        assert !Clean(n);
        assert TokensOf(n)[0] == t;
      }
    }
  }

  lemma CleanStep(n: string)
    requires n != []
    ensures Clean(n) <==> Clean(n[1..]) && (|n| == 1 || !Collides(n[0], n[1]))
  {
    if Clean(n[1..]) && (|n| == 1 || !Collides(n[0], n[1])) {
      forall i | 0 <= i < |n| - 1 ensures !Collides(n[i], n[i + 1]) {
        if i > 0 {
          assert n[i] == n[1..][i - 1] && n[i + 1] == n[1..][i];
        }
      }
    }
    if Clean(n) {
      forall i | 0 <= i < |n[1..]| - 1 ensures !Collides(n[1..][i], n[1..][i + 1]) {
        assert n[1..][i] == n[i + 1] && n[1..][i + 1] == n[i + 2];
      }
    }
  }

  lemma CharsOfInjective(a: seq<string>, b: seq<string>)
    requires AllTokens(a) && AllTokens(b) && CharsOf(a) == CharsOf(b)
    ensures a == b
  {
    forall i | 0 <= i < |a| ensures a[i] == b[i] {
      TokenOfCharOf(a[i]);
      TokenOfCharOf(b[i]);
      assert CharsOf(a)[i] == CharsOf(b)[i];
    }
  }

  lemma CharsOfTokensOf(n: string)
    requires AllSupported(n)
    ensures CharsOf(TokensOf(n)) == n
  {
    forall i | 0 <= i < |n| ensures CharsOf(TokensOf(n))[i] == n[i] {
      CharOfTokenOf(n[i]);
    }
  }

  /** decode(encode(n)) == n exactly when no neighbours of n collide. */
  lemma DecodeEncodeIff(n: string)
    requires AllSupported(n)
    ensures Decode(Encode(n)) == Ok(n) <==> Clean(n)
  {
    ReadBackIff(Encode(n), 0, n);
    CharsOfTokensOf(n);
    var r := Tokenize(Encode(n));
    if r.Ok? && CharsOf(r.value) == n {
      CharsOfInjective(r.value, TokensOf(n));
    }
  }

  lemma ReadOne(t: string)
    requires IsToken(t) && Munch(t) == Some(t)
    ensures Decode(t) == Ok([CharOf(t)])
  {
    assert t[0..] == t;
    assert TokenizeAt(t, |t|) == Ok([]);
    assert [t] + [] == [t];
    assert CharsOf([t]) == [CharOf(t)];
  }

  /** Two texts that come back as others: JA prints as +1 and reads as K, TA as ++1 and U. */
  lemma CollidingTexts()
    ensures AllSupported(['J', 'A']) && Encode(['J', 'A']) == ['+', '1'] && Decode(['+', '1']) == Ok(['K'])
    ensures AllSupported(['T', 'A']) && Encode(['T', 'A']) == ['+', '+', '1'] && Decode(['+', '+', '1']) == Ok(['U'])
  {
    var a, ja, ta := ['A'], ['J', 'A'], ['T', 'A'];
    assert ja[1..] == a && ta[1..] == a && a[1..] == [];
    assert TokensOf([]) == [] && Encode([]) == [];
    EncodeStep(a);
    EncodeStep(ja);
    EncodeStep(ta);
    var k, u := ['+', '1'], ['+', '+', '1'];
    assert k[..2] == k && u[..3] == u;
    ReadOne(k);
    ReadOne(u);
  }

  // -------- roundtrip --------

  lemma {:induction false} NormalizeSupported(n: string)
    requires AllSupported(n)
    ensures Normalize(n) == Ok(n)
  {
    if n != [] {
      NormalizeSupported(n[1..]);
      assert [n[0]] + n[1..] == n;
    }
  }

  lemma {:induction false} CompactIsIdentity(s: string)
    requires forall i :: 0 <= i < |s| ==> !IsSpace(s[i])
    ensures Compact(s) == s
  {
    if s != [] {
      CompactIsIdentity(s[1..]);
    }
  }

  lemma {:induction false} EncodeHasNoSpace(n: string)
    requires AllSupported(n)
    ensures forall i :: 0 <= i < |Encode(n)| ==> !IsSpace(Encode(n)[i])
  {
    if n != [] {
      EncodeHasNoSpace(n[1..]);
      EncodeStep(n);
      CharOfTokenOf(n[0]);
    }
  }

  /** roundtrip returns exactly on the texts that normalize to a clean text; on every
      other text that normalizes it raises, and it never hides a decoding error. */
  method Roundtrip(text: string) returns (r: Result<BryMessage, BryError>)
    ensures match Normalize(text)
      case Err(e) => r == Err(e)
      case Ok(n) =>
        if Clean(n) then r == Ok(BryMessage(n, Encode(n))) && Decode(Encode(n)) == Ok(n)
        else r == Err(RoundtripFailed) && Decode(Encode(n)).Ok? && Decode(Encode(n)) != Ok(n)
  {
    var normal := NormalizePlaintext(text);
    if normal.Err? {
      return Err(normal.error);
    }
    var plain := normal.value;
    NormalizeSupported(plain);
    var bry := EncodeToBry(plain);
    EncodeHasNoSpace(plain);
    CompactIsIdentity(bry.value);
    var decoded := DecodeFromBry(bry.value);
    DecodeEncodeIff(plain);
    PrintedIsAccepted(TokensOf(plain));
    if decoded.Err? {
      assert false;
    }
    if decoded.value != plain {
      return Err(RoundtripFailed);
    }
    return Ok(BryMessage(plain, bry.value));
  }

  // -------- The language the readers accept --------

  predicate BryAlphabet(c: char) { IsDigit(c) || c == '+' || c == '-' || IsMark(c) }

  /** Position i of s holds a Bry character, and a mark only right after two dashes. */
  predicate Lawful(s: string, i: nat)
    requires i < |s|
  {
    BryAlphabet(s[i]) && (IsMark(s[i]) ==> i >= 2 && s[i - 1] == '-' && s[i - 2] == '-')
  }

  /** No mark at or after i has had its dashes read one by one. */
  predicate Boundary(s: string, i: nat)
    requires i <= |s|
  {
    && (i < |s| && i >= 2 && s[i - 2] == '-' && s[i - 1] == '-' ==> !IsMark(s[i]))
    && (i + 1 < |s| && i >= 1 && s[i - 1] == '-' && s[i] == '-' ==> !IsMark(s[i + 1]))
  }

  /** The length of the token Munch takes, read off the text itself. */
  lemma MunchAt(s: string, i: nat)
    requires i < |s|
    ensures Munch(s[i..]).Some? <==> IsDigit(s[i]) || s[i] == '+' || s[i] == '-'
    ensures Munch(s[i..]).Some? ==>
      var n := |Munch(s[i..]).value|;
      && 1 <= n <= 3 && i + n <= |s| && s[i..i + n] == Munch(s[i..]).value
      && (n >= 2 && s[i] == '+' ==> IsDigit(s[i + 1]) || s[i + 1] == '+')
      && (n == 3 && s[i] == '+' ==> s[i + 1] == '+' && IsDigit(s[i + 2]))
      && (IsDigit(s[i]) ==> n == 1)
      && (s[i] == '-' ==> n == if i + 2 < |s| && s[i + 1] == '-' && IsMark(s[i + 2]) then 3 else 1)
  {
    var r := s[i..];
    assert r[0] == s[i];
    if i + 1 < |s| { assert r[1] == s[i + 1]; }
    if i + 2 < |s| { assert r[2] == s[i + 2]; }
    if Munch(r).Some? {
      var n := |Munch(r).value|;
      assert s[i..i + n] == r[..n];
    }
  }

  lemma MunchStep(s: string, i: nat)
    requires i < |s| && Boundary(s, i)
    ensures Munch(s[i..]).Some? <==> Lawful(s, i)
    ensures Munch(s[i..]).Some? ==>
      var j := i + |Munch(s[i..]).value|;
      && i < j <= |s| && s[i..j] == Munch(s[i..]).value
      && (forall k :: i <= k < j ==> Lawful(s, k))
      && Boundary(s, j)
  {
    MunchAt(s, i);
  }

  /** From a boundary, reading succeeds iff everything ahead is lawful, and loses nothing. */
  lemma {:induction false} AcceptFrom(s: string, i: nat)
    requires i <= |s| && Boundary(s, i)
    ensures TokenizeAt(s, i).Ok? <==> forall k :: i <= k < |s| ==> Lawful(s, k)
    ensures TokenizeAt(s, i).Ok? ==> Join(TokenizeAt(s, i).value) == s[i..]
    decreases |s| - i
  {
    if i < |s| {
      MunchStep(s, i);
      if Munch(s[i..]).Some? {
        var t := Munch(s[i..]).value;
        var j := i + |t|;
        AcceptFrom(s, j);
        if TokenizeAt(s, j).Ok? {
          var rest := TokenizeAt(s, j).value;
          assert ([t] + rest)[1..] == rest;
          assert s[i..j] + s[j..] == s[i..];
        }
      }
    }
  }

  /** The accepted language: Bry characters only, each of p, c, q, e, a right after two dashes. */
  lemma TokenizeAcceptsIff(s: string)
    ensures Tokenize(s).Ok? <==> forall k :: 0 <= k < |s| ==> Lawful(s, k)
  {
    AcceptFrom(s, 0);
  }

  lemma TokensOfCharsOf(ts: seq<string>)
    requires AllTokens(ts)
    ensures AllSupported(CharsOf(ts)) && TokensOf(CharsOf(ts)) == ts
  {
    forall i | 0 <= i < |ts| ensures Supported(CharsOf(ts)[i]) && TokenOf(CharsOf(ts)[i]) == ts[i] {
      TokenOfCharOf(ts[i]);
    }
  }

  /** On every accepted text, tokenizing loses nothing and printing undoes decoding. */
  lemma AcceptedTextIsPreserved(s: string)
    requires Tokenize(s).Ok?
    ensures Join(Tokenize(s).value) == s
    ensures Decode(s).Ok? && AllSupported(Decode(s).value) && Encode(Decode(s).value) == s
  {
    AcceptFrom(s, 0);
    TokensOfCharsOf(Tokenize(s).value);
  }

  /** Any run of tokens printed together is accepted, perhaps as different tokens. */
  lemma {:induction false} PrintedIsAccepted(ts: seq<string>)
    requires AllTokens(ts)
    ensures forall k :: 0 <= k < |Join(ts)| ==> Lawful(Join(ts), k)
    ensures Tokenize(Join(ts)).Ok?
  {
    if ts != [] {
      var whole, rest := Join(ts), Join(ts[1..]);
      PrintedIsAccepted(ts[1..]);
      forall k | 0 <= k < |whole| ensures Lawful(whole, k) {
        if k >= |ts[0]| {
          assert Lawful(rest, k - |ts[0]|);
        }
      }
    }
    TokenizeAcceptsIff(Join(ts));
  }
}
