/** White space around what the two parsers read. */
module Padding {
  import opened Prelude
  import opened Utf
  import opened Alphabet
  import opened Codec
  import opened Human
  import opened Exports

  // -------- The token parser --------

  predicate White(s: string) { forall i :: 0 <= i < |s| ==> IsSpace(s[i]) }

  predicate Solid(s: string) { s != [] && !IsSpace(s[0]) && !IsSpace(s[|s| - 1]) }

  lemma {:induction false} LeftOf(a: string, s: string)
    requires White(a) && (s == [] || !IsSpace(s[0]))
    ensures StripLeft(a + s) == s
  {
    if a == [] {
      assert a + s == s;
    } else {
      assert (a + s)[1..] == a[1..] + s;
      LeftOf(a[1..], s);
    }
  }

  lemma {:induction false} RightOf(s: string, b: string)
    requires White(b) && (s == [] || !IsSpace(s[|s| - 1]))
    ensures StripRight(s + b) == s
  {
    if b == [] {
      assert s + b == s;
    } else {
      assert (s + b)[..|s + b| - 1] == s + b[..|b| - 1];
      RightOf(s, b[..|b| - 1]);
    }
  }

  /** Stripping takes off exactly the white space at both ends. */
  lemma StripIs(a: string, s: string, b: string)
    requires White(a) && White(b) && Solid(s)
    ensures Strip(a + s + b) == s
  {
    assert a + s + b == a + (s + b);
    LeftOf(a, s + b);
    RightOf(s, b);
  }

  /** A token with the white space written before and after it. */
  datatype Padded = Padded(before: string, token: string, after: string) {
    predicate Valid() { White(before) && White(after) && IsToken(token) }

    function Text(): string { before + token + after }
  }

  predicate AllValid(ps: seq<Padded>) { forall i :: 0 <= i < |ps| ==> ps[i].Valid() }

  function Texts(ps: seq<Padded>): (r: seq<string>)
    ensures |r| == |ps| && forall i :: 0 <= i < |ps| ==> r[i] == ps[i].Text()
  {
    if ps == [] then [] else [ps[0].Text()] + Texts(ps[1..])
  }

  function Tokens(ps: seq<Padded>): (r: seq<string>)
    ensures |r| == |ps| && forall i :: 0 <= i < |ps| ==> r[i] == ps[i].token
  {
    if ps == [] then [] else [ps[0].token] + Tokens(ps[1..])
  }

  lemma TokenIsSolid(t: string)
    requires IsToken(t)
    ensures Solid(t) && SEPARATOR !in t
  {
  }

  lemma NoSeparator(p: Padded)
    requires p.Valid()
    ensures SEPARATOR !in p.Text()
  {
    TokenIsSolid(p.token);
  }

  lemma {:induction false} SplitTexts(ps: seq<Padded>)
    requires AllValid(ps) && ps != []
    ensures Split(JoinWith(Texts(ps))) == Texts(ps)
    decreases |ps|
  {
    NoSeparator(ps[0]);
    if |ps| == 1 {
      SplitPlain(ps[0].Text());
    } else {
      SplitFirst(ps[0].Text(), JoinWith(Texts(ps[1..])));
      SplitTexts(ps[1..]);
      assert Texts(ps)[1..] == Texts(ps[1..]);
    }
  }

  /** Without the white space at both ends of the whole text. */
  function Trimmed(ps: seq<Padded>): seq<Padded>
    requires ps != []
  {
    EndCut(ps[0 := ps[0].(before := [])])
  }

  lemma JoinFirst(ps: seq<Padded>)
    requires ps != []
    ensures JoinWith(Texts(ps)) ==
      if |ps| == 1 then ps[0].Text() else ps[0].Text() + [SEPARATOR] + JoinWith(Texts(ps[1..]))
  {
    assert Texts(ps)[1..] == Texts(ps[1..]);
  }

  lemma JoinSplitsOff(ps: seq<Padded>)
    requires ps != []
    ensures JoinWith(Texts(ps)) == ps[0].before + JoinWith(Texts(ps[0 := ps[0].(before := [])]))
  {
    var qs := ps[0 := ps[0].(before := [])];
    JoinFirst(ps);
    JoinFirst(qs);
    hide Texts, JoinWith;
    var t := qs[0].Text();
    assert qs[1..] == ps[1..] && ps[0].Text() == ps[0].before + t;
    if |ps| > 1 {
      Regroup(ps[0].before, t, [SEPARATOR]);
      Regroup(ps[0].before, t + [SEPARATOR], JoinWith(Texts(ps[1..])));
    }
  }

  /** The same list, with no white space after its last token. */
  function EndCut(ps: seq<Padded>): (qs: seq<Padded>)
    requires ps != []
    ensures |qs| == |ps| && (|ps| > 1 ==> qs[0] == ps[0] && qs[1..] == EndCut(ps[1..]))
    ensures |ps| == 1 ==> ps[0].Text() == qs[0].Text() + ps[0].after
  {
    var n := |ps| - 1;
    ps[n := ps[n].(after := [])]
  }

  lemma {:induction false} JoinSplitsEnd(ps: seq<Padded>)
    requires ps != []
    ensures JoinWith(Texts(ps)) == JoinWith(Texts(EndCut(ps))) + ps[|ps| - 1].after
    decreases |ps|
  {
    hide *;
    JoinFirst(ps);
    JoinFirst(EndCut(ps));
    if |ps| > 1 {
      JoinSplitsEnd(ps[1..]);
      Regroup(ps[0].Text() + [SEPARATOR], JoinWith(Texts(EndCut(ps[1..]))), ps[|ps| - 1].after);
    }
  }

  lemma {:induction false} TrimmedIsSolid(ps: seq<Padded>)
    requires AllValid(ps) && ps != [] && ps[|ps| - 1].after == []
    ensures var s := JoinWith(Texts(ps)); s != [] && !IsSpace(s[|s| - 1]) && (ps[0].before == [] ==> !IsSpace(s[0]))
    decreases |ps|
  {
    TokenIsSolid(ps[0].token);
    if |ps| > 1 {
      TrimmedIsSolid(ps[1..]);
      assert Texts(ps)[1..] == Texts(ps[1..]);
    }
  }

  lemma SplitsOff(ps: seq<Padded>)
    requires ps != []
    ensures JoinWith(Texts(ps)) == ps[0].before + JoinWith(Texts(Trimmed(ps))) + ps[|ps| - 1].after
  {
    hide Texts, JoinWith, Padded.Text;
    var n, first := |ps| - 1, ps[0 := ps[0].(before := [])];
    JoinSplitsOff(ps);
    JoinSplitsEnd(first);
    assert Trimmed(ps) == EndCut(first) && first[n].after == ps[n].after;
    Regroup(ps[0].before, JoinWith(Texts(Trimmed(ps))), ps[n].after);
  }

  lemma Regroup(a: string, b: string, c: string)
    ensures a + (b + c) == a + b + c
  {
  }

  lemma StripOfTexts(ps: seq<Padded>)
    requires AllValid(ps) && |ps| > 1
    ensures Strip(JoinWith(Texts(ps))) == JoinWith(Texts(Trimmed(ps))) != []
  {
    SplitsOff(ps);
    TokensOfTrimmed(ps);
    TrimmedIsSolid(Trimmed(ps));
    hide Strip, Texts, JoinWith, IsToken;
    StripIs(ps[0].before, JoinWith(Texts(Trimmed(ps))), ps[|ps| - 1].after);
  }

  lemma StrippedTokens(qs: seq<Padded>)
    requires AllValid(qs)
    ensures forall i :: 0 <= i < |qs| ==> Strip(Texts(qs)[i]) == qs[i].token
  {
    forall i | 0 <= i < |qs| ensures Strip(Texts(qs)[i]) == qs[i].token {
      TokenIsSolid(qs[i].token);
      hide Strip, IsToken;
      StripIs(qs[i].before, qs[i].token, qs[i].after);
    }
  }

  lemma ParsesTo(text: string, items: seq<string>)
    requires SEPARATOR in text && Strip(text) != [] && |Split(Strip(text))| == |items| && AllTokens(items)
    requires forall i :: 0 <= i < |items| ==> Strip(Split(Strip(text))[i]) == items[i] && items[i] != []
    ensures ParseInput(text) == Ok(items)
  {
    hide Strip, Split, IsToken, Tokenize;
    var raw := Split(Strip(text));
    assert seq(|raw|, i requires 0 <= i < |raw| => Strip(raw[i])) == items;
  }

  lemma TokensOfTrimmed(ps: seq<Padded>)
    requires AllValid(ps) && ps != []
    ensures var qs := Trimmed(ps);
      AllValid(qs) && |qs| == |ps| && forall i :: 0 <= i < |ps| ==> qs[i].token == ps[i].token
  {
  }

  /** Any white space around tokens and at both ends is ignored in the piped form. */
  lemma PaddedParses(ps: seq<Padded>)
    requires AllValid(ps) && |ps| > 1
    ensures ParseInput(JoinWith(Texts(ps))) == Ok(Tokens(ps))
  {
    var qs := Trimmed(ps);
    TokensOfTrimmed(ps);
    StripOfTexts(ps);
    SplitTexts(qs);
    StrippedTokens(qs);
    SeparatorIn(ps);
    forall i | 0 <= i < |ps| ensures IsToken(Tokens(ps)[i]) && Tokens(ps)[i] != [] {
      TokenIsSolid(ps[i].token);
    }
    hide Strip, Texts, JoinWith, Split, IsToken, Trimmed, Padded.Valid;
    ParsesTo(JoinWith(Texts(ps)), Tokens(ps));
  }

  lemma SeparatorIn(ps: seq<Padded>)
    requires |ps| > 1
    ensures SEPARATOR in JoinWith(Texts(ps))
  {
    var t := ps[0].Text();
    assert JoinWith(Texts(ps))[|t|] == SEPARATOR;
  }

  // -------- The vault parser --------

  predicate JsWhite(s: JsString) { forall i :: 0 <= i < |s| ==> IsJsSpace(s[i]) }

  lemma {:induction false} TrimLeftOf(a: JsString, s: JsString)
    requires JsWhite(a)
    ensures TrimLeft(a + s) == TrimLeft(s)
  {
    if a == [] {
      assert a + s == s;
    } else {
      assert (a + s)[1..] == a[1..] + s;
      TrimLeftOf(a[1..], s);
    }
  }

  lemma {:induction false} TrimRightOf(s: JsString, b: JsString)
    requires JsWhite(b)
    ensures TrimRight(s + b) == TrimRight(s)
  {
    if b == [] {
      assert s + b == s;
    } else {
      assert (s + b)[..|s + b| - 1] == s + b[..|b| - 1];
      TrimRightOf(s, b[..|b| - 1]);
    }
  }

  lemma {:induction false} TrimLeftThen(s: JsString, b: JsString)
    requires JsWhite(b)
    ensures TrimRight(TrimLeft(s + b)) == TrimRight(TrimLeft(s))
  {
    if s == [] {
      assert s + b == b && b + [] == b;
      TrimLeftOf(b, []);
    } else if IsJsSpace(s[0]) {
      assert (s + b)[1..] == s[1..] + b;
      TrimLeftThen(s[1..], b);
    } else {
      TrimRightOf(s, b);
    }
  }

  lemma TrimAround(a: JsString, raw: JsString, b: JsString)
    requires JsWhite(a) && JsWhite(b)
    ensures Trim(a + raw + b) == Trim(raw)
  {
    assert a + raw + b == a + (raw + b);
    TrimLeftOf(a, raw + b);
    TrimLeftThen(raw, b);
    hide TrimLeft, TrimRight;
  }

  /** White space before and after a pasted vault changes nothing, whatever was pasted. */
  lemma SurroundingIsIgnored(a: JsString, raw: JsString, b: JsString)
    requires JsWhite(a) && JsWhite(b)
    ensures ParseVaultInput(a + raw + b) == ParseVaultInput(raw)
  {
    TrimAround(a, raw, b);
    hide Trim, IndexOf, ParseText, Between;
  }

  /** The memory on the sheet is the nearest whole number of mebibytes, halves rounded up. */
  lemma MebibytesIsNearest(bytes: int)
    ensures -524288 <= bytes - 1048576 * Mebibytes(bytes) < 524288
  {
  }
}
