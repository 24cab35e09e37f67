/** The pipe-separated token form, and the parser that accepts both forms. */
module Human {
  import opened Prelude
  import opened Alphabet
  import opened Codec
  import opened CodecTheorems

  const SEPARATOR: char := '|'

  function Untokenize(ts: seq<string>): Result<string, BryError> {
    if AllTokens(ts) then Ok(Join(ts)) else Err(UnknownToken)
  }

  function JoinWith(parts: seq<string>): string
    decreases |parts|
  {
    if parts == [] then []
    else if |parts| == 1 then parts[0]
    else parts[0] + [SEPARATOR] + JoinWith(parts[1..])
  }

  function RenderHuman(ts: seq<string>): Result<string, BryError> {
    if AllTokens(ts) then Ok(JoinWith(ts)) else Err(UnknownToken)
  }

  /** str.split on the separator: one part more than there are separators. */
  function Split(s: string): (parts: seq<string>)
    ensures |parts| >= 1
  {
    if s == [] then [[]]
    else
      var rest := Split(s[1..]);
      if s[0] == SEPARATOR then [[]] + rest else [[s[0]] + rest[0]] + rest[1..]
  }

  function StripLeft(s: string): string {
    if s != [] && IsSpace(s[0]) then StripLeft(s[1..]) else s
  }

  function StripRight(s: string): string {
    if s != [] && IsSpace(s[|s| - 1]) then StripRight(s[..|s| - 1]) else s
  }

  function Strip(s: string): string { StripRight(StripLeft(s)) }

  function ParseHuman(text: string): (r: Result<seq<string>, BryError>)
    ensures r.Ok? ==> AllTokens(r.value)
  {
    var stripped := Strip(text);
    if stripped == [] then Ok([])
    else
      var raw := Split(stripped);
      var items := seq(|raw|, i requires 0 <= i < |raw| => Strip(raw[i]));
      if exists i :: 0 <= i < |items| && items[i] == [] then Err(EmptySegment)
      else if !AllTokens(items) then Err(UnknownToken)
      else Ok(items)
  }

  function ParseInput(text: string): (r: Result<seq<string>, BryError>)
    ensures r.Ok? ==> AllTokens(r.value)
  {
    if SEPARATOR in text then ParseHuman(text) else Tokenize(Compact(text))
  }

  // -------- The human form can always be read back --------

  lemma {:induction false} SplitPlain(s: string)
    requires SEPARATOR !in s
    ensures Split(s) == [s]
  {
    if s != [] {
      SplitPlain(s[1..]);
      assert [s[0]] + s[1..] == s;
    }
  }

  lemma {:induction false} SplitFirst(part: string, tail: string)
    requires SEPARATOR !in part
    ensures Split(part + [SEPARATOR] + tail) == [part] + Split(tail)
  {
    var s := part + [SEPARATOR] + tail;
    if part == [] {
      assert s[1..] == tail;
    } else {
      assert s[1..] == part[1..] + [SEPARATOR] + tail;
      SplitFirst(part[1..], tail);
      assert ([part[1..]] + Split(tail))[1..] == Split(tail);
      assert [s[0]] + part[1..] == part;
    }
  }

  lemma {:induction false} SplitJoin(ts: seq<string>)
    requires AllTokens(ts) && ts != []
    ensures Split(JoinWith(ts)) == ts
    decreases |ts|
  {
    if |ts| == 1 {
      SplitPlain(ts[0]);
    } else {
      SplitFirst(ts[0], JoinWith(ts[1..]));
      SplitJoin(ts[1..]);
    }
  }

  lemma StripOfSolid(s: string)
    requires s != [] && !IsSpace(s[0]) && !IsSpace(s[|s| - 1])
    ensures Strip(s) == s
  {
  }

  lemma {:induction false} JoinEnds(ts: seq<string>)
    requires AllTokens(ts) && ts != []
    ensures var s := JoinWith(ts); s != [] && !IsSpace(s[0]) && !IsSpace(s[|s| - 1])
    ensures SEPARATOR in JoinWith(ts) <==> |ts| > 1
    decreases |ts|
  {
    if |ts| > 1 {
      JoinEnds(ts[1..]);
      assert JoinWith(ts)[|ts[0]|] == SEPARATOR;
    }
  }

  /** A single token is not split further by the greedy reader. */
  lemma TokenReadsAsItself(t: string)
    requires IsToken(t)
    ensures Tokenize(Compact(t)) == Ok([t])
  {
    CompactIsIdentity(t);
    TokenOfCharOf(t);
    var n := [CharOf(t)];
    assert TokensOf(n) == [t];
    assert Join([t]) == t + Join([]) == t;
    ReadBackIff(t, 0, n);
  }

  /** Parsing undoes rendering for every token list: the empty one, the one-token list
      that carries no separator and goes to the compact parser, and all longer ones. */
  lemma ParseInputOfRender(ts: seq<string>)
    requires AllTokens(ts)
    ensures RenderHuman(ts).Ok? && ParseInput(RenderHuman(ts).value) == Ok(ts)
  {
    var text := JoinWith(ts);
    if |ts| == 1 {
      JoinEnds(ts);
      TokenReadsAsItself(ts[0]);
      assert ts == [ts[0]];
    } else if |ts| > 1 {
      JoinEnds(ts);
      StripOfSolid(text);
      SplitJoin(ts);
      forall i | 0 <= i < |ts| ensures Strip(ts[i]) == ts[i] {
        StripOfSolid(ts[i]);
      }
      assert seq(|ts|, i requires 0 <= i < |ts| => Strip(ts[i])) == ts;
    }
  }
}
