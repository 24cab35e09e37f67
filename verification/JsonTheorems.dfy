/** JSON.parse undoes both printers, whatever follows the printed text. */
module JsonTheorems {
  import opened Prelude
  import opened Utf
  import opened Json

  // -------- Strings --------

  lemma HexValueOfDigit(n: int)
    requires 0 <= n < 16
    ensures HexValue(HexDigit(n)) == Some(n)
  {
  }

  lemma SplitHex(u: Unit)
    ensures u == ((u / 16 / 16 / 16 * 16 + u / 16 / 16 % 16) * 16 + u / 16 % 16) * 16 + u % 16
    ensures u / 16 / 16 / 16 < 16
  {
  }

  lemma ReadUnitOfEscape(u: Unit, literal: bool, rest: JsString)
    ensures EscapeUnit(u, literal) != [] && EscapeUnit(u, literal)[0] != QUOTE
    ensures ReadUnit(EscapeUnit(u, literal) + rest) == Some((u, rest))
  {
    var e := EscapeUnit(u, literal);
    var t := e + rest;
    if ShortEscape(u).Some? {
      assert t[0] == BACKSLASH && t[1] == ShortEscape(u).value && t[2..] == rest;
    } else if u >= 0x20 && literal {
      assert t[0] == u && t[1..] == rest;
    } else {
      var a, b, c, d := u / 16 / 16 / 16, u / 16 / 16 % 16, u / 16 % 16, u % 16;
      SplitHex(u);
      assert t[2..6] == [HexDigit(a), HexDigit(b), HexDigit(c), HexDigit(d)] && t[6..] == rest;
      HexValueOfDigit(a);
      HexValueOfDigit(b);
      HexValueOfDigit(c);
      HexValueOfDigit(d);
      assert ReadHex(t[2..6]) == Some(u);
    }
  }

  lemma Regroup(a: JsString, b: JsString, c: JsString)
    ensures (a + b) + c == a + (b + c)
  {
  }

  /** Reading one unit in front of a readable tail. */
  lemma ReadStringStep(u: Unit, literal: bool, tail: JsString, s: JsString, rest: JsString)
    requires ReadString(tail) == Some((s, rest))
    ensures ReadString(EscapeUnit(u, literal) + tail) == Some(([u] + s, rest))
  {
    ReadUnitOfEscape(u, literal, tail);
    assert (EscapeUnit(u, literal) + tail)[0] == EscapeUnit(u, literal)[0];
  }

  lemma ReadPairStep(high: Unit, low: Unit, tail: JsString, s: JsString, rest: JsString)
    requires IsHigh(high) && IsLow(low) && ReadString(tail) == Some((s, rest))
    ensures ReadString([high, low] + tail) == Some(([high, low] + s, rest))
  {
    ReadStringStep(low, true, tail, s, rest);
    ReadStringStep(high, true, [low] + tail, [low] + s, rest);
    assert [high, low] + tail == [high] + ([low] + tail);
    assert [high, low] + s == [high] + ([low] + s);
  }

  lemma ReadNothing(rest: JsString)
    ensures ReadString([] + ([QUOTE] + rest)) == Some(([], rest))
  {
    assert [] + ([QUOTE] + rest) == [QUOTE] + rest && ([QUOTE] + rest)[1..] == rest;
  }

  lemma {:induction false} ReadStringOfBody(s: JsString, rest: JsString)
    ensures ReadString(QuoteBody(s) + ([QUOTE] + rest)) == Some((s, rest))
    decreases |s|
  {
    var tail := [QUOTE] + rest;
    if s == [] {
      ReadNothing(rest);
    } else if StartsPair(s) {
      var body := QuoteBody(s[2..]);
      ReadStringOfBody(s[2..], rest);
      ReadPairStep(s[0], s[1], body + tail, s[2..], rest);
      assert s[..2] == [s[0], s[1]] && [s[0], s[1]] + s[2..] == s;
      Regroup(s[..2], body, tail);
    } else {
      var literal := !IsHigh(s[0]) && !IsLow(s[0]);
      var body := QuoteBody(s[1..]);
      ReadStringOfBody(s[1..], rest);
      ReadStringStep(s[0], literal, body + tail, s[1..], rest);
      assert [s[0]] + s[1..] == s;
      Regroup(EscapeUnit(s[0], literal), body, tail);
    }
  }

  lemma {:induction false} ReadStringOfAscii(s: JsString, rest: JsString)
    ensures ReadString(AsciiBody(s) + ([QUOTE] + rest)) == Some((s, rest))
  {
    var tail := [QUOTE] + rest;
    if s == [] {
      ReadNothing(rest);
    } else {
      var body := AsciiBody(s[1..]);
      ReadStringOfAscii(s[1..], rest);
      ReadStringStep(s[0], s[0] <= 0x7E, body + tail, s[1..], rest);
      assert [s[0]] + s[1..] == s;
      Regroup(EscapeUnit(s[0], s[0] <= 0x7E), body, tail);
    }
  }

  // -------- Numbers --------

  lemma {:induction false} DigitsValueOfDigits(n: nat)
    ensures DigitsValue(Digits(n)) == n
  {
    if n < 10 {
      assert DigitsValue([]) == 0;
      assert Digits(n)[..0] == [];
    } else {
      DigitsValueOfDigits(n / 10);
      assert Digits(n)[..|Digits(n)| - 1] == Digits(n / 10);
    }
  }

  lemma {:induction false} SpanOfDigits(d: JsString, rest: JsString)
    requires IsDigits(d) && (rest != [] ==> !IsDigitUnit(rest[0]))
    ensures SpanDigits(d + rest) == |d|
  {
    if d == [] {
      assert d + rest == rest;
    } else {
      SpanOfDigits(d[1..], rest);
      assert (d + rest)[1..] == d[1..] + rest;
    }
  }

  /** What may follow a value: nothing, or a comma, a closing bracket or white space. */
  predicate Delimited(rest: JsString) {
    rest == [] || rest[0] == COMMA || rest[0] == RBRACKET || rest[0] == RBRACE || IsWhite(rest[0])
  }

  lemma ReadDigits(d: JsString, rest: JsString)
    requires IsDigits(d) && d != [] && (d[0] == 0x30 ==> |d| == 1) && Delimited(rest)
    ensures ReadNat(d + rest) == Some((DigitsValue(d), rest))
  {
    var t := d + rest;
    SpanOfDigits(d, rest);
    assert t[..|d|] == d && t[|d|..] == rest;
  }

  lemma ReadIntOfPrint(n: int, rest: JsString)
    requires Delimited(rest)
    ensures ReadInt(PrintInt(n) + rest) == Some((n, rest))
  {
    var m := if n < 0 then -n else n;
    var d := Digits(m);
    ReadDigits(d, rest);
    DigitsValueOfDigits(m);
    if n < 0 {
      Regroup([MINUS], d, rest);
      assert ([MINUS] + (d + rest))[1..] == d + rest;
    } else {
      assert (d + rest)[0] == d[0];
    }
  }

  // -------- White space and repeated keys --------

  predicate AllWhite(w: JsString) { forall i :: 0 <= i < |w| ==> IsWhite(w[i]) }

  lemma {:induction false} SkipWhiteThrough(w: JsString, t: JsString)
    requires AllWhite(w)
    ensures SkipWhite(w + t) == SkipWhite(t)
  {
    if w == [] {
      assert w + t == t;
    } else {
      SkipWhiteThrough(w[1..], t);
      assert (w + t)[1..] == w[1..] + t;
    }
  }

  lemma {:induction false} SpacesAreWhite(n: nat)
    ensures AllWhite(Spaces(n))
  {
    if n > 0 {
      SpacesAreWhite(n - 1);
    }
  }

  lemma BreakIsWhite(style: Style, depth: nat)
    ensures AllWhite(Break(style, depth)) && AllWhite(AfterColon(style))
  {
    SpacesAreWhite(2 * depth);
  }

  lemma {:induction false} PutNew(ms: seq<(JsString, Value)>, key: JsString, v: Value)
    requires forall i :: 0 <= i < |ms| ==> ms[i].0 != key
    ensures Put(ms, key, v) == ms + [(key, v)]
  {
    if ms != [] {
      PutNew(ms[1..], key, v);
    }
  }

  lemma {:induction false} PutAllDistinct(ms: seq<(JsString, Value)>)
    requires DistinctKeys(ms)
    ensures PutAll(ms) == ms
  {
    if ms != [] {
      var last := ms[|ms| - 1];
      PutAllDistinct(ms[..|ms| - 1]);
      PutNew(ms[..|ms| - 1], last.0, last.1);
    }
  }

  // -------- Values --------

  /** A first unit that neither white space nor a closing bracket has. */
  predicate Opens(t: JsString) {
    t != [] && !IsWhite(t[0]) && t[0] != RBRACKET && t[0] != RBRACE
  }

  lemma PrintOpens(v: Value, style: Style, depth: nat, rest: JsString)
    ensures Opens(PrintOnto(v, style, depth, rest))
  {
  }

  lemma ReadWord(v: Value, style: Style, depth: nat, rest: JsString)
    requires v.Null? || v.Bool?
    ensures ReadValue(PrintOnto(v, style, depth, rest)) == Some((v, rest))
  {
    var t := PrintOnto(v, style, depth, rest);
    if v == Bool(false) {
      assert t[5..] == rest && t[..5] == FALSE_WORD;
    } else {
      assert t[4..] == rest && t[..4] == if v.Null? then NULL_WORD else TRUE_WORD;
    }
  }

  lemma ReadNumber(n: int, rest: JsString)
    requires Delimited(rest)
    ensures ReadValue(PrintInt(n) + rest) == Some((Num(n), rest))
  {
    ReadIntOfPrint(n, rest);
    var t := PrintInt(n) + rest;
    assert t[0] == MINUS || IsDigitUnit(t[0]);
  }

  lemma ReadQuoted(s: JsString, rest: JsString)
    ensures ReadValue(QuoteOnto(s, rest)) == Some((Str(s), rest))
  {
    ReadStringOfBody(s, rest);
    assert QuoteOnto(s, rest)[1..] == QuoteBody(s) + ([QUOTE] + rest);
  }

  lemma ReadEmpty(rest: JsString)
    ensures ReadValue([LBRACKET] + ([RBRACKET] + rest)) == Some((Arr([]), rest))
    ensures ReadValue([LBRACE] + ([RBRACE] + rest)) == Some((Obj([]), rest))
  {
    assert ([LBRACKET] + ([RBRACKET] + rest))[1..] == [RBRACKET] + rest;
    assert ([LBRACE] + ([RBRACE] + rest))[1..] == [RBRACE] + rest;
    assert ([RBRACKET] + rest)[1..] == rest && ([RBRACE] + rest)[1..] == rest;
  }

  lemma ReadArray(w: JsString, t: JsString, items: seq<Value>, rest: JsString)
    requires AllWhite(w) && Opens(t) && ReadItems(t) == Some((items, rest))
    ensures ReadValue([LBRACKET] + (w + t)) == Some((Arr(items), rest))
  {
    hide ReadItems, ReadMembers, ReadString, ReadInt;
    SkipWhiteThrough(w, t);
    assert ([LBRACKET] + (w + t))[1..] == w + t;
  }

  lemma ReadObject(w: JsString, t: JsString, ms: seq<(JsString, Value)>, rest: JsString)
    requires AllWhite(w) && Opens(t) && DistinctKeys(ms) && ReadMembers(t) == Some((ms, rest))
    ensures ReadValue([LBRACE] + (w + t)) == Some((Obj(ms), rest))
  {
    hide ReadItems, ReadMembers, ReadString, ReadInt;
    SkipWhiteThrough(w, t);
    PutAllDistinct(ms);
    assert ([LBRACE] + (w + t))[1..] == w + t;
  }

  lemma ReadLastItem(t: JsString, v: Value, w: JsString, rest: JsString)
    requires AllWhite(w) && ReadValue(t) == Some((v, w + ([RBRACKET] + rest)))
    ensures ReadItems(t) == Some(([v], rest))
  {
    SkipWhiteThrough(w, [RBRACKET] + rest);
    assert ([RBRACKET] + rest)[1..] == rest;
  }

  lemma ReadItemsThrough(w: JsString, t: JsString)
    requires AllWhite(w)
    ensures ReadItems(w + t) == ReadItems(t)
  {
    SkipWhiteThrough(w, t);
    assert ReadValue(w + t) == ReadValue(t);
  }

  lemma ReadNextItem(t: JsString, v: Value, w: JsString, u: JsString, vs: seq<Value>, rest: JsString)
    requires AllWhite(w) && ReadValue(t) == Some((v, [COMMA] + (w + u))) && ReadItems(u) == Some((vs, rest))
    ensures ReadItems(t) == Some(([v] + vs, rest))
  {
    ReadItemsThrough(w, u);
    assert ([COMMA] + (w + u))[1..] == w + u;
  }

  lemma ReadLastMember(t: JsString, m: (JsString, Value), w: JsString, rest: JsString)
    requires AllWhite(w) && ReadMember(t) == Some((m, w + ([RBRACE] + rest)))
    ensures ReadMembers(t) == Some(([m], rest))
  {
    SkipWhiteThrough(w, [RBRACE] + rest);
    assert ([RBRACE] + rest)[1..] == rest;
  }

  lemma ReadNextMember(t: JsString, m: (JsString, Value), w: JsString, u: JsString, ms: seq<(JsString, Value)>, rest: JsString)
    requires AllWhite(w) && ReadMember(t) == Some((m, [COMMA] + (w + u))) && ReadMembers(u) == Some((ms, rest))
    ensures ReadMembers(t) == Some(([m] + ms, rest))
  {
    SkipWhiteThrough(w, u);
    assert ([COMMA] + (w + u))[1..] == w + u;
    assert ReadMembers(w + u) == ReadMembers(u);
  }

  lemma ReadKeyed(key: JsString, w: JsString, t: JsString, v: Value, rest: JsString)
    requires AllWhite(w) && ReadValue(t) == Some((v, rest))
    ensures ReadMember(QuoteOnto(key, [COLON] + (w + t))) == Some(((key, v), rest))
  {
    var after := [COLON] + (w + t);
    ReadStringOfBody(key, after);
    assert QuoteOnto(key, after)[1..] == QuoteBody(key) + ([QUOTE] + after);
    SkipWhiteThrough(w, t);
    assert after[1..] == w + t;
  }

  lemma {:induction false} ReadBack(v: Value, style: Style, depth: nat, rest: JsString)
    requires Proper(v) && Delimited(rest)
    ensures ReadValue(PrintOnto(v, style, depth, rest)) == Some((v, rest))
    decreases v, 1
  {
    match v
    case Null => ReadWord(v, style, depth, rest);
    case Bool(_) => ReadWord(v, style, depth, rest);
    case Num(n) => ReadNumber(n, rest);
    case Str(s) => ReadQuoted(s, rest);
    case Arr(items) =>
      ReadEmpty(rest);
      if items != [] {
        var close := Break(style, depth) + ([RBRACKET] + rest);
        BreakIsWhite(style, depth + 1);
        ReadBackItems(items, style, depth + 1, Break(style, depth), rest) by { BreakIsWhite(style, depth); }
        ItemsOpen(items, style, depth + 1, close);
        ReadArray(Break(style, depth + 1), ItemsOnto(items, style, depth + 1, close), items, rest);
      }
    case Obj(ms) =>
      ReadEmpty(rest);
      if ms != [] {
        var close := Break(style, depth) + ([RBRACE] + rest);
        BreakIsWhite(style, depth + 1);
        ReadBackMembers(ms, style, depth + 1, Break(style, depth), rest) by { BreakIsWhite(style, depth); }
        MembersOpen(ms, style, depth + 1, close);
        ReadObject(Break(style, depth + 1), MembersOnto(ms, style, depth + 1, close), ms, rest);
      }
  }

  lemma ItemsOpen(items: seq<Value>, style: Style, depth: nat, rest: JsString)
    requires items != []
    ensures Opens(ItemsOnto(items, style, depth, rest))
  {
    if |items| == 1 {
      PrintOpens(items[0], style, depth, rest);
    } else {
      PrintOpens(items[0], style, depth, [COMMA] + (Break(style, depth) + ItemsOnto(items[1..], style, depth, rest)));
    }
  }

  lemma {:induction false} ReadBackItems(items: seq<Value>, style: Style, depth: nat, w: JsString, rest: JsString)
    requires items != [] && AllWhite(w) && (forall i :: 0 <= i < |items| ==> Proper(items[i]))
    ensures ReadItems(ItemsOnto(items, style, depth, w + ([RBRACKET] + rest))) == Some((items, rest))
    decreases items, 0
  {
    var close := w + ([RBRACKET] + rest);
    var t := ItemsOnto(items, style, depth, close);
    if |items| == 1 {
      ReadBack(items[0], style, depth, close);
      ReadLastItem(t, items[0], w, rest);
      assert items == [items[0]];
    } else {
      var u := ItemsOnto(items[1..], style, depth, close);
      ReadBackItems(items[1..], style, depth, w, rest);
      ReadBack(items[0], style, depth, [COMMA] + (Break(style, depth) + u));
      BreakIsWhite(style, depth);
      ReadNextItem(t, items[0], Break(style, depth), u, items[1..], rest);
      assert items == [items[0]] + items[1..];
    }
  }

  lemma {:induction false} ReadBackMember(m: (JsString, Value), style: Style, depth: nat, rest: JsString)
    requires Proper(m.1) && Delimited(rest)
    ensures ReadMember(MemberOnto(m, style, depth, rest)) == Some((m, rest))
    decreases m, 2
  {
    ReadBack(m.1, style, depth, rest);
    BreakIsWhite(style, depth);
    ReadKeyed(m.0, AfterColon(style), PrintOnto(m.1, style, depth, rest), m.1, rest);
  }

  lemma MembersOpen(ms: seq<(JsString, Value)>, style: Style, depth: nat, rest: JsString)
    requires ms != []
    ensures Opens(MembersOnto(ms, style, depth, rest))
  {
  }

  lemma {:induction false} ReadBackMembers(ms: seq<(JsString, Value)>, style: Style, depth: nat, w: JsString, rest: JsString)
    requires ms != [] && AllWhite(w) && (forall i :: 0 <= i < |ms| ==> Proper(ms[i].1))
    ensures ReadMembers(MembersOnto(ms, style, depth, w + ([RBRACE] + rest))) == Some((ms, rest))
    decreases ms, 0
  {
    var close := w + ([RBRACE] + rest);
    var t := MembersOnto(ms, style, depth, close);
    assert Delimited(close);
    if |ms| == 1 {
      ReadBackMember(ms[0], style, depth, close);
      ReadLastMember(t, ms[0], w, rest);
      assert ms == [ms[0]];
    } else {
      var u := MembersOnto(ms[1..], style, depth, close);
      ReadBackMembers(ms[1..], style, depth, w, rest);
      ReadBackMember(ms[0], style, depth, [COMMA] + (Break(style, depth) + u));
      BreakIsWhite(style, depth);
      ReadNextMember(t, ms[0], Break(style, depth), u, ms[1..], rest);
      assert ms == [ms[0]] + ms[1..];
    }
  }

  /** JSON.parse inverts JSON.stringify, compact or indented, on every proper value,
      also when white space surrounds the text. */
  lemma ParsePrint(v: Value, style: Style, before: JsString, after: JsString)
    requires Proper(v) && AllWhite(before) && AllWhite(after)
    ensures Parse(before + PrintOnto(v, style, 0, after)) == Some(v)
  {
    ReadBack(v, style, 0, after);
    SkipWhiteThrough(before, PrintOnto(v, style, 0, after));
    SkipWhiteThrough(after, []);
    assert after + [] == after;
  }

  /** Printing is injective on proper values. */
  lemma PrintInjective(v: Value, w: Value, style: Style)
    requires Proper(v) && Proper(w) && Print(v, style) == Print(w, style)
    ensures v == w
  {
    ReadBack(v, style, 0, []);
    ReadBack(w, style, 0, []);
  }
}
