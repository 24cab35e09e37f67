/** Where a marker can occur in a text: searching, joining, and printed JSON values. */
module Markers {
  import opened Prelude
  import opened Utf
  import opened Json
  import opened JsonTheorems
  import opened Exports

  // -------- Searching --------

  predicate Occurs(m: JsString, s: JsString, i: nat) { i + |m| <= |s| && s[i..i + |m|] == m }

  /** The text m is nowhere in s. */
  ghost predicate Absent(m: JsString, s: JsString) { forall i: nat :: !Occurs(m, s, i) }

  lemma OccursIn(m: JsString, a: JsString, b: JsString, c: JsString, i: nat)
    requires i + |m| <= |b|
    ensures Occurs(m, a + (b + c), |a| + i) <==> Occurs(m, b, i)
  {
    assert (a + (b + c))[|a| + i..|a| + i + |m|] == b[i..i + |m|];
  }

  lemma OccursTail(m: JsString, s: JsString, i: nat)
    requires s != []
    ensures Occurs(m, s[1..], i) <==> Occurs(m, s, i + 1)
  {
    if i + |m| <= |s[1..]| {
      OccursIn(m, [s[0]], s[1..], [], i);
      assert s == [s[0]] + (s[1..] + []);
    }
  }

  lemma {:induction false} IndexOfAbsent(s: JsString, m: JsString)
    requires Absent(m, s)
    ensures IndexOf(s, m) == None
  {
    assert !Occurs(m, s, 0);
    if s != [] {
      AbsentTail(m, s);
      IndexOfAbsent(s[1..], m);
    }
  }

  lemma AbsentTail(m: JsString, s: JsString)
    requires s != [] && Absent(m, s)
    ensures Absent(m, s[1..])
  {
    forall i: nat ensures !Occurs(m, s[1..], i) {
      OccursTail(m, s, i);
    }
  }

  /** The first place is found, if no earlier place matches. */
  lemma {:induction false} IndexOfFirst(s: JsString, m: JsString, k: nat)
    requires Occurs(m, s, k) && forall i: nat :: i < k ==> !Occurs(m, s, i)
    ensures IndexOf(s, m) == Some(k)
  {
    if k == 0 {
      assert m <= s;
    } else {
      assert !Occurs(m, s, 0);
      OccursTail(m, s, k - 1);
      forall i: nat | i < k - 1 ensures !Occurs(m, s[1..], i) {
        OccursTail(m, s, i);
      }
      IndexOfFirst(s[1..], m, k - 1);
    }
  }

  predicate PlainUnits(m: JsString) {
    forall i :: 0 <= i < |m| ==> 0x20 <= m[i] < 0x7F && m[i] != QUOTE && m[i] != BACKSLASH && m[i] != LPAREN
  }

  predicate Dashed(m: JsString) { |m| >= 33 && m[0] == DASH && m[1] == DASH && m[|m| - 1] == DASH && m[5] == 0x20 }

  /** What the two markers have in common. */
  predicate MarkerLike(m: JsString) { PlainUnits(m) && Dashed(m) && 0x59 in m && 0x46 in m }

  lemma BeginIsPlain()
    ensures PlainUnits(BEGIN_MARKER) && 0x44 !in BEGIN_MARKER
  {
  }

  lemma EndIsPlain()
    ensures PlainUnits(END_MARKER)
  {
  }

  lemma BeginIsMarkerLike()
    ensures MarkerLike(BEGIN_MARKER)
  {
    BeginIsPlain();
    hide PlainUnits;
    assert BEGIN_MARKER[14] == 0x59 && BEGIN_MARKER[17] == 0x46;
  }

  lemma EndHasUnits()
    ensures 0x59 in END_MARKER && 0x46 in END_MARKER && 0x44 in END_MARKER
  {
    assert END_MARKER[12] == 0x59 && END_MARKER[15] == 0x46 && END_MARKER[8] == 0x44;
  }

  lemma EndIsDashed()
    ensures Dashed(END_MARKER)
  {
  }

  lemma EndIsMarkerLike()
    ensures MarkerLike(END_MARKER)
  {
    hide PlainUnits, Dashed;
    EndIsPlain();
    EndIsDashed();
    EndHasUnits();
  }

  /** A unit that m does not contain keeps occurrences on one side of it. */
  lemma Sandwich(m: JsString, a: JsString, c: Unit, b: JsString)
    requires c !in m && Absent(m, a) && Absent(m, b)
    ensures Absent(m, a + ([c] + b))
  {
    var s := a + ([c] + b);
    forall i: nat ensures !Occurs(m, s, i) {
      if i + |m| <= |a| {
        OccursIn(m, [], a, [c] + b, i);
        assert s == [] + (a + ([c] + b));
      } else if i + |m| <= |s| {
        if i > |a| {
          OccursIn(m, a + [c], b, [], i - |a| - 1);
          assert s == (a + [c]) + (b + []);
        } else {
          assert s[i..i + |m|][|a| - i] == c;
        }
      }
    }
  }

  /** Text without a dash in front of a text adds no occurrence. */
  lemma NoDashOnto(m: JsString, a: JsString, b: JsString)
    requires MarkerLike(m) && DASH !in a && Absent(m, b)
    ensures Absent(m, a + b)
  {
    var s := a + b;
    forall i: nat ensures !Occurs(m, s, i) {
      if i + |m| <= |s| {
        assert s[i..i + |m|][0] == s[i];
        if i >= |a| {
          OccursIn(m, a, b, [], i - |a|);
          assert s == a + (b + []);
        }
      }
    }
  }

  lemma MissingUnit(m: JsString, c: Unit, s: JsString)
    requires c in m && c !in s
    ensures Absent(m, s)
  {
    var k :| 0 <= k < |m| && m[k] == c;
    forall i: nat ensures !Occurs(m, s, i) {
      if i + |m| <= |s| {
        assert s[i..i + |m|][k] == s[i + k];
      }
    }
  }

  lemma AbsentPart(m: JsString, s: JsString, i: nat, j: nat)
    requires i <= j <= |s| && Absent(m, s)
    ensures Absent(m, s[i..j])
  {
    forall k: nat ensures !Occurs(m, s[i..j], k) {
      if k + |m| <= j - i {
        OccursIn(m, s[..i], s[i..j], s[j..], k);
        assert s == s[..i] + (s[i..j] + s[j..]);
      }
    }
  }

  // -------- Printed values --------

  ghost predicate AbsentIn(m: JsString, v: Value)
    decreases v, 1
  {
    match v
    case Str(s) => Absent(m, s)
    case Arr(items) => forall i :: 0 <= i < |items| ==> AbsentIn(m, items[i])
    case Obj(ms) => forall i :: 0 <= i < |ms| ==> AbsentInMember(m, ms[i])
    case _ => true
  }

  ghost predicate AbsentInMember(m: JsString, p: (JsString, Value))
    decreases p, 2
  {
    Absent(m, p.0) && AbsentIn(m, p.1)
  }

  /** Plain text that starts a quoted string starts the string. */
  lemma {:induction false} PrefixOfBody(p: JsString, s: JsString)
    requires forall i :: 0 <= i < |p| ==> 0x20 <= p[i] < 0x7F && p[i] != BACKSLASH
    ensures p <= QuoteBody(s) ==> p <= s
    decreases |p|
  {
    if p != [] && s != [] && !StartsPair(s) && EscapeUnit(s[0], !IsHigh(s[0]) && !IsLow(s[0])) == [s[0]] {
      assert QuoteBody(s)[1..] == QuoteBody(s[1..]);
      PrefixOfBody(p[1..], s[1..]);
      assert p == [p[0]] + p[1..] && s == [s[0]] + s[1..];
    }
  }

  lemma EscapeHasNoDash(u: Unit, literal: bool)
    ensures EscapeUnit(u, literal) == [u] || DASH !in EscapeUnit(u, literal)
  {
  }

  lemma BodyStart(m: JsString, s: JsString, e: JsString, t: JsString)
    requires MarkerLike(m) && Absent(m, s) && Absent(m, t) && QuoteBody(s) == e + t
    requires |e| == 1 || DASH !in e
    ensures Absent(m, e + t)
  {
    if DASH !in e {
      NoDashOnto(m, e, t);
    } else {
      forall i: nat ensures !Occurs(m, e + t, i) {
        if i == 0 {
          PrefixOfBody(m, s);
          assert !Occurs(m, s, 0);
        } else if i + |m| <= |e + t| {
          OccursIn(m, e, t, [], i - 1);
          assert e + t == e + (t + []);
        }
      }
    }
  }

  /** Quoting a string adds no marker to it. */
  lemma {:induction false} BodyAbsent(m: JsString, s: JsString)
    requires MarkerLike(m) && Absent(m, s)
    ensures Absent(m, QuoteBody(s))
    decreases |s|
  {
    if s != [] {
      var n := if StartsPair(s) then 2 else 1;
      AbsentPart(m, s, n, |s|);
      assert s[n..|s|] == s[n..];
      BodyAbsent(m, s[n..]);
      if StartsPair(s) {
        BodyStart(m, s, s[..2], QuoteBody(s[2..]));
      } else {
        var literal := !IsHigh(s[0]) && !IsLow(s[0]);
        EscapeHasNoDash(s[0], literal);
        BodyStart(m, s, EscapeUnit(s[0], literal), QuoteBody(s[1..]));
      }
    }
  }

  ghost predicate EndsWith(s: JsString, tail: JsString) { |s| >= |tail| && s[|s| - |tail|..] == tail }

  /** The text holds no marker and ends as asked. */
  ghost predicate Safe(m: JsString, tail: JsString, s: JsString) { Absent(m, s) && EndsWith(s, tail) }

  lemma EndsOnto(a: JsString, s: JsString, tail: JsString)
    requires EndsWith(s, tail)
    ensures EndsWith(a + s, tail)
  {
    assert (a + s)[|a + s| - |tail|..] == s[|s| - |tail|..];
  }

  lemma SafeOnto(m: JsString, tail: JsString, a: JsString, s: JsString)
    requires MarkerLike(m) && Safe(m, tail, s) && DASH !in a
    ensures Safe(m, tail, a + s)
  {
    NoDashOnto(m, a, s);
    EndsOnto(a, s, tail);
  }

  lemma SafeBreak(m: JsString, tail: JsString, style: Style, depth: nat, s: JsString)
    requires MarkerLike(m) && Safe(m, tail, s)
    ensures Safe(m, tail, Break(style, depth) + s) && Safe(m, tail, AfterColon(style) + s)
  {
    BreakIsWhite(style, depth);
    assert forall i :: 0 <= i < |Break(style, depth)| ==> IsWhite(Break(style, depth)[i]);
    SafeOnto(m, tail, Break(style, depth), s);
    SafeOnto(m, tail, AfterColon(style), s);
  }

  lemma SafeQuote(m: JsString, tail: JsString, s: JsString, rest: JsString)
    requires MarkerLike(m) && Absent(m, s) && Safe(m, tail, rest)
    ensures Safe(m, tail, QuoteOnto(s, rest))
  {
    BodyAbsent(m, s);
    Sandwich(m, QuoteBody(s), QUOTE, rest);
    EndsOnto([QUOTE], rest, tail);
    EndsOnto(QuoteBody(s), [QUOTE] + rest, tail);
    SafeOnto(m, tail, [QUOTE], QuoteBody(s) + ([QUOTE] + rest));
  }

  lemma SafeInt(m: JsString, tail: JsString, n: int, rest: JsString)
    requires MarkerLike(m) && Safe(m, tail, rest)
    ensures Safe(m, tail, PrintInt(n) + rest)
  {
    var d := Digits(if n < 0 then -n else n);
    SafeOnto(m, tail, d, rest);
    if n < 0 {
      var s := [MINUS] + (d + rest);
      Regroup([MINUS], d, rest);
      EndsOnto([MINUS], d + rest, tail);
      forall i: nat ensures !Occurs(m, s, i) {
        if i + |m| <= |s| {
          assert s[i..i + |m|][1] == s[i + 1];
          if i > 0 {
            OccursIn(m, [MINUS], d + rest, [], i - 1);
            assert s == [MINUS] + ((d + rest) + []);
          }
        }
      }
    }
  }

  lemma SafeLeaf(m: JsString, tail: JsString, v: Value, style: Style, depth: nat, rest: JsString)
    requires MarkerLike(m) && AbsentIn(m, v) && Safe(m, tail, rest) && !v.Arr? && !v.Obj?
    ensures Safe(m, tail, PrintOnto(v, style, depth, rest))
  {
    match v
    case Str(s) => SafeQuote(m, tail, s, rest);
    case Num(n) => SafeInt(m, tail, n, rest);
    case Bool(b) => SafeOnto(m, tail, if b then TRUE_WORD else FALSE_WORD, rest);
    case Null => SafeOnto(m, tail, NULL_WORD, rest);
  }

  lemma {:induction false} SafePrint(m: JsString, tail: JsString, v: Value, style: Style, depth: nat, rest: JsString)
    requires MarkerLike(m) && AbsentIn(m, v) && Safe(m, tail, rest)
    ensures Safe(m, tail, PrintOnto(v, style, depth, rest))
    decreases v, 1
  {
    hide Safe, MarkerLike;
    match v
    case Arr(items) =>
      SafeOnto(m, tail, [RBRACKET], rest);
      if items == [] {
        SafeOnto(m, tail, [LBRACKET], [RBRACKET] + rest);
      } else {
        SafeBreak(m, tail, style, depth, [RBRACKET] + rest);
        var close := Break(style, depth) + ([RBRACKET] + rest);
        SafeItems(m, tail, items, style, depth + 1, close);
        SafeBreak(m, tail, style, depth + 1, ItemsOnto(items, style, depth + 1, close));
        SafeOnto(m, tail, [LBRACKET], Break(style, depth + 1) + ItemsOnto(items, style, depth + 1, close));
      }
    case Obj(ms) =>
      SafeOnto(m, tail, [RBRACE], rest);
      if ms == [] {
        SafeOnto(m, tail, [LBRACE], [RBRACE] + rest);
      } else {
        SafeBreak(m, tail, style, depth, [RBRACE] + rest);
        var close := Break(style, depth) + ([RBRACE] + rest);
        SafeMembers(m, tail, ms, style, depth + 1, close);
        SafeBreak(m, tail, style, depth + 1, MembersOnto(ms, style, depth + 1, close));
        SafeOnto(m, tail, [LBRACE], Break(style, depth + 1) + MembersOnto(ms, style, depth + 1, close));
      }
    case _ => SafeLeaf(m, tail, v, style, depth, rest);
  }

  lemma SafeComma(m: JsString, tail: JsString, style: Style, depth: nat, rest: JsString)
    requires MarkerLike(m) && Safe(m, tail, rest)
    ensures Safe(m, tail, [COMMA] + (Break(style, depth) + rest))
  {
    SafeBreak(m, tail, style, depth, rest);
    SafeOnto(m, tail, [COMMA], Break(style, depth) + rest);
  }

  lemma {:induction false} SafeItems(m: JsString, tail: JsString, items: seq<Value>, style: Style, depth: nat, rest: JsString)
    requires items != [] && MarkerLike(m) && (forall i :: 0 <= i < |items| ==> AbsentIn(m, items[i])) && Safe(m, tail, rest)
    ensures Safe(m, tail, ItemsOnto(items, style, depth, rest))
    decreases items, 0
  {
    hide Safe, MarkerLike;
    if |items| == 1 {
      SafePrint(m, tail, items[0], style, depth, rest);
    } else {
      SafeItems(m, tail, items[1..], style, depth, rest);
      var next := ItemsOnto(items[1..], style, depth, rest);
      SafeComma(m, tail, style, depth, next);
      SafePrint(m, tail, items[0], style, depth, [COMMA] + (Break(style, depth) + next));
    }
  }

  lemma {:induction false} SafeMembers(m: JsString, tail: JsString, ms: seq<(JsString, Value)>, style: Style, depth: nat, rest: JsString)
    requires ms != [] && MarkerLike(m) && (forall i :: 0 <= i < |ms| ==> AbsentInMember(m, ms[i])) && Safe(m, tail, rest)
    ensures Safe(m, tail, MembersOnto(ms, style, depth, rest))
    decreases ms, 0
  {
    hide Safe, MarkerLike;
    if |ms| == 1 {
      SafeMember(m, tail, ms[0], style, depth, rest);
    } else {
      SafeMembers(m, tail, ms[1..], style, depth, rest);
      var next := MembersOnto(ms[1..], style, depth, rest);
      SafeComma(m, tail, style, depth, next);
      SafeMember(m, tail, ms[0], style, depth, [COMMA] + (Break(style, depth) + next));
    }
  }

  lemma {:induction false} SafeMember(m: JsString, tail: JsString, p: (JsString, Value), style: Style, depth: nat, rest: JsString)
    requires MarkerLike(m) && AbsentInMember(m, p) && Safe(m, tail, rest)
    ensures Safe(m, tail, MemberOnto(p, style, depth, rest))
    decreases p, 2
  {
    hide Safe, MarkerLike;
    SafePrint(m, tail, p.1, style, depth, rest);
    var text := PrintOnto(p.1, style, depth, rest);
    SafeBreak(m, tail, style, depth, text);
    SafeOnto(m, tail, [COLON], AfterColon(style) + text);
    SafeQuote(m, tail, p.0, [COLON] + (AfterColon(style) + text));
  }
}
