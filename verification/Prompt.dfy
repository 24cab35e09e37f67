/** The raw-mode phrase prompt: a byte machine fed in chunks. */
module Prompt {
  import opened Prelude
  import opened Utf

  const ETX: Byte := 0x03
  const EOT: Byte := 0x04
  const LF: Byte := 0x0A
  const CR: Byte := 0x0D
  const BS: Byte := 0x08
  const DEL: Byte := 0x7F

  datatype State = Open(buf: JsString) | Resolved(phrase: JsString) | Aborted

  predicate Ends(b: Byte) { b == CR || b == LF || b == ETX || b == EOT }

  predicate Erases(b: Byte) { b == BS || b == DEL }

  predicate Shows(b: Byte) { b >= 0x20 && b != DEL }

  /** What ending with this byte makes of the phrase typed so far. */
  function Ending(buf: JsString, b: Byte): State {
    if b == CR || b == LF then Resolved(buf)
    else if b == ETX || buf == [] then Aborted
    else Resolved(buf)
  }

  /** The phrase typed so far, after one byte that does not end it. */
  function Typed(buf: JsString, b: Byte): JsString {
    if Erases(b) then (if buf == [] then buf else buf[..|buf| - 1])
    else if Shows(b) then buf + [b]
    else buf
  }

  function Press(s: State, b: Byte): State {
    if !s.Open? then s else if Ends(b) then Ending(s.buf, b) else Open(Typed(s.buf, b))
  }

  function PressAll(s: State, bytes: Bytes): State
    decreases |bytes|
  {
    if bytes == [] then s else PressAll(Press(s, bytes[0]), bytes[1..])
  }

  /** One call of promptPhrase, with its listener and the terminal mode it changes. */
  class Listener {
    var state: State
    var listening: bool
    var raw: bool
    const wasRaw: bool

    constructor (raw: bool)
      ensures state == Open([]) && listening && this.raw && wasRaw == raw
    {
      state, listening, this.raw, wasRaw := Open([]), true, true, raw;
    }

    predicate Valid()
      reads this
    {
      (listening <==> state.Open?) && raw == (listening || wasRaw)
    }

    /** Takes one chunk. After the phrase ends the rest is dropped and the terminal restored. */
    method OnData(chunk: Bytes)
      requires Valid()
      modifies this
      ensures Valid() && state == PressAll(old(state), chunk)
    {
      if !listening {
        PressEnded(state, chunk);
        return;
      }
      for i := 0 to |chunk|
        invariant listening && raw && state.Open?
        invariant PressAll(old(state), chunk) == PressAll(state, chunk[i..])
      {
        assert chunk[i..][1..] == chunk[i + 1..];
        var b := chunk[i];
        var buf := state.buf;
        if Ends(b) {
          state := Ending(buf, b);
          listening, raw := false, wasRaw;
          PressEnded(state, chunk[i + 1..]);
          return;
        }
        state := Open(Typed(buf, b));
      }
    }

    method OnChunks(chunks: seq<Bytes>)
      requires Valid()
      modifies this
      ensures Valid() && state == PressAll(old(state), Flat(chunks))
    {
      for i := 0 to |chunks|
        invariant Valid()
        invariant PressAll(old(state), Flat(chunks)) == PressAll(state, Flat(chunks[i..]))
      {
        PressSplit(state, chunks[i], Flat(chunks[i..][1..]));
        assert chunks[i..][1..] == chunks[i + 1..];
        OnData(chunks[i]);
      }
    }
  }

  lemma {:induction false} PressEnded(s: State, bytes: Bytes)
    requires !s.Open?
    ensures PressAll(s, bytes) == s
  {
    if bytes != [] {
      PressEnded(s, bytes[1..]);
    }
  }

  lemma {:induction false} PressSplit(s: State, a: Bytes, b: Bytes)
    ensures PressAll(s, a + b) == PressAll(PressAll(s, a), b)
    decreases |a|
  {
    if a == [] {
      assert a + b == b;
    } else {
      assert (a + b)[1..] == a[1..] + b;
      PressSplit(Press(s, a[0]), a[1..], b);
    }
  }

  /** Two deliveries of the same bytes, however cut, end alike. */
  lemma ChunksDoNotMatter(s: State, xs: seq<Bytes>, ys: seq<Bytes>)
    requires Flat(xs) == Flat(ys)
    ensures RunChunks(s, xs) == RunChunks(s, ys)
  {
    RunIsFlat(s, xs);
    RunIsFlat(s, ys);
  }

  function RunChunks(s: State, chunks: seq<Bytes>): State
    decreases |chunks|
  {
    if chunks == [] then s else RunChunks(PressAll(s, chunks[0]), chunks[1..])
  }

  lemma {:induction false} RunIsFlat(s: State, chunks: seq<Bytes>)
    ensures RunChunks(s, chunks) == PressAll(s, Flat(chunks))
    decreases |chunks|
  {
    if chunks != [] {
      PressSplit(s, chunks[0], Flat(chunks[1..]));
      RunIsFlat(PressAll(s, chunks[0]), chunks[1..]);
    }
  }

  // -------- What the outcome depends on --------

  predicate NoEnd(bytes: Bytes) { forall i :: 0 <= i < |bytes| ==> !Ends(bytes[i]) }

  /** The phrase that bytes leave on the stack. */
  function Stack(bytes: Bytes): JsString {
    if bytes == [] then [] else Typed(Stack(bytes[..|bytes| - 1]), bytes[|bytes| - 1])
  }

  lemma {:induction false} OpenIsStack(bytes: Bytes)
    requires NoEnd(bytes)
    ensures PressAll(Open([]), bytes) == Open(Stack(bytes))
  {
    if bytes != [] {
      var n := |bytes| - 1;
      OpenIsStack(bytes[..n]);
      PressSplit(Open([]), bytes[..n], [bytes[n]]);
      assert bytes == bytes[..n] + [bytes[n]];
      var s := Open(Stack(bytes[..n]));
      assert PressAll(s, [bytes[n]]) == Press(s, bytes[n]);
    }
  }

  /** The first CR, LF, Ctrl-C or Ctrl-D decides, and what follows it is ignored: CR and LF give what is
      on the stack, even nothing; Ctrl-C aborts; Ctrl-D gives it, or aborts if there is nothing. */
  lemma FirstEndDecides(typed: Bytes, b: Byte, rest: Bytes)
    requires forall i :: 0 <= i < |typed| ==> typed[i] !in [0x0D, 0x0A, 0x03, 0x04]
    requires b in [0x0D, 0x0A, 0x03, 0x04]
    ensures PressAll(Open([]), typed + ([b] + rest)) ==
      if b == 0x03 || (b == 0x04 && Stack(typed) == []) then Aborted else Resolved(Stack(typed))
  {
    OpenIsStack(typed);
    PressSplit(Open([]), typed, [b] + rest);
    assert ([b] + rest)[1..] == rest;
    PressEnded(Ending(Stack(typed), b), rest);
  }

  lemma StackLast(a: Bytes, b: Byte)
    ensures Stack(a + [b]) == Typed(Stack(a), b)
  {
    assert (a + [b])[..|a|] == a;
  }

  lemma {:induction false} StackSplit(a: Bytes, x: Bytes, b: Bytes)
    requires Stack(a + x) == Stack(a)
    ensures Stack(a + x + b) == Stack(a + b)
    decreases |b|
  {
    hide Stack, Typed;
    if b == [] {
      assert a + x + b == a + x && a + b == a;
    } else {
      var init, last := b[..|b| - 1], b[|b| - 1];
      StackSplit(a, x, init);
      assert a + x + b == (a + x + init) + [last] && a + b == (a + init) + [last];
      StackLast(a + x + init, last);
      StackLast(a + init, last);
    }
  }

  /** Anywhere in the input: a shown byte and an erasing byte right after it cancel; other control
      bytes vanish; and an erasing byte vanishes where nothing is left before it. */
  lemma Cancels(a: Bytes, x: Byte, e: Byte, b: Bytes)
    ensures x >= 0x20 && x != 0x7F && (e == 0x08 || e == 0x7F) ==> Stack(a + [x, e] + b) == Stack(a + b)
    ensures x < 0x20 && x != 0x08 ==> Stack(a + [x] + b) == Stack(a + b)
    ensures (e == 0x08 || e == 0x7F) && Stack(a) == [] ==> Stack(a + [e] + b) == Stack(a + b)
  {
    StackLast(a, x);
    StackLast(a, e);
    StackLast(a + [x], e);
    assert a + [x, e] == a + [x] + [e];
    if Shows(x) && Erases(e) {
      StackSplit(a, [x, e], b);
    }
    if !Shows(x) && !Erases(x) {
      StackSplit(a, [x], b);
    }
    if Erases(e) && Stack(a) == [] {
      StackSplit(a, [e], b);
    }
  }

  lemma {:induction false} ShownIsKept(bytes: Bytes)
    requires forall i :: 0 <= i < |bytes| ==> bytes[i] >= 0x20 && bytes[i] != 0x7F
    ensures Stack(bytes) == bytes
  {
    if bytes != [] {
      var n := |bytes| - 1;
      ShownIsKept(bytes[..n]);
      assert bytes == bytes[..n] + [bytes[n]];
    }
  }

  // -------- Text outside ASCII --------

  predicate Ascii(s: JsString) { forall i :: 0 <= i < |s| ==> s[i] < 0x80 }

  lemma {:induction false} AsciiIsItself(s: JsString)
    requires Ascii(s)
    ensures TextEncode(s) == s && WellFormed(s)
  {
    if s != [] {
      AsciiIsItself(s[1..]);
      assert TextEncode(s) == EncodeScalar(s[0]) + TextEncode(s[1..]) by {
        assert ToScalars(s)[1..] == ToScalars(s[1..]);
      }
      assert [s[0]] + s[1..] == s;
    }
  }

  lemma {:induction false} EncodedIsShown(text: JsString)
    requires WellFormed(text) && forall i :: 0 <= i < |text| ==> text[i] >= 0x20 && text[i] != 0x7F
    ensures forall i :: 0 <= i < |TextEncode(text)| ==> TextEncode(text)[i] >= 0x20 && TextEncode(text)[i] != 0x7F
    decreases |text|
  {
    if text != [] {
      var cs := ToScalars(text);
      var n := if StartsPair(text) then 2 else 1;
      assert cs[1..] == ToScalars(text[n..]);
      EncodedIsShown(text[n..]);
      ScalarIsShown(cs[0]);
      assert TextEncode(text) == EncodeScalar(cs[0]) + TextEncode(text[n..]);
    }
  }

  lemma ScalarIsShown(c: Scalar)
    requires c >= 0x20 && c != 0x7F
    ensures forall i :: 0 <= i < |EncodeScalar(c)| ==> EncodeScalar(c)[i] >= 0x20 && EncodeScalar(c)[i] != 0x7F
  {
  }

  /** A text typed as UTF-8 comes back as that text iff it is ASCII: every other character
      becomes two to four characters, one for each of its bytes. */
  lemma TypedTextIff(text: JsString)
    requires WellFormed(text) && forall i :: 0 <= i < |text| ==> text[i] >= 0x20 && text[i] != 0x7F
    ensures Stack(TextEncode(text)) == text <==> Ascii(text)
    ensures TextEncode(Stack(TextEncode(text))) == TextEncode(text) <==> Ascii(text)
  {
    hide TextEncode, Stack;
    EncodedIsShown(text);
    ShownIsKept(TextEncode(text));
    if Ascii(text) {
      AsciiIsItself(text);
    } else {
      EncodedIsNotAscii(text);
      BytesEncodeAlike(text);
    }
  }

  lemma {:induction false} EncodedIsNotAscii(text: JsString)
    requires WellFormed(text) && !Ascii(text)
    ensures exists i :: 0 <= i < |TextEncode(text)| && TextEncode(text)[i] >= 0x80
    decreases |text|
  {
    var cs := ToScalars(text);
    var n := if StartsPair(text) then 2 else 1;
    assert cs[1..] == ToScalars(text[n..]);
    var head := EncodeScalar(cs[0]);
    assert TextEncode(text) == head + TextEncode(text[n..]);
    if cs[0] >= 0x80 {
      assert head[0] >= 0x80 && TextEncode(text)[0] == head[0];
    } else {
      assert !Ascii(text[1..]) by {
        var i :| 0 <= i < |text| && text[i] >= 0x80;
        assert text[1..][i - 1] == text[i];
      }
      EncodedIsNotAscii(text[1..]);
      var i :| 0 <= i < |TextEncode(text[1..])| && TextEncode(text[1..])[i] >= 0x80;
      assert TextEncode(text)[|head| + i] == TextEncode(text[1..])[i];
    }
  }

  /** Text whose encoding is the text itself has no unit beyond ASCII. */
  lemma BytesEncodeAlike(text: JsString)
    requires WellFormed(text) && !Ascii(text)
    ensures TextEncode(text) != text
    ensures TextEncode(TextEncode(text)) != TextEncode(text)
  {
    var b: JsString := TextEncode(text);
    EncodedIsNotAscii(text);
    LongerUnlessAscii(b);
  }

  /** Encoding units below 256 lengthens them unless all are ASCII. */
  lemma {:induction false} LongerUnlessAscii(s: JsString)
    requires forall i :: 0 <= i < |s| ==> s[i] < 0x100
    ensures |TextEncode(s)| >= |s| && (!Ascii(s) ==> |TextEncode(s)| > |s|)
    ensures WellFormed(s)
  {
    if s != [] {
      LongerUnlessAscii(s[1..]);
      assert ToScalars(s)[1..] == ToScalars(s[1..]);
    }
  }
}
