/** Every exported form of a vault parses back to that vault, up to the order of keys. */
module ExportTheorems {
  import opened Prelude
  import opened Utf
  import opened Json
  import opened JsonTheorems
  import opened Canonical
  import opened CanonicalTheorems
  import opened Aad
  import opened Vault
  import opened VaultTheorems
  import opened Exports
  import opened Markers

  // -------- Sheets --------

  lemma {:induction false} JoinSum(xs: seq<JsString>, ys: seq<JsString>)
    requires xs != [] && ys != []
    ensures JoinLines(xs + ys) == JoinLines(xs) + ([NEWLINE] + JoinLines(ys))
    decreases |xs|
  {
    assert (xs + ys)[1..] == xs[1..] + ys;
    if |xs| > 1 {
      JoinSum(xs[1..], ys);
      Regroup(xs[0], [NEWLINE] + JoinLines(xs[1..]), [NEWLINE] + JoinLines(ys));
      Regroup([NEWLINE], JoinLines(xs[1..]), [NEWLINE] + JoinLines(ys));
    }
  }

  lemma {:induction false} JoinOfSplit(s: JsString)
    ensures JoinLines(SplitLines(s)) == s
  {
    if s != [] {
      var rest := SplitLines(s[1..]);
      JoinOfSplit(s[1..]);
      if s[0] == NEWLINE {
        JoinSum([[]], rest);
        assert [] + ([NEWLINE] + s[1..]) == s;
      } else {
        var lines := [[s[0]] + rest[0]] + rest[1..];
        if |rest| == 1 {
          assert lines == [[s[0]] + rest[0]];
        } else {
          assert lines[1..] == rest[1..];
          Regroup([s[0]], rest[0], [NEWLINE] + JoinLines(rest[1..]));
        }
        assert [s[0]] + s[1..] == s;
      }
    }
  }

  lemma {:induction false} LinesAbsent(m: JsString, lines: seq<JsString>)
    requires MarkerLike(m) && lines != [] && forall i :: 0 <= i < |lines| ==> Absent(m, lines[i])
    ensures Absent(m, JoinLines(lines))
    decreases |lines|
  {
    if |lines| > 1 {
      LinesAbsent(m, lines[1..]);
      Sandwich(m, lines[0], NEWLINE, JoinLines(lines[1..]));
    }
  }

  lemma ShortIsAbsent(m: JsString, s: JsString)
    requires |s| < |m|
    ensures Absent(m, s)
  {
  }

  /** A dash-free start, a clean value, and an end without the marker's letters. */
  lemma FieldAbsent(m: JsString, a: JsString, s: JsString, b: JsString)
    requires MarkerLike(m) && DASH !in a && Absent(m, s)
    requires b == [] || (|b| >= 2 && b[0] == SPACE && b[1] == LPAREN && 0x59 !in b)
    ensures Absent(m, a + s + b)
  {
    assert a + s + b == a + (s + b);
    if b == [] {
      assert s + b == s;
    } else {
      MissingUnit(m, 0x59, b);
      forall i: nat ensures !Occurs(m, s + b, i) {
        if i + |m| <= |s| {
          OccursIn(m, [], s, b, i);
          assert s + b == [] + (s + b);
        } else if i + |m| <= |s + b| {
          if i >= |s| {
            OccursIn(m, s, b, [], i - |s|);
            assert s + b == s + (b + []);
          } else if i + |m| == |s| + 1 {
            assert (s + b)[i..i + |m|][|m| - 1] == SPACE;
          } else {
            assert (s + b)[i..i + |m|][|s| + 1 - i] == LPAREN;
          }
        }
      }
    }
    NoDashOnto(m, a, s + b);
  }

  /** A line that cannot hold a marker, because of its own text or of the value in it. */
  ghost predicate Benign(m: JsString, l: Line) {
    match l
    case Fixed(_) => true
    case Hyphenated(parts) => forall i :: 0 <= i < |parts| ==> parts[i] != []
    case Ruled(_) => true
    case Field(before, value, after) =>
      && Absent(m, value)
      && (after == [] || (|after| >= 2 && after[0] == SPACE && after[1] == LPAREN && 0x59 !in after))
  }

  lemma AsciiWithout(t: string, c: char)
    requires c !in t && c as int < 0x80 && c != '?'
    ensures c as int !in Ascii(t)
  {
  }

  lemma RepeatWithout(u: Unit, n: nat, c: Unit)
    requires u != c
    ensures c !in Repeat(u, n)
  {
  }

  predicate NoDouble(s: JsString) { forall i :: 0 <= i < |s| - 1 && s[i] == DASH ==> s[i + 1] != DASH }

  lemma {:induction false} HyphenedHasNoDouble(parts: seq<string>)
    requires forall i :: 0 <= i < |parts| ==> parts[i] != []
    ensures NoDouble(Hyphened(parts)) && (parts != [] ==> Hyphened(parts) != [] && Hyphened(parts)[0] != DASH)
  {
    if |parts| > 1 {
      HyphenedHasNoDouble(parts[1..]);
    }
  }

  lemma NoDoubleAbsent(m: JsString, s: JsString)
    requires MarkerLike(m) && NoDouble(s)
    ensures Absent(m, s)
  {
    forall i: nat ensures !Occurs(m, s, i) {
      if i + |m| <= |s| {
        assert s[i..i + |m|][0] == s[i] && s[i..i + |m|][1] == s[i + 1];
      }
    }
  }

  lemma BenignAbsent(m: JsString, l: Line)
    requires MarkerLike(m) && Benign(m, l)
    ensures Absent(m, Render(l))
  {
    match l
    case Fixed(t) => MissingUnit(m, DASH, Ascii(t));
    case Hyphenated(parts) =>
      HyphenedHasNoDouble(parts);
      NoDoubleAbsent(m, Hyphened(parts));
    case Ruled(u) =>
      RepeatWithout(u, 54, if u == 0x59 then 0x46 else 0x59);
      MissingUnit(m, if u == 0x59 then 0x46 else 0x59, Repeat(u, 54));
    case Field(before, value, after) => FieldAbsent(m, Ascii(before), value, after);
  }

  ghost predicate AllBenign(m: JsString, ls: seq<Line>) { forall i :: 0 <= i < |ls| ==> Benign(m, ls[i]) }

  lemma TitleBenign(m: JsString, w: Vault)
    requires Absent(m, w.header.createdAt)
    ensures AllBenign(m, Title(w))
  {
  }

  lemma TwoThingsBenign(m: JsString, fileName: JsString)
    requires Absent(m, fileName)
    ensures AllBenign(m, TwoThings(fileName))
  {
  }

  lemma PhraseBenign(m: JsString)
    ensures AllBenign(m, Phrase())
  {
  }

  lemma RecordsBenign(m: JsString)
    ensures AllBenign(m, Records())
  {
  }

  lemma HowToOpenBenign(m: JsString)
    ensures AllBenign(m, HowToOpen())
  {
  }

  lemma MachineCopyBenign(m: JsString)
    ensures AllBenign(m, MachineCopy())
  {
  }

  lemma CodesBenign(m: JsString, w: Vault)
    requires Absent(m, w.header.salt) && Absent(m, w.header.wrapNonce) && Absent(m, w.header.contentNonce)
    ensures AllBenign(m, Codes(w)) && AllBenign(m, ContentCodes(w))
  {
  }

  lemma BoxStyleBenign(m: JsString, w: Vault, envelopeId: JsString)
    requires MarkerLike(m) && Absent(m, envelopeId) && Absent(m, w.header.schema) && Absent(m, w.header.version)
    ensures AllBenign(m, BoxStyle(w, envelopeId))
  {
    ShortIsAbsent(m, ModeWords(w));
  }

  lemma SizesBenign()
    ensures 0x59 !in Sizes() && |Sizes()| >= 2 && Sizes()[0] == SPACE && Sizes()[1] == LPAREN
  {
    var parts := [" (24", "byte nonce, 16", "byte tag)"];
    AsciiWithout(parts[0], 'Y');
    AsciiWithout(parts[1], 'Y');
    AsciiWithout(parts[2], 'Y');
    assert Hyphened(parts[2..]) == Ascii(parts[2]);
    assert parts[1..][1..] == parts[2..];
    assert Hyphened(parts[1..]) == Ascii(parts[1]) + ([DASH] + Ascii(parts[2]));
  }

  lemma NoteBenign(h: Header)
    ensures var b := KdfNote(h); |b| >= 2 && b[0] == SPACE && b[1] == LPAREN && 0x59 !in b
    ensures var b := Sizes(); |b| >= 2 && b[0] == SPACE && b[1] == LPAREN && 0x59 !in b
  {
    AsciiWithout(" (work units ", 'Y');
    AsciiWithout(", memory ", 'Y');
    AsciiWithout(" MiB)", 'Y');
    SizesBenign();
    assert 0x59 !in PrintInt(h.opslimit) && 0x59 !in PrintInt(Mebibytes(h.memlimit));
  }

  lemma RecipeBenign(m: JsString, w: Vault)
    requires Absent(m, w.header.wrapAlgorithm) && Absent(m, w.header.contentAlgorithm) && Absent(m, w.header.kdfAlgorithm)
    ensures AllBenign(m, Recipe(w))
  {
    NoteBenign(w.header);
    hide KdfNote, Ascii;
  }

  lemma {:induction false} ChunksBenign(m: JsString, s: JsString)
    requires Absent(m, s)
    ensures AllBenign(m, Chunks(s))
  {
    if |s| > 64 {
      AbsentPart(m, s, 0, 64);
      AbsentPart(m, s, 64, |s|);
      assert s[0..64] == s[..64] && s[64..|s|] == s[64..];
      ChunksBenign(m, s[64..]);
    }
  }

  /** No string put into the sheet holds the marker m. */
  ghost predicate Clean(m: JsString, w: Vault, fileName: JsString, envelopeId: JsString) {
    && Absent(m, fileName) && Absent(m, envelopeId) && CleanVault(m, w)
  }

  ghost predicate CleanVault(m: JsString, w: Vault) {
    && Absent(m, w.header.createdAt) && Absent(m, w.header.schema) && Absent(m, w.header.version) && Absent(m, w.header.mode)
    && Absent(m, w.header.wrapAlgorithm) && Absent(m, w.header.contentAlgorithm) && Absent(m, w.header.kdfAlgorithm)
    && Absent(m, w.header.salt) && Absent(m, w.header.wrapNonce) && Absent(m, w.header.contentNonce)
    && Absent(m, w.wrappedKey) && Absent(m, w.ciphertext)
  }

  lemma ExplanationBenign(m: JsString, w: Vault, fileName: JsString)
    requires Absent(m, w.header.createdAt) && Absent(m, fileName)
    ensures AllBenign(m, Explanation(w, fileName))
  {
    hide Benign, Title, TwoThings, Phrase, Records, Absent;
    TitleBenign(m, w);
    TwoThingsBenign(m, fileName);
    PhraseBenign(m);
    RecordsBenign(m);
  }

  lemma DescriptionBenign(m: JsString, w: Vault, envelopeId: JsString)
    requires MarkerLike(m) && CleanVault(m, w) && Absent(m, envelopeId)
    ensures AllBenign(m, Description(w, envelopeId))
  {
    BoxStyleBenign(m, w, envelopeId);
    RecipeBenign(m, w);
    CodesBenign(m, w);
  }

  lemma BeforeBoxBenign(m: JsString, w: Vault, fileName: JsString, envelopeId: JsString)
    requires MarkerLike(m) && Clean(m, w, fileName, envelopeId)
    ensures AllBenign(m, BeforeBox(w, fileName, envelopeId))
  {
    hide MarkerLike, Absent, Explanation, Description, ContentCodes, Instructions;
    ExplanationBenign(m, w, fileName);
    DescriptionBenign(m, w, envelopeId);
    ChunksBenign(m, w.wrappedKey);
    CodesBenign(m, w);
    ChunksBenign(m, w.ciphertext);
    assert AllBenign(m, Instructions()) by { InstructionsBenign(m); }
  }

  lemma InstructionsBenign(m: JsString)
    ensures AllBenign(m, Instructions())
  {
    hide Benign, HowToOpen, MachineCopy;
    HowToOpenBenign(m);
    MachineCopyBenign(m);
  }

  lemma RenderedAbsent(m: JsString, ls: seq<Line>)
    requires MarkerLike(m) && AllBenign(m, ls) && ls != []
    ensures Absent(m, JoinLines(RenderAll(ls)))
  {
    forall i | 0 <= i < |ls| ensures Absent(m, RenderAll(ls)[i]) {
      BenignAbsent(m, ls[i]);
    }
    LinesAbsent(m, RenderAll(ls));
  }

  // -------- A stored vault holds the marker only in its strings --------

  lemma RecordAbsent(m: JsString, keys: seq<JsString>, values: seq<Value>)
    requires |keys| == |values|
    requires forall i :: 0 <= i < |keys| ==> |keys[i]| < |m| && AbsentIn(m, values[i])
    ensures AbsentIn(m, Record(keys, values))
  {
    var ms := Record(keys, values).members;
    forall i | 0 <= i < |ms| ensures AbsentInMember(m, ms[i]) {
      ShortIsAbsent(m, keys[i]);
    }
  }

  lemma VaultAbsent(m: JsString, w: Vault)
    requires MarkerLike(m) && CleanVault(m, w)
    ensures AbsentIn(m, VaultValue(w))
  {
    RecordAbsent(m, STORED_KDF_KEYS, [Str(w.header.kdfAlgorithm), Num(w.header.opslimit), Num(w.header.memlimit), Str(w.header.salt)]);
    RecordAbsent(m, WRAP_KEYS, [Str(w.header.wrapAlgorithm), Str(w.header.wrapNonce), Str(w.wrappedKey)]);
    RecordAbsent(m, CONTENT_KEYS, [Str(w.header.contentAlgorithm), Str(w.header.contentNonce), Str(w.ciphertext)]);
    RecordAbsent(m, VAULT_KEYS, VaultValues(w));
  }

  // -------- Trimming --------

  lemma TrimSolid(s: JsString)
    requires s != [] && !IsJsSpace(s[0]) && !IsJsSpace(s[|s| - 1])
    ensures Trim(s) == s && Trim(s + [NEWLINE]) == s && Trim([NEWLINE] + s + [NEWLINE]) == s
  {
    assert (s + [NEWLINE])[..|s|] == s;
    assert ([NEWLINE] + s + [NEWLINE])[1..] == s + [NEWLINE];
    assert TrimLeft([NEWLINE] + s + [NEWLINE]) == TrimLeft(s + [NEWLINE]) == s + [NEWLINE];
    assert TrimRight(s + [NEWLINE]) == TrimRight(s) == s;
  }

  // -------- The JSON form --------

  /** The printed object: it parses back, starts and ends with its braces, and holds no marker
      that its strings do not hold. */
  lemma PrintedObject(m: JsString, v: Value)
    requires Proper(v) && v.Obj? && MarkerLike(m) && AbsentIn(m, v)
    ensures var t := JsonForm(v);
      t != [] && t[0] == LBRACE && t[|t| - 1] == RBRACE && Absent(m, t) && Parse(t) == Some(v)
  {
    var t := JsonForm(v);
    ParsePrint(v, Pretty, [], []);
    assert [] + PrintOnto(v, Pretty, 0, []) == t;
    ShortIsAbsent(m, []);
    SafePrint(m, [], v, Pretty, 0, []);
    PrintedEnd(m, v);
  }

  lemma PrintedEnd(m: JsString, v: Value)
    requires v.Obj? && MarkerLike(m) && AbsentIn(m, v)
    ensures EndsWith(JsonForm(v), [RBRACE])
  {
    ShortIsAbsent(m, [RBRACE]);
    assert [RBRACE] + [] == [RBRACE];
    assert Safe(m, [RBRACE], [RBRACE]);
    if v.members != [] {
      SafeBreak(m, [RBRACE], Pretty, 0, [RBRACE]);
      var close := Break(Pretty, 0) + ([RBRACE] + []);
      SafeMembers(m, [RBRACE], v.members, Pretty, 1, close);
      var inner := MembersOnto(v.members, Pretty, 1, close);
      SafeBreak(m, [RBRACE], Pretty, 1, inner);
      EndsOnto([LBRACE], Break(Pretty, 1) + inner, [RBRACE]);
    } else {
      EndsOnto([LBRACE], [RBRACE], [RBRACE]);
    }
  }

  /** The file form of any object parses back to it exactly, if one marker is in none of its strings. */
  lemma JsonFormParses(m: JsString, v: Value)
    requires Proper(v) && v.Obj? && AbsentIn(m, v) && (m == BEGIN_MARKER || m == END_MARKER)
    ensures ParseVaultInput(JsonForm(v)) == Ok(v)
  {
    hide MarkerLike, AbsentIn, Absent, JsonForm, Proper, Trim, IndexOf;
    BeginIsMarkerLike();
    EndIsMarkerLike();
    var t := JsonForm(v);
    PrintedObject(m, v);
    TrimSolid(t);
    IndexOfAbsent(t, m);
    assert TEXT_PREFIX_V2[0] != LBRACE && TEXT_PREFIX_V1[0] != LBRACE;
  }

  // -------- The text form --------

  lemma CanonicalText(v: Value)
    requires Proper(v)
    ensures WellFormed(CanonicalJSON(v)) && Parse(CanonicalJSON(v)) == Some(Norm(v)) && Same(Norm(v), v)
    ensures v.Obj? ==> CanonicalJSON(v) != [] && CanonicalJSON(v)[0] == LBRACE
  {
    ParseCanonical(v);
    CanonicalIsPrint(v, 0, []);
    assert CanonicalJSON(v) + [] == CanonicalJSON(v);
    PrintWellFormed(Norm(v), Compact, 0, []);
  }

  lemma ParseTextOfCanonical(v: Value)
    requires Proper(v) && v.Obj?
    ensures ParseText(B64.Encode(TextEncode(CanonicalJSON(v)))) == Ok(Norm(v))
  {
    CanonicalText(v);
    DecodeOfEncode(CanonicalJSON(v));
    B64.AllDecodeEncode(TextEncode(CanonicalJSON(v)));
  }

  lemma UrlUnitIsSolid(u: Unit)
    requires B64.IsUrlUnit(u)
    ensures !IsJsSpace(u)
  {
  }

  lemma PrefixedText(prefix: JsString, enc: JsString)
    requires prefix == TEXT_PREFIX_V1 || prefix == TEXT_PREFIX_V2
    requires forall i :: 0 <= i < |enc| ==> B64.IsUrlUnit(enc[i])
    requires enc != []
    ensures ParseVaultInput(prefix + enc) == ParseText(enc)
  {
    var t := prefix + enc;
    UrlUnitIsSolid(enc[|enc| - 1]);
    forall i | 0 <= i < |t| ensures t[i] != SPACE {
      if i >= |prefix| { UrlUnitIsSolid(enc[i - |prefix|]); }
    }
    assert SPACE !in t && BEGIN_MARKER[5] == SPACE;
    MissingUnit(BEGIN_MARKER, SPACE, t);
    IndexOfAbsent(t, BEGIN_MARKER);
    TrimSolid(t);
    assert t[|prefix|..] == enc && t[..|prefix|] == prefix;
    hide Absent, ParseText;
    if prefix == TEXT_PREFIX_V1 {
      assert TEXT_PREFIX_V1[11] != TEXT_PREFIX_V2[11];
    }
  }

  /** The copied text of any object parses back to it up to the order of its keys. */
  lemma TextFormParses(v: Value)
    requires Proper(v) && v.Obj?
    ensures ParseVaultInput(TextForm(v)) == Ok(Norm(v)) && Same(Norm(v), v)
  {
    var b := TextEncode(CanonicalJSON(v));
    ParseTextOfCanonical(v);
    CanonicalText(v);
    B64.DecodeOfEncode(b);
    EncodedNotEmpty(CanonicalJSON(v));
    PrefixedText(if Get(v, K_SCHEMA) == Some(Str(SCHEMA_V1)) then TEXT_PREFIX_V1 else TEXT_PREFIX_V2, B64.Encode(b));
  }

  lemma EncodedNotEmpty(s: JsString)
    requires s != []
    ensures TextEncode(s) != []
  {
  }

  // -------- The sheet form --------

  lemma NotBefore(m: JsString, before: JsString, rest: JsString, i: nat)
    requires MarkerLike(m) && Absent(m, before) && i <= |before|
    ensures !Occurs(m, before + ([NEWLINE] + rest), i)
  {
    var s := before + ([NEWLINE] + rest);
    if i + |m| <= |before| {
      OccursIn(m, [], before, [NEWLINE] + rest, i);
      assert s == [] + (before + ([NEWLINE] + rest));
    } else if i + |m| <= |s| {
      assert s[i..i + |m|][|before| - i] == NEWLINE;
    }
  }

  lemma FirstAfter(m: JsString, before: JsString, after: JsString)
    requires MarkerLike(m) && Absent(m, before)
    ensures IndexOf(before + ([NEWLINE] + (m + after)), m) == Some(|before| + 1)
  {
    hide MarkerLike, Absent;
    var s := before + ([NEWLINE] + (m + after));
    assert Occurs(m, s, |before| + 1) by {
      assert s[|before| + 1..|before| + 1 + |m|] == m;
    }
    forall i: nat | i < |before| + 1 ensures !Occurs(m, s, i) {
      NotBefore(m, before, m + after, i);
    }
    IndexOfFirst(s, m, |before| + 1);
  }

  /** The five parts of a sheet, as one text. */
  function Laid(before: JsString, json: JsString, after: JsString): JsString {
    before + ([NEWLINE] + (BEGIN_MARKER + ([NEWLINE] + (json + ([NEWLINE] + (END_MARKER + ([NEWLINE] + after)))))))
  }

  lemma SheetIsLaid(xs: seq<JsString>, json: JsString, ys: seq<JsString>)
    requires xs != [] && ys != []
    ensures JoinLines(xs + [BEGIN_MARKER] + SplitLines(json) + [END_MARKER] + ys) == Laid(JoinLines(xs), json, JoinLines(ys))
  {
    var vs := SplitLines(json);
    JoinOfSplit(json);
    assert xs + [BEGIN_MARKER] + vs + [END_MARKER] + ys == xs + ([BEGIN_MARKER] + (vs + ([END_MARKER] + ys)));
    JoinSum([END_MARKER], ys);
    JoinSum(vs, [END_MARKER] + ys);
    JoinSum([BEGIN_MARKER], vs + ([END_MARKER] + ys));
    JoinSum(xs, [BEGIN_MARKER] + (vs + ([END_MARKER] + ys)));
  }

  lemma EndMarkerPlace(before: JsString, json: JsString, after: JsString)
    requires Absent(END_MARKER, before) && Absent(END_MARKER, json)
    ensures IndexOf(Laid(before, json, after), END_MARKER) == Some(|before| + |BEGIN_MARKER| + |json| + 3)
  {
    hide Absent, MarkerLike, IndexOf;
    EndIsMarkerLike();
    EndNotInBegin();
    var first := before + ([NEWLINE] + (BEGIN_MARKER + ([NEWLINE] + json)));
    EndHasNoNewline();
    Sandwich(END_MARKER, BEGIN_MARKER, NEWLINE, json);
    Sandwich(END_MARKER, before, NEWLINE, BEGIN_MARKER + ([NEWLINE] + json));
    FirstAfter(END_MARKER, first, [NEWLINE] + after);
    LaidTwice(before, json, after);
  }

  lemma EndHasNoNewline()
    ensures NEWLINE !in END_MARKER
  {
    EndIsPlain();
  }

  /** Where the parser finds the markers of a laid-out sheet, and what is between them. */
  lemma LaidMarkers(before: JsString, json: JsString, after: JsString)
    requires Absent(BEGIN_MARKER, before) && Absent(END_MARKER, before) && Absent(END_MARKER, json)
    ensures var t := Laid(before, json, after);
      && IndexOf(t, BEGIN_MARKER) == Some(|before| + 1)
      && IndexOf(t, END_MARKER) == Some(|before| + |BEGIN_MARKER| + |json| + 3)
      && Between(t, |before| + 1 + |BEGIN_MARKER|, |before| + |BEGIN_MARKER| + |json| + 3) == [NEWLINE] + json + [NEWLINE]
  {
    hide Absent, IndexOf, MarkerLike;
    BeginIsMarkerLike();
    FirstAfter(BEGIN_MARKER, before, [NEWLINE] + (json + ([NEWLINE] + (END_MARKER + ([NEWLINE] + after)))));
    EndMarkerPlace(before, json, after);
    LaidTwice(before, json, after);
  }

  lemma LaidTwice(before: JsString, json: JsString, after: JsString)
    ensures var t := Laid(before, json, after);
      && t == before + ([NEWLINE] + (BEGIN_MARKER + ([NEWLINE] + json))) + ([NEWLINE] + (END_MARKER + ([NEWLINE] + after)))
      && t[|before| + 1 + |BEGIN_MARKER|..|before| + |BEGIN_MARKER| + |json| + 3] == [NEWLINE] + json + [NEWLINE]
  {
  }

  lemma EndNotInBegin()
    ensures Absent(END_MARKER, BEGIN_MARKER)
  {
    EndHasUnits();
    BeginIsPlain();
    MissingUnit(END_MARKER, 0x44, BEGIN_MARKER);
  }

  lemma LaidParses(raw: JsString, before: JsString, json: JsString, after: JsString, v: Value)
    requires Trim(raw) == Laid(before, json, after) != []
    requires Absent(BEGIN_MARKER, before) && Absent(END_MARKER, before) && Absent(END_MARKER, json)
    requires json != [] && json[0] == LBRACE && json[|json| - 1] == RBRACE && Parse(json) == Some(v)
    ensures ParseVaultInput(raw) == Ok(v)
  {
    hide Absent, Laid, Trim, IndexOf, Parse, Between;
    LaidMarkers(before, json, after);
    TrimSolid(json);
  }

  lemma BeforeBoxAbsent(m: JsString, w: Vault, fileName: JsString, envelopeId: JsString)
    requires m == BEGIN_MARKER || m == END_MARKER
    requires Clean(m, w, fileName, envelopeId) && BeforeBox(w, fileName, envelopeId) != []
    ensures Absent(m, JoinLines(RenderAll(BeforeBox(w, fileName, envelopeId))))
  {
    hide MarkerLike, Absent, BeforeBox, Clean;
    BeginIsMarkerLike();
    EndIsMarkerLike();
    BeforeBoxBenign(m, w, fileName, envelopeId);
    RenderedAbsent(m, BeforeBox(w, fileName, envelopeId));
  }

  lemma SheetJson(w: Vault)
    requires CleanVault(END_MARKER, w)
    ensures var t := JsonForm(VaultValue(w));
      && t != [] && t[0] == LBRACE && t[|t| - 1] == RBRACE && Absent(END_MARKER, t)
      && Parse(t) == Some(VaultValue(w))
  {
    hide MarkerLike, Absent, CleanVault, VaultValue, AbsentIn, Proper;
    EndIsMarkerLike();
    VaultAbsent(END_MARKER, w);
    VaultIsProper(w);
    VaultIsObject(w);
    PrintedObject(END_MARKER, VaultValue(w));
  }

  /** The recovery sheet of any V2 vault parses back to it exactly, if neither marker is in a
      string put into the sheet. */
  lemma SheetParses(w: Vault, fileName: JsString, envelopeId: JsString)
    requires w.header.schema == SCHEMA_V2
    requires Clean(BEGIN_MARKER, w, fileName, envelopeId) && Clean(END_MARKER, w, fileName, envelopeId)
    ensures ParseVaultInput(Sheet(w, fileName, envelopeId)) == Ok(VaultValue(w))
  {
    hide Absent, BeforeBox, Closing, Laid, VaultValue, Trim, Sheet, RenderAll, JoinLines, JsonForm, ParseVaultInput, CleanVault;
    var json := JsonForm(VaultValue(w));
    SheetEnds(w, fileName, envelopeId, json);
    BeforeBoxAbsent(BEGIN_MARKER, w, fileName, envelopeId);
    BeforeBoxAbsent(END_MARKER, w, fileName, envelopeId);
    SheetJson(w);
    LaidParses(Sheet(w, fileName, envelopeId), JoinLines(RenderAll(BeforeBox(w, fileName, envelopeId))), json,
               JoinLines(RenderAll(Closing())), VaultValue(w));
  }

  lemma VaultIsObject(w: Vault)
    ensures VaultValue(w).Obj?
  {
  }

  /** A sheet is laid out text between two rules, so trimming takes only its last line end. */
  lemma SheetEnds(w: Vault, fileName: JsString, envelopeId: JsString, json: JsString)
    requires json == JsonForm(VaultValue(w))
    ensures BeforeBox(w, fileName, envelopeId) != []
    ensures Trim(Sheet(w, fileName, envelopeId)) ==
      Laid(JoinLines(RenderAll(BeforeBox(w, fileName, envelopeId))), json, JoinLines(RenderAll(Closing())))
    ensures Trim(Sheet(w, fileName, envelopeId)) != []
  {
    hide Explanation, Description, ContentCodes, Chunks, Instructions, Verify, VerifySteps;
    hide VaultValue, SplitLines, Print, Trim, JoinLines;
    var ls, cs := BeforeBox(w, fileName, envelopeId), Closing();
    assert ls[0] == Ruled(EQUALS) && cs[|cs| - 1] == Ruled(EQUALS);
    var xs, ys := RenderAll(ls), RenderAll(cs);
    SheetIsLaid(xs, json, ys);
    StartOfLines(xs);
    EndOfLines(ys);
    LaidEnds(JoinLines(xs), json, JoinLines(ys));
  }

  lemma LaidEnds(before: JsString, json: JsString, after: JsString)
    requires before != [] && before[0] == EQUALS && after != [] && after[|after| - 1] == EQUALS
    ensures Trim(Laid(before, json, after) + [NEWLINE]) == Laid(before, json, after) != []
  {
    hide Trim;
    TrimSolid(Laid(before, json, after));
  }

  lemma StartOfLines(xs: seq<JsString>)
    requires xs != [] && xs[0] != []
    ensures JoinLines(xs) != [] && JoinLines(xs)[0] == xs[0][0]
  {
  }

  lemma EndOfLines(xs: seq<JsString>)
    requires xs != [] && xs[|xs| - 1] != []
    ensures JoinLines(xs) != [] && JoinLines(xs)[|JoinLines(xs)| - 1] == xs[|xs| - 1][|xs[|xs| - 1]| - 1]
  {
    if |xs| > 1 {
      var last := xs[|xs| - 1];
      JoinSum(xs[..|xs| - 1], [last]);
      assert xs[..|xs| - 1] + [last] == xs;
    }
  }

  // -------- Vaults that sealing builds --------

  lemma EncodedHasNoMarker(m: JsString, b: Bytes)
    requires MarkerLike(m)
    ensures Absent(m, B64.Encode(b))
  {
    B64.DecodeOfEncode(b);
    forall i | 0 <= i < |B64.Encode(b)| ensures B64.Encode(b)[i] != SPACE {
      UrlUnitIsSolid(B64.Encode(b)[i]);
    }
    assert m[5] == SPACE;
    MissingUnit(m, SPACE, B64.Encode(b));
  }

  /** Of a sealed vault, only the time stamp, the version, the file name and the identifier matter. */
  lemma SealedIsClean(m: JsString, c: Crypto, o: EncryptOpts, mat: Material, fileName: JsString, envelopeId: JsString)
    requires MarkerLike(m) && CheckOpts(o).None?
    requires Absent(m, o.createdAt) && Absent(m, o.version) && Absent(m, fileName) && Absent(m, envelopeId)
    ensures Clean(m, Packed(c, NewHeader(o, mat), mat, o.password, o.Bytes()), fileName, envelopeId)
  {
    hide MarkerLike, Absent, B64.Encode;
    var h := NewHeader(o, mat);
    EncodedHasNoMarker(m, mat.salt);
    EncodedHasNoMarker(m, mat.wrapNonce);
    EncodedHasNoMarker(m, mat.contentNonce);
    EncodedHasNoMarker(m, Sealed(c, WrapCall(c, h, mat, o.password)));
    EncodedHasNoMarker(m, Sealed(c, ContentCall(h, mat, o.Bytes())));
    ConstantsAreShort(m, o);
  }

  lemma ConstantsAreShort(m: JsString, o: EncryptOpts)
    requires MarkerLike(m) && CheckOpts(o).None?
    ensures Absent(m, SCHEMA_V2) && Absent(m, KDF_ALG) && Absent(m, AEAD_ALG) && Absent(m, o.Mode())
  {
    assert |MODE_SELF| < 33 && |MODE_SHARE| < 33;
    ShortIsAbsent(m, SCHEMA_V2);
    ShortIsAbsent(m, KDF_ALG);
    ShortIsAbsent(m, AEAD_ALG);
    ShortIsAbsent(m, o.Mode());
  }

  /** Whichever form a vault was kept in, it opens as the vault itself does. */
  lemma EveryFormOpens(c: Crypto, w: Vault, fileName: JsString, envelopeId: JsString, password: JsString)
    requires w.header.schema == SCHEMA_V2
    requires Clean(BEGIN_MARKER, w, fileName, envelopeId) && Clean(END_MARKER, w, fileName, envelopeId)
    ensures forall text :: text in [JsonForm(VaultValue(w)), TextForm(VaultValue(w)), Sheet(w, fileName, envelopeId)] ==>
      ParseVaultInput(text).Ok? && Decrypt(c, ParseVaultInput(text).value, password) == Decrypt(c, VaultValue(w), password)
  {
    hide Clean, CleanVault, Decrypt, ParseVaultInput, JsonForm, TextForm, Sheet, Norm, Same, Proper, VaultValue;
    var v := VaultValue(w);
    VaultIsProper(w);
    VaultIsObject(w);
    CleanIsAbsent(w, fileName, envelopeId);
    JsonFormParses(BEGIN_MARKER, v);
    TextFormParses(v);
    SheetParses(w, fileName, envelopeId);
    NormProper(v);
    DecryptSame(c, Norm(v), v, password);
  }

  lemma CleanIsAbsent(w: Vault, fileName: JsString, envelopeId: JsString)
    requires Clean(BEGIN_MARKER, w, fileName, envelopeId)
    ensures AbsentIn(BEGIN_MARKER, VaultValue(w))
  {
    BeginIsMarkerLike();
    VaultAbsent(BEGIN_MARKER, w);
  }
}
