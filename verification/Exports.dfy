/** The three ways a vault is exported, and the parser that takes all of them back. */
module Exports {
  import opened Prelude
  import opened Utf
  import opened Json
  import opened Canonical
  import opened Aad
  import opened Vault

  const DASH: Unit := 0x2D
  const EQUALS: Unit := 0x3D
  const LPAREN: Unit := 0x28
  /** ----- BEGIN BRY-NFET-SX VAULT ----- */
  const BEGIN_MARKER: JsString := [0x2d, 0x2d, 0x2d, 0x2d, 0x2d, 0x20, 0x42, 0x45, 0x47, 0x49, 0x4e, 0x20, 0x42, 0x52, 0x59, 0x2d, 0x4e, 0x46, 0x45, 0x54, 0x2d, 0x53, 0x58, 0x20, 0x56, 0x41, 0x55, 0x4c, 0x54, 0x20, 0x2d, 0x2d, 0x2d, 0x2d, 0x2d]
  /** ----- END BRY-NFET-SX VAULT ----- */
  const END_MARKER: JsString := [0x2d, 0x2d, 0x2d, 0x2d, 0x2d, 0x20, 0x45, 0x4e, 0x44, 0x20, 0x42, 0x52, 0x59, 0x2d, 0x4e, 0x46, 0x45, 0x54, 0x2d, 0x53, 0x58, 0x20, 0x56, 0x41, 0x55, 0x4c, 0x54, 0x20, 0x2d, 0x2d, 0x2d, 0x2d, 0x2d]
  /** BRY-VAULT-V1. */
  const TEXT_PREFIX_V1: JsString := [0x42, 0x52, 0x59, 0x2d, 0x56, 0x41, 0x55, 0x4c, 0x54, 0x2d, 0x56, 0x31, 0x2e]
  /** BRY-VAULT-V2. */
  const TEXT_PREFIX_V2: JsString := [0x42, 0x52, 0x59, 0x2d, 0x56, 0x41, 0x55, 0x4c, 0x54, 0x2d, 0x56, 0x32, 0x2e]
  /** BRY-NFET-SX-VAULT-V1 */
  const SCHEMA_V1: JsString := [0x42, 0x52, 0x59, 0x2d, 0x4e, 0x46, 0x45, 0x54, 0x2d, 0x53, 0x58, 0x2d, 0x56, 0x41, 0x55, 0x4c, 0x54, 0x2d, 0x56, 0x31]

  // -------- Strings --------

  /** String.prototype.trim: white space, line ends and the byte order mark. */
  predicate IsJsSpace(u: Unit) {
    || 0x09 <= u <= 0x0D || u == 0x20 || u == 0xA0 || u == 0x1680 || 0x2000 <= u <= 0x200A
    || u == 0x2028 || u == 0x2029 || u == 0x202F || u == 0x205F || u == 0x3000 || u == 0xFEFF
  }

  function TrimLeft(s: JsString): JsString {
    if s != [] && IsJsSpace(s[0]) then TrimLeft(s[1..]) else s
  }

  function TrimRight(s: JsString): JsString {
    if s != [] && IsJsSpace(s[|s| - 1]) then TrimRight(s[..|s| - 1]) else s
  }

  function Trim(s: JsString): JsString { TrimRight(TrimLeft(s)) }

  /** String.prototype.indexOf; None is -1. */
  function IndexOf(s: JsString, m: JsString): (r: Option<nat>)
    ensures r.Some? ==> r.value + |m| <= |s|
  {
    if m <= s then Some(0)
    else if s == [] then None
    else match IndexOf(s[1..], m)
      case None => None
      case Some(i) => Some(i + 1)
  }

  function JoinLines(lines: seq<JsString>): JsString
    decreases |lines|
  {
    if lines == [] then []
    else if |lines| == 1 then lines[0]
    else lines[0] + ([NEWLINE] + JoinLines(lines[1..]))
  }

  /** String.prototype.split at line ends. */
  function SplitLines(s: JsString): (lines: seq<JsString>)
    ensures lines != []
  {
    if s == [] then [[]]
    else
      var rest := SplitLines(s[1..]);
      if s[0] == NEWLINE then [[]] + rest else [[s[0]] + rest[0]] + rest[1..]
  }

  function Repeat(u: Unit, n: nat): JsString { seq(n, i => u) }

  function Code(c: char): Unit { if c as int < 0x80 && c != '-' then c as int else 0x3F }

  /** A literal of ASCII characters other than the dash, in UTF-16 units. */
  function Ascii(s: string): JsString { seq(|s|, i requires 0 <= i < |s| => Code(s[i])) }

  /** Literals with a dash between each and the next. */
  function Hyphened(parts: seq<string>): JsString {
    if parts == [] then []
    else if |parts| == 1 then Ascii(parts[0])
    else Ascii(parts[0]) + ([DASH] + Hyphened(parts[1..]))
  }

  // -------- The three forms --------

  /** The .vault.json file. */
  function JsonForm(v: Value): JsString { Print(v, Pretty) }

  /** The copied text. */
  function TextForm(v: Value): JsString {
    (if Get(v, K_SCHEMA) == Some(Str(SCHEMA_V1)) then TEXT_PREFIX_V1 else TEXT_PREFIX_V2)
      + B64.Encode(TextEncode(CanonicalJSON(v)))
  }

  datatype ImportError = PasteFirst | SheetMalformed | TextInvalid | TextNotUtf8 | TextNotJson | NotAVault

  function OrElse<T>(v: Option<T>, e: ImportError): Result<T, ImportError> {
    match v
    case None => Err(e)
    case Some(x) => Ok(x)
  }

  function ParseText(b64: JsString): Result<Value, ImportError> {
    match B64.StrictDecode(b64)
    case None => Err(TextInvalid)
    case Some(bytes) =>
      match TextDecode(bytes)
      case None => Err(TextNotUtf8)
      case Some(json) => OrElse(Parse(json), TextNotJson)
  }

  /** The dispatch: sheet markers first, then the text prefixes, then plain JSON. */
  function ParseVaultInput(raw: JsString): Result<Value, ImportError> {
    var trimmed := Trim(raw);
    var begin, end := IndexOf(trimmed, BEGIN_MARKER), IndexOf(trimmed, END_MARKER);
    if trimmed == [] then Err(PasteFirst)
    else if begin.Some? && end.Some? && end.value > begin.value then
      OrElse(Parse(Trim(Between(trimmed, begin.value + |BEGIN_MARKER|, end.value))), SheetMalformed)
    else if TEXT_PREFIX_V2 <= trimmed then ParseText(trimmed[|TEXT_PREFIX_V2|..])
    else if TEXT_PREFIX_V1 <= trimmed then ParseText(trimmed[|TEXT_PREFIX_V1|..])
    else OrElse(Parse(trimmed), NotAVault)
  }

  /** String.prototype.slice on indices in range, empty when they cross. */
  function Between(s: JsString, i: nat, j: nat): JsString
    requires j <= |s|
  {
    if i <= j then s[i..j] else []
  }

  // -------- The recovery sheet of a V2 vault --------

  datatype Line =
    | Fixed(text: string)
    | Hyphenated(parts: seq<string>)
    | Ruled(u: Unit)
    | Field(before: string, value: JsString, after: JsString)

  function Render(l: Line): JsString {
    match l
    case Fixed(text) => Ascii(text)
    case Hyphenated(parts) => Hyphened(parts)
    case Ruled(u) => Repeat(u, 54)
    case Field(before, value, after) => Ascii(before) + value + after
  }

  function RenderAll(ls: seq<Line>): (r: seq<JsString>)
    ensures |r| == |ls|
  {
    seq(|ls|, i requires 0 <= i < |ls| => Render(ls[i]))
  }

  function ModeWords(w: Vault): JsString {
    Ascii(if w.header.mode == MODE_SHARE then "share with someone" else "just for yourself")
  }

  function Sizes(): JsString { Hyphened([" (24", "byte nonce, 16", "byte tag)"]) }

  /** The mebibytes of a memory limit, rounded half up. */
  function Mebibytes(bytes: int): int { (2 * bytes + 1024 * 1024) / (2 * 1024 * 1024) }

  function KdfNote(h: Header): JsString {
    Ascii(" (work units ") + (PrintInt(h.opslimit) + (Ascii(", memory ") + (PrintInt(Mebibytes(h.memlimit)) + Ascii(" MiB)"))))
  }

  /** Long fields are cut into lines of 64. */
  function Chunks(s: JsString): seq<Line> {
    if |s| <= 64 then (if s == [] then [] else [Field("      ", s, [])])
    else [Field("      ", s[..64], [])] + Chunks(s[64..])
  }

  function Title(w: Vault): seq<Line> {
    [
      Hyphenated(["BRY", "NFET", "SX VAULT  RECOVERY SHEET"]),
      Ruled(EQUALS),
      Fixed(""),
      Field("Locked at: ", w.header.createdAt, []),
      Fixed("Made on:   secure.imagineqira.com/chat"),
      Fixed("")
    ]
  }

  function TwoThings(fileName: JsString): seq<Line> {
    [
      Ruled(DASH),
      Fixed("TO OPEN THIS LATER, YOU NEED TWO THINGS:"),
      Ruled(DASH),
      Fixed(""),
      Fixed("  1. THE LOCKED BOX FILE"),
      Field("     File name:  ", fileName, []),
      Fixed("     Save this file. Email it to yourself. Put it on a USB drive."),
      Fixed("     The file is in your downloads folder."),
      Fixed("")
    ]
  }

  function Phrase(): seq<Line> {
    [
      Fixed("  2. YOUR SECRET PHRASE"),
      Fixed("     This is the phrase you typed."),
      Fixed("     We do not know it. We do not store it."),
      Fixed("     If you forget it, the box CANNOT be opened. There is no recovery."),
      Fixed("")
    ]
  }

  function Records(): seq<Line> {
    [
      Ruled(DASH),
      Fixed("EVERYTHING BELOW IS ALREADY INSIDE THE BOX."),
      Fixed("You do NOT need to save it separately."),
      Fixed("It is here only for your records."),
      Ruled(DASH),
      Fixed("")
    ]
  }

  function BoxStyle(w: Vault, envelopeId: JsString): seq<Line> {
    [
      Fixed("  Box name (envelope ID):"),
      Field("      ", envelopeId, []),
      Fixed(""),
      Field("  Box style:         ", w.header.schema, []),
      Field("  Made by version:   ", w.header.version, []),
      Field("  Mode:              ", ModeWords(w), []),
      Fixed("")
    ]
  }

  function Recipe(w: Vault): seq<Line> {
    [
      Fixed("  Lock recipe:"),
      Field("      Wrap (vault key): ", w.header.wrapAlgorithm, Sizes()),
      Field("      Content:          ", w.header.contentAlgorithm, Sizes()),
      Field("      Phrase mix:    ", w.header.kdfAlgorithm, KdfNote(w.header)),
      Fixed("")
    ]
  }

  function Codes(w: Vault): seq<Line> {
    [
      Fixed("  Your scramble code (salt, base64url):"),
      Field("      ", w.header.salt, []),
      Fixed(""),
      Fixed("  Wrap nonce (base64url):"),
      Field("      ", w.header.wrapNonce, []),
      Fixed(""),
      Fixed("  Wrapped vault key (base64url):")
    ]
  }

  function ContentCodes(w: Vault): seq<Line> {
    [
      Fixed(""),
      Fixed("  Content nonce (base64url):"),
      Field("      ", w.header.contentNonce, []),
      Fixed(""),
      Fixed("  Encrypted message (ciphertext, base64url):")
    ]
  }

  function HowToOpen(): seq<Line> {
    [
      Fixed(""),
      Ruled(DASH),
      Fixed("HOW TO OPEN THIS BOX AGAIN:"),
      Ruled(DASH),
      Fixed(""),
      Fixed("  1. Go to:    https://secure.imagineqira.com/chat"),
      Fixed("  2. Drop EITHER the .vault.json file OR this recovery sheet onto"),
      Fixed("     the page. (This sheet contains the full box at the bottom.)"),
      Fixed("  3. Type your secret phrase."),
      Fixed("  4. Click \"Open it!\""),
      Fixed("")
    ]
  }

  function MachineCopy(): seq<Line> {
    [
      Ruled(DASH),
      Hyphenated(["THE LOCKED BOX (machine", "readable copy)"]),
      Ruled(DASH),
      Fixed(""),
      Fixed("If you lost the .vault.json file, you can paste this entire recovery"),
      Fixed("sheet into the Open box on the page. The page will find the box"),
      Fixed("content between the markers below automatically."),
      Fixed("")
    ]
  }

  function Verify(): seq<Line> {
    [
      Fixed(""),
      Ruled(DASH),
      Fixed("HOW TO VERIFY THIS PAGE IS HONEST:"),
      Ruled(DASH),
      Fixed("")
    ]
  }

  function VerifySteps(): seq<Line> {
    [
      Fixed("  1. Go to:    https://secure.imagineqira.com/verify"),
      Hyphenated(["  2. Compare the SHA", "256 of /chat/chat.js and /chat/sodium.js"]),
      Fixed("     against the signed integrity record."),
      Fixed("  3. If they match, the JavaScript is the published, signed version."),
      Fixed("")
    ]
  }

  function Explanation(w: Vault, fileName: JsString): seq<Line> {
    Title(w) + TwoThings(fileName) + Phrase() + Records()
  }

  function Description(w: Vault, envelopeId: JsString): seq<Line> { BoxStyle(w, envelopeId) + Recipe(w) + Codes(w) }

  function Instructions(): seq<Line> { HowToOpen() + MachineCopy() }

  function Closing(): seq<Line> { Verify() + VerifySteps() + [Ruled(EQUALS)] }

  /** Every line before the opening marker. */
  function BeforeBox(w: Vault, fileName: JsString, envelopeId: JsString): seq<Line> {
    [Ruled(EQUALS)] + Explanation(w, fileName) + Description(w, envelopeId) + Chunks(w.wrappedKey)
      + ContentCodes(w) + Chunks(w.ciphertext) + Instructions()
  }

  function SheetLines(w: Vault, fileName: JsString, envelopeId: JsString): seq<JsString> {
    RenderAll(BeforeBox(w, fileName, envelopeId)) + [BEGIN_MARKER] + SplitLines(Print(VaultValue(w), Pretty))
      + [END_MARKER] + RenderAll(Closing())
  }

  function Sheet(w: Vault, fileName: JsString, envelopeId: JsString): JsString {
    JoinLines(SheetLines(w, fileName, envelopeId)) + [NEWLINE]
  }

  // -------- The source's loops --------

  /** Pushes the lines of one long field. */
  method PushChunks(lines: seq<JsString>, s: JsString) returns (out: seq<JsString>)
    ensures out == lines + RenderAll(Chunks(s))
  {
    hide Render, RenderAll, Chunks;
    out := lines;
    var i := 0;
    RenderNone();
    ghost var pushed: seq<Line> := [];
    while i < |s|
      invariant out == lines + RenderAll(pushed)
      invariant Chunks(s) == pushed + (if i < |s| then Chunks(s[i..]) else [])
    {
      var end := if i + 64 <= |s| then i + 64 else |s|;
      var l := Field("      ", s[i..end], []);
      ChunksStep(s, i);
      RenderSum(pushed, [l]);
      RenderOne(l);
      pushed := pushed + [l];
      out := out + [Render(l)];
      i := i + 64;
    }
    assert pushed + [] == pushed;
  }

  lemma ChunksStep(s: JsString, i: nat)
    requires i < |s|
    ensures var end := if i + 64 <= |s| then i + 64 else |s|;
      Chunks(s[i..]) == [Field("      ", s[i..end], [])] + (if i + 64 < |s| then Chunks(s[i + 64..]) else [])
  {
    if i + 64 < |s| {
      assert s[i..][..64] == s[i..i + 64] && s[i..][64..] == s[i + 64..];
    } else {
      assert s[i..] == s[i..|s|];
    }
  }

  lemma RenderNone()
    ensures RenderAll([]) == []
    ensures Chunks([]) == []
  {
  }

  lemma RenderOne(l: Line)
    ensures RenderAll([l]) == [Render(l)]
  {
  }

  lemma RenderSum(a: seq<Line>, b: seq<Line>)
    ensures RenderAll(a + b) == RenderAll(a) + RenderAll(b)
  {
  }

  method PushBeforeBox(w: Vault, fileName: JsString, envelopeId: JsString) returns (lines: seq<JsString>)
    ensures lines == RenderAll(BeforeBox(w, fileName, envelopeId))
  {
    hide Explanation, Description, ContentCodes, Instructions, Chunks, Render, RenderAll;
    var start := [Ruled(EQUALS)] + Explanation(w, fileName) + Description(w, envelopeId);
    lines := PushChunks(RenderAll(start), w.wrappedKey);
    RenderSum(start, Chunks(w.wrappedKey));
    lines := lines + RenderAll(ContentCodes(w));
    RenderSum(start + Chunks(w.wrappedKey), ContentCodes(w));
    var middle := start + Chunks(w.wrappedKey) + ContentCodes(w);
    lines := PushChunks(lines, w.ciphertext);
    RenderSum(middle, Chunks(w.ciphertext));
    lines := lines + RenderAll(Instructions());
    RenderSum(middle + Chunks(w.ciphertext), Instructions());
  }

  method BuildRecoverySheet(w: Vault, fileName: JsString, envelopeId: JsString) returns (text: JsString)
    requires w.header.schema == SCHEMA_V2
    ensures text == Sheet(w, fileName, envelopeId)
  {
    hide BeforeBox, Closing, Render, RenderAll, Print, SplitLines, JoinLines, VaultValue;
    var before := PushBeforeBox(w, fileName, envelopeId);
    var lines := before + [BEGIN_MARKER];
    var vaultLines := SplitLines(Print(VaultValue(w), Pretty));
    for i := 0 to |vaultLines|
      invariant lines == before + [BEGIN_MARKER] + vaultLines[..i]
    {
      lines := lines + [vaultLines[i]];
    }
    assert vaultLines[..|vaultLines|] == vaultLines;
    lines := lines + [END_MARKER] + RenderAll(Closing());
    text := JoinLines(lines) + [NEWLINE];
  }
}
