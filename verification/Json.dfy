/** JSON values, the printers of JSON.stringify, and JSON.parse (RFC 8259), over UTF-16 text. */
module Json {
  import opened Prelude
  import opened Utf

  datatype Value =
    | Null
    | Bool(b: bool)
    | Num(n: int)
    | Str(s: JsString)
    | Arr(items: seq<Value>)
    | Obj(members: seq<(JsString, Value)>)

  const QUOTE: Unit := 0x22
  const BACKSLASH: Unit := 0x5C
  const COMMA: Unit := 0x2C
  const COLON: Unit := 0x3A
  const SPACE: Unit := 0x20
  const NEWLINE: Unit := 0x0A
  const LBRACKET: Unit := 0x5B
  const RBRACKET: Unit := 0x5D
  const LBRACE: Unit := 0x7B
  const RBRACE: Unit := 0x7D
  const MINUS: Unit := 0x2D
  const NULL_WORD: JsString := [0x6E, 0x75, 0x6C, 0x6C]
  const TRUE_WORD: JsString := [0x74, 0x72, 0x75, 0x65]
  const FALSE_WORD: JsString := [0x66, 0x61, 0x6C, 0x73, 0x65]

  predicate DistinctKeys<T(==)>(ms: seq<(JsString, T)>) {
    forall i, j :: 0 <= i < j < |ms| ==> ms[i].0 != ms[j].0
  }

  /** No object has a key twice, at any depth. */
  predicate Proper(v: Value) {
    match v
    case Arr(items) => forall i :: 0 <= i < |items| ==> Proper(items[i])
    case Obj(ms) => DistinctKeys(ms) && forall i :: 0 <= i < |ms| ==> Proper(ms[i].1)
    case _ => true
  }

  // -------- Printing strings and numbers --------

  function HexDigit(n: int): Unit
    requires 0 <= n < 16
  {
    if n < 10 then 0x30 + n else 0x61 + n - 10
  }

  /** The six-unit escape with four lower-case hexadecimal digits. */
  function HexEscape(u: Unit): JsString {
    [BACKSLASH, 0x75, HexDigit(u / 16 / 16 / 16), HexDigit(u / 16 / 16 % 16), HexDigit(u / 16 % 16), HexDigit(u % 16)]
  }

  /** The two-unit escapes, by the letter that follows the backslash. */
  function ShortEscape(u: Unit): Option<Unit> {
    if u == QUOTE || u == BACKSLASH then Some(u)
    else if u == 0x08 then Some(0x62)
    else if u == 0x09 then Some(0x74)
    else if u == 0x0A then Some(0x6E)
    else if u == 0x0C then Some(0x66)
    else if u == 0x0D then Some(0x72)
    else None
  }

  function EscapeUnit(u: Unit, literal: bool): JsString {
    match ShortEscape(u)
    case Some(c) => [BACKSLASH, c]
    case None => if u >= 0x20 && literal then [u] else HexEscape(u)
  }

  /** JSON.stringify: surrogate pairs stay, lone surrogates are escaped. */
  function QuoteBody(s: JsString): JsString {
    if s == [] then []
    else if StartsPair(s) then s[..2] + QuoteBody(s[2..])
    else EscapeUnit(s[0], !IsHigh(s[0]) && !IsLow(s[0])) + QuoteBody(s[1..])
  }

  /** json.dumps with ensure_ascii: everything outside space..tilde is escaped. */
  function AsciiBody(s: JsString): JsString {
    if s == [] then [] else EscapeUnit(s[0], s[0] <= 0x7E) + AsciiBody(s[1..])
  }

  /** The printed string s, followed by rest. */
  function QuoteOnto(s: JsString, rest: JsString): JsString { [QUOTE] + (QuoteBody(s) + ([QUOTE] + rest)) }

  function Digits(n: nat): (d: JsString)
    ensures |d| >= 1 && IsDigits(d) && (d[0] == 0x30 ==> n == 0 && |d| == 1)
  {
    if n < 10 then [0x30 + n] else Digits(n / 10) + [0x30 + n % 10]
  }

  function PrintInt(n: int): JsString {
    if n < 0 then [MINUS] + Digits(-n) else Digits(n)
  }

  predicate IsDigitUnit(u: Unit) { 0x30 <= u <= 0x39 }

  predicate IsDigits(d: JsString) { forall i :: 0 <= i < |d| ==> IsDigitUnit(d[i]) }

  // -------- Printing values --------

  /** JSON.stringify without and with an indent of two. */
  datatype Style = Compact | Pretty

  function Spaces(n: nat): JsString {
    if n == 0 then [] else [SPACE] + Spaces(n - 1)
  }

  function Break(style: Style, depth: nat): JsString {
    if style.Compact? then [] else [NEWLINE] + Spaces(2 * depth)
  }

  function AfterColon(style: Style): JsString { if style.Compact? then [] else [SPACE] }

  /** The printed text of v, followed by rest. */
  function PrintOnto(v: Value, style: Style, depth: nat, rest: JsString): JsString
    decreases v, 1
  {
    match v
    case Null => NULL_WORD + rest
    case Bool(b) => (if b then TRUE_WORD else FALSE_WORD) + rest
    case Num(n) => PrintInt(n) + rest
    case Str(s) => QuoteOnto(s, rest)
    case Arr(items) =>
      if items == [] then [LBRACKET] + ([RBRACKET] + rest)
      else
        var close := Break(style, depth) + ([RBRACKET] + rest);
        [LBRACKET] + (Break(style, depth + 1) + ItemsOnto(items, style, depth + 1, close))
    case Obj(ms) =>
      if ms == [] then [LBRACE] + ([RBRACE] + rest)
      else
        var close := Break(style, depth) + ([RBRACE] + rest);
        [LBRACE] + (Break(style, depth + 1) + MembersOnto(ms, style, depth + 1, close))
  }

  function ItemsOnto(items: seq<Value>, style: Style, depth: nat, rest: JsString): JsString
    requires items != []
    decreases items, 0
  {
    if |items| == 1 then PrintOnto(items[0], style, depth, rest)
    else PrintOnto(items[0], style, depth, [COMMA] + (Break(style, depth) + ItemsOnto(items[1..], style, depth, rest)))
  }

  function MembersOnto(ms: seq<(JsString, Value)>, style: Style, depth: nat, rest: JsString): JsString
    requires ms != []
    decreases ms, 0
  {
    if |ms| == 1 then MemberOnto(ms[0], style, depth, rest)
    else MemberOnto(ms[0], style, depth, [COMMA] + (Break(style, depth) + MembersOnto(ms[1..], style, depth, rest)))
  }

  function MemberOnto(m: (JsString, Value), style: Style, depth: nat, rest: JsString): JsString
    decreases m, 2
  {
    QuoteOnto(m.0, [COLON] + (AfterColon(style) + PrintOnto(m.1, style, depth, rest)))
  }

  /** JSON.stringify. */
  function Print(v: Value, style: Style): JsString { PrintOnto(v, style, 0, []) }

  // -------- Reading --------

  predicate IsWhite(u: Unit) { u == 0x09 || u == 0x0A || u == 0x0D || u == 0x20 }

  function SkipWhite(t: JsString): (r: JsString)
    ensures |r| <= |t|
    ensures r == [] || !IsWhite(r[0])
  {
    if t != [] && IsWhite(t[0]) then SkipWhite(t[1..]) else t
  }

  function HexValue(u: Unit): Option<int> {
    if IsDigitUnit(u) then Some(u - 0x30)
    else if 0x61 <= u <= 0x66 then Some(u - 0x61 + 10)
    else if 0x41 <= u <= 0x46 then Some(u - 0x41 + 10)
    else None
  }

  function ReadHex(t: JsString): Option<int>
    requires |t| == 4
  {
    match (HexValue(t[0]), HexValue(t[1]), HexValue(t[2]), HexValue(t[3]))
    case (Some(a), Some(b), Some(c), Some(d)) => Some(((a * 16 + b) * 16 + c) * 16 + d)
    case _ => None
  }

  /** One unit of a string, literal or escaped, and the text after it. */
  function ReadUnit(t: JsString): (r: Option<(Unit, JsString)>)
    requires t != [] && t[0] != QUOTE
    ensures r.Some? ==> |r.value.1| < |t|
  {
    if t[0] < 0x20 then None
    else if t[0] != BACKSLASH then Some((t[0], t[1..]))
    else if |t| < 2 then None
    else
      var c := t[1];
      if c == QUOTE || c == BACKSLASH || c == 0x2F then Some((c, t[2..]))
      else if c == 0x62 then Some((0x08, t[2..]))
      else if c == 0x66 then Some((0x0C, t[2..]))
      else if c == 0x6E then Some((0x0A, t[2..]))
      else if c == 0x72 then Some((0x0D, t[2..]))
      else if c == 0x74 then Some((0x09, t[2..]))
      else if c == 0x75 && |t| >= 6 then
        match ReadHex(t[2..6])
        case Some(n) => if 0 <= n < 0x10000 then Some((n, t[6..])) else None
        case None => None
      else None
  }

  /** The rest of a string after its opening quote. */
  function ReadString(t: JsString): (r: Option<(JsString, JsString)>)
    ensures r.Some? ==> |r.value.1| < |t|
    decreases |t|
  {
    if t == [] then None
    else if t[0] == QUOTE then Some(([], t[1..]))
    else match ReadUnit(t)
      case None => None
      case Some(first) =>
        match ReadString(first.1)
        case None => None
        case Some(rest) => Some(([first.0] + rest.0, rest.1))
  }

  function SpanDigits(t: JsString): (n: nat)
    ensures n <= |t| && IsDigits(t[..n])
  {
    if t != [] && IsDigitUnit(t[0]) then
      var n := 1 + SpanDigits(t[1..]);
      assert t[..n] == [t[0]] + t[1..][..n - 1];
      n
    else 0
  }

  function DigitsValue(d: JsString): nat
    requires IsDigits(d)
  {
    if d == [] then 0 else 10 * DigitsValue(d[..|d| - 1]) + (d[|d| - 1] - 0x30)
  }

  /** Decimal digits without a superfluous leading zero; fractions and exponents are refused. */
  function ReadNat(t: JsString): (r: Option<(int, JsString)>)
    ensures r.Some? ==> |r.value.1| < |t|
  {
    var n := SpanDigits(t);
    if n == 0 || (n > 1 && t[0] == 0x30) then None
    else if n < |t| && (t[n] == 0x2E || t[n] == 0x65 || t[n] == 0x45) then None
    else Some((DigitsValue(t[..n]), t[n..]))
  }

  function ReadInt(t: JsString): (r: Option<(int, JsString)>)
    ensures r.Some? ==> |r.value.1| < |t|
  {
    if t != [] && t[0] == MINUS then
      match ReadNat(t[1..])
      case None => None
      case Some(r) => Some((-r.0, r.1))
    else ReadNat(t)
  }

  /** A repeated key keeps its first place and its last value. */
  function Put(ms: seq<(JsString, Value)>, key: JsString, v: Value): seq<(JsString, Value)> {
    if ms == [] then [(key, v)]
    else if ms[0].0 == key then [(key, v)] + ms[1..]
    else [ms[0]] + Put(ms[1..], key, v)
  }

  function PutAll(ms: seq<(JsString, Value)>): seq<(JsString, Value)> {
    if ms == [] then [] else Put(PutAll(ms[..|ms| - 1]), ms[|ms| - 1].0, ms[|ms| - 1].1)
  }

  function ReadValue(t: JsString): (r: Option<(Value, JsString)>)
    ensures r.Some? ==> |r.value.1| < |t|
    decreases |t|, 1
  {
    var s := SkipWhite(t);
    if s == [] then None
    else if NULL_WORD <= s then Some((Null, s[4..]))
    else if TRUE_WORD <= s then Some((Bool(true), s[4..]))
    else if FALSE_WORD <= s then Some((Bool(false), s[5..]))
    else if s[0] == QUOTE then
      match ReadString(s[1..])
      case None => None
      case Some(r) => Some((Str(r.0), r.1))
    else if s[0] == LBRACKET then
      var inner := SkipWhite(s[1..]);
      if inner != [] && inner[0] == RBRACKET then Some((Arr([]), inner[1..]))
      else match ReadItems(inner)
        case None => None
        case Some(r) => Some((Arr(r.0), r.1))
    else if s[0] == LBRACE then
      var inner := SkipWhite(s[1..]);
      if inner != [] && inner[0] == RBRACE then Some((Obj([]), inner[1..]))
      else match ReadMembers(inner)
        case None => None
        case Some(r) => Some((Obj(PutAll(r.0)), r.1))
    else match ReadInt(s)
      case None => None
      case Some(r) => Some((Num(r.0), r.1))
  }

  /** One or more values separated by commas, and the closing bracket. */
  function ReadItems(t: JsString): (r: Option<(seq<Value>, JsString)>)
    ensures r.Some? ==> |r.value.1| < |t|
    decreases |t|, 2
  {
    match ReadValue(t)
    case None => None
    case Some(first) =>
      var s := SkipWhite(first.1);
      if s == [] then None
      else if s[0] == RBRACKET then Some(([first.0], s[1..]))
      else if s[0] == COMMA then
        match ReadItems(s[1..])
        case None => None
        case Some(rest) => Some(([first.0] + rest.0, rest.1))
      else None
  }

  function ReadMember(t: JsString): (r: Option<((JsString, Value), JsString)>)
    ensures r.Some? ==> |r.value.1| < |t|
    decreases |t|, 1
  {
    var s := SkipWhite(t);
    if s == [] || s[0] != QUOTE then None
    else match ReadString(s[1..])
      case None => None
      case Some(key) =>
        var u := SkipWhite(key.1);
        if u == [] || u[0] != COLON then None
        else match ReadValue(u[1..])
          case None => None
          case Some(v) => Some(((key.0, v.0), v.1))
  }

  /** One or more members separated by commas, and the closing brace. */
  function ReadMembers(t: JsString): (r: Option<(seq<(JsString, Value)>, JsString)>)
    ensures r.Some? ==> |r.value.1| < |t|
    decreases |t|, 2
  {
    match ReadMember(t)
    case None => None
    case Some(first) =>
      var s := SkipWhite(first.1);
      if s == [] then None
      else if s[0] == RBRACE then Some(([first.0], s[1..]))
      else if s[0] == COMMA then
        match ReadMembers(s[1..])
        case None => None
        case Some(rest) => Some(([first.0] + rest.0, rest.1))
      else None
  }

  /** JSON.parse on texts whose numbers are integers. */
  function Parse(t: JsString): Option<Value> {
    match ReadValue(t)
    case None => None
    case Some(r) => if SkipWhite(r.1) == [] then Some(r.0) else None
  }
}
