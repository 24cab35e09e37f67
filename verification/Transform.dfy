/** The reversible transform of a message: every token turned on its ring by its schedule row. */
module Transform {
  import opened Prelude
  import opened Alphabet
  import opened Codec
  import opened CodecTheorems
  import opened Human
  import opened Ring
  import opened Schedule

  datatype TransformRow = TransformRow(original: string, transformed: string, recovered: string, row: Row)

  datatype TransformResult = TransformResult(
    originalCompact: string, originalHuman: string,
    transformedCompact: string, transformedHuman: string,
    recoveredCompact: string, recoveredHuman: string,
    recoveredPlaintext: string, roundtripOk: bool, rows: seq<TransformRow>)

  datatype TransformError = BadConfig | Bry(error: BryError) | UnsupportedClass

  ghost function TurnedToken(t: string, row: Row, forward: bool): (u: string)
    requires IsToken(t)
    ensures IsToken(u) && Rotate(t, row, forward) == Some(u)
  {
    RotateBack(t, row, forward);
    Rotate(t, row, forward).value
  }

  /** Every token turned by the row at its position. */
  ghost function Turn(ts: seq<string>, rows: seq<Row>, forward: bool): (us: seq<string>)
    requires AllTokens(ts) && |rows| == |ts|
    ensures |us| == |ts| && AllTokens(us)
    ensures forall i :: 0 <= i < |ts| ==> Rotate(ts[i], rows[i], forward) == Some(us[i])
  {
    seq(|ts|, i requires 0 <= i < |ts| => TurnedToken(ts[i], rows[i], forward))
  }

  /** Turning every token forward and back gives the same tokens, class by class;
      each token other than the space really moves. */
  lemma TurnBack(ts: seq<string>, rows: seq<Row>, forward: bool)
    requires AllTokens(ts) && |rows| == |ts|
    ensures Turn(Turn(ts, rows, forward), rows, !forward) == ts
    ensures forall i :: 0 <= i < |ts| ==>
      var u := Turn(ts, rows, forward)[i];
      ClassOf(u) == ClassOf(ts[i]) && (u == ts[i] <==> ts[i] == SPACE_TOKEN)
  {
    var us := Turn(ts, rows, forward);
    forall i | 0 <= i < |ts|
      ensures Turn(us, rows, !forward)[i] == ts[i]
      ensures ClassOf(us[i]) == ClassOf(ts[i]) && (us[i] == ts[i] <==> ts[i] == SPACE_TOKEN)
    {
      RotateBack(ts[i], rows[i], forward);
    }
  }

  /** The tokens of a message: its printed form, read greedily. Neighbours that collide
      have become one token here. */
  function MessageTokens(plaintext: string): (r: Result<seq<string>, BryError>)
    ensures r.Ok? ==> AllTokens(r.value)
  {
    match Normalize(plaintext)
    case Err(e) => Err(e)
    case Ok(n) => Tokenize(Encode(n))
  }

  ghost function RowsOf(originals: seq<string>, turned: seq<string>, rows: seq<Row>): (trs: seq<TransformRow>)
    requires |originals| == |turned| == |rows|
    ensures |trs| == |rows|
  {
    seq(|rows|, i requires 0 <= i < |rows| => TransformRow(originals[i], turned[i], originals[i], rows[i]))
  }

  ghost function BackRowsOf(originals: seq<string>, turned: seq<string>, rows: seq<Row>): (trs: seq<TransformRow>)
    requires |originals| == |turned| == |rows|
    ensures |trs| == |rows|
  {
    seq(|rows|, i requires 0 <= i < |rows| => TransformRow(originals[i], turned[i], turned[i], rows[i]))
  }

  /** What the forward transform returns: the tokens recovered on the spot are the originals. */
  ghost function Applied(h: Hashes, s: Session, c: Config, plaintext: string): Result<TransformResult, TransformError>
    requires DigestsAre32(h)
  {
    if !c.Valid() then Err(BadConfig)
    else match MessageTokens(plaintext)
      case Err(e) => Err(Bry(e))
      case Ok(ts) =>
        var rows := Rows(h, s, c, |ts|);
        var us := Turn(ts, rows, true);
        Ok(TransformResult(Join(ts), JoinWith(ts), Join(us), JoinWith(us), Join(ts), JoinWith(ts),
                           CharsOf(ts), true, RowsOf(ts, us, rows)))
  }

  /** What the reverse transform returns on any text that parses. */
  ghost function Reversed(h: Hashes, s: Session, c: Config, text: string): Result<TransformResult, TransformError>
    requires DigestsAre32(h)
  {
    match ParseInput(text)
    case Err(e) => Err(Bry(e))
    case Ok(us) =>
      if !c.Valid() then Err(BadConfig)
      else
        var rows := Rows(h, s, c, |us|);
        var ts := Turn(us, rows, false);
        PrintedIsAccepted(ts);
        Ok(TransformResult(Join(ts), JoinWith(ts), Join(us), JoinWith(us), Join(us), JoinWith(us),
                           Decode(Join(ts)).value, true, BackRowsOf(ts, us, rows)))
  }

  // -------- The source's loops --------

  method TurnOne(t: string, row: Row, forward: bool) returns (there: string, back: string)
    requires IsToken(t)
    ensures Rotate(t, row, forward) == Some(there) && back == t
  {
    RotateBack(t, row, forward);
    there := Rotate(t, row, forward).value;
    back := Rotate(there, row, !forward).value;
  }

  /** The loop of both transforms: turn each token by its row, and turn the result back. */
  method TurnThereAndBack(ts: seq<string>, rows: seq<Row>, forward: bool)
    returns (turned: seq<string>, again: seq<string>)
    requires AllTokens(ts) && |rows| == |ts|
    ensures turned == Turn(ts, rows, forward) && again == ts
  {
    hide Rotate;
    turned, again := [], [];
    ghost var us := Turn(ts, rows, forward);
    for i := 0 to |ts|
      invariant turned == us[..i] && again == ts[..i]
    {
      var there, back := TurnOne(ts[i], rows[i], forward);
      turned, again := turned + [there], again + [back];
    }
  }

  method Rowwise(originals: seq<string>, turned: seq<string>, recovered: seq<string>, rows: seq<Row>)
    returns (out: seq<TransformRow>)
    requires |originals| == |turned| == |recovered| == |rows|
    ensures |out| == |rows|
    ensures forall i :: 0 <= i < |rows| ==>
      out[i] == TransformRow(originals[i], turned[i], recovered[i], rows[i])
  {
    out := [];
    for i := 0 to |rows|
      invariant |out| == i
      invariant forall j :: 0 <= j < i ==> out[j] == TransformRow(originals[j], turned[j], recovered[j], rows[j])
    {
      out := out + [TransformRow(originals[i], turned[i], recovered[i], rows[i])];
    }
  }

  /** The forward transform, recovering each token right after turning it. Its result says
      that the recovery is exact and that the round trip flag is set for every message. */
  method ApplyTransform(h: Hashes, s: Session, c: Config, plaintext: string)
    returns (r: Result<TransformResult, TransformError>)
    requires DigestsAre32(h)
    ensures r == Applied(h, s, c, plaintext)
  {
    if !c.Valid() {
      return Err(BadConfig);
    }
    var normal := NormalizePlaintext(plaintext);
    if normal.Err? {
      return Err(Bry(normal.error));
    }
    var bry := EncodeToBry(normal.value);
    NormalizeSupported(normal.value);
    EncodeHasNoSpace(normal.value);
    CompactIsIdentity(bry.value);
    var tokenized := TokenizeBry(bry.value);
    PrintedIsAccepted(TokensOf(normal.value));
    if tokenized.Err? {
      assert false;
    }
    var originals := tokenized.value;
    AcceptedTextIsPreserved(bry.value);
    var schedule := BuildSchedule(h, s, c, |originals|);
    var rows := schedule.value.rows;
    var transformedTokens, recoveredTokens := TurnThereAndBack(originals, rows, true);
    var out := Rowwise(originals, transformedTokens, recoveredTokens, rows);
    assert out == RowsOf(originals, transformedTokens, rows);
    var originalCompact, transformedCompact := Untokenize(originals), Untokenize(transformedTokens);
    var recoveredCompact := Untokenize(recoveredTokens);
    CompactIsIdentity(recoveredCompact.value);
    var decoded := DecodeFromBry(recoveredCompact.value);
    return Ok(TransformResult(
      originalCompact.value, RenderHuman(originals).value,
      transformedCompact.value, RenderHuman(transformedTokens).value,
      recoveredCompact.value, RenderHuman(recoveredTokens).value,
      decoded.value, originalCompact.value == recoveredCompact.value, out));
  }

  method ReverseTransform(h: Hashes, s: Session, c: Config, text: string)
    returns (r: Result<TransformResult, TransformError>)
    requires DigestsAre32(h)
    ensures r == Reversed(h, s, c, text)
  {
    var parsed := ParseInput(text);
    if parsed.Err? {
      return Err(Bry(parsed.error));
    }
    var turned := parsed.value;
    var schedule := BuildSchedule(h, s, c, |turned|);
    if schedule.None? {
      return Err(BadConfig);
    }
    var rows := schedule.value.rows;
    var recoveredTokens, again := TurnThereAndBack(turned, rows, false);
    var out := Rowwise(recoveredTokens, turned, again, rows);
    assert out == BackRowsOf(recoveredTokens, turned, rows);
    var recoveredCompact, turnedCompact := Untokenize(recoveredTokens), Untokenize(turned);
    PrintedIsAccepted(recoveredTokens);
    PrintedHasNoSpace(recoveredTokens);
    CompactIsIdentity(recoveredCompact.value);
    var decoded := DecodeFromBry(recoveredCompact.value);
    return Ok(TransformResult(
      recoveredCompact.value, RenderHuman(recoveredTokens).value,
      turnedCompact.value, RenderHuman(turned).value,
      turnedCompact.value, RenderHuman(turned).value,
      decoded.value, turnedCompact.value == Untokenize(again).value, out));
  }

  lemma {:induction false} PrintedHasNoSpace(ts: seq<string>)
    requires AllTokens(ts)
    ensures forall i :: 0 <= i < |Join(ts)| ==> !IsSpace(Join(ts)[i])
  {
    if ts != [] {
      PrintedHasNoSpace(ts[1..]);
    }
  }

  // -------- The round trip --------

  /** A message's tokens print back to its Bry text, and decode to what the codec preserves. */
  lemma MessageTokensPrint(plaintext: string)
    requires Normalize(plaintext).Ok?
    ensures var bry := Encode(Normalize(plaintext).value);
      && MessageTokens(plaintext).Ok?
      && Join(MessageTokens(plaintext).value) == bry
      && Decode(bry) == Ok(CharsOf(MessageTokens(plaintext).value))
  {
    var n := Normalize(plaintext).value;
    PrintedIsAccepted(TokensOf(n));
    AcceptedTextIsPreserved(Encode(n));
  }

  /** Reversing the human-safe output recovers the tokens of the message, for every message,
      key, nonce, context and valid configuration, and it never fails. */
  lemma ReverseOfApplied(h: Hashes, s: Session, c: Config, plaintext: string)
    requires DigestsAre32(h) && c.Valid() && Normalize(plaintext).Ok?
    ensures Applied(h, s, c, plaintext).Ok?
    ensures var a := Applied(h, s, c, plaintext).value;
      var back := Reversed(h, s, c, a.transformedHuman);
      && back.Ok? && back.value.roundtripOk
      && back.value.originalCompact == a.originalCompact == Encode(Normalize(plaintext).value)
      && back.value.originalHuman == a.originalHuman
      && back.value.transformedHuman == a.transformedHuman
      && |back.value.rows| == |a.rows|
      && (forall i :: 0 <= i < |a.rows| ==> back.value.rows[i].original == a.rows[i].original)
      && Ok(back.value.recoveredPlaintext) == Decode(Encode(Normalize(plaintext).value))
  {
    MessageTokensPrint(plaintext);
    var ts := MessageTokens(plaintext).value;
    var rows := Rows(h, s, c, |ts|);
    ParseInputOfRender(Turn(ts, rows, true));
    TurnBack(ts, rows, true);
  }
}
