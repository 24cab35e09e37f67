/** The keyed schedule: one stepped state and one row for each token position. */
module Schedule {
  import opened Prelude
  import opened Utf
  import opened Ring

  datatype Config = Config(stateBytes: int, bucketCount: int, dummyModulus: int) {
    predicate Valid() {
      16 <= stateBytes <= 64 && 4 <= bucketCount <= 256 && 2 <= dummyModulus <= 64
    }
  }

  /** HMAC-SHA-256, SHA-256, and the scaled ridge signal of three state words. */
  datatype Hashes = Hashes(hmac: (Bytes, Bytes) -> Bytes, sha256: Bytes -> Bytes, ridge: (nat, nat, nat) -> nat)

  ghost predicate DigestsAre32(h: Hashes) {
    && (forall key, message :: |h.hmac(key, message)| == 32)
    && (forall message :: |h.sha256(message)| == 32)
  }

  datatype State = State(step: nat, bytes: Bytes)

  /** The key, nonce and context of one message. */
  datatype Session = Session(masterKey: string, nonce: string, context: string)

  const BAR: Bytes := [0x7C]
  const U64_BYTES: nat := 8
  /** The bytes of BRY-NFET-SX|SESSION| */
  const SESSION_LABEL: Bytes := [66, 82, 89, 45, 78, 70, 69, 84, 45, 83, 88, 124, 83, 69, 83, 83, 73, 79, 78, 124]
  /** The bytes of BRY-NFET-SX|SCHED|INIT| */
  const INIT_LABEL: Bytes := [66, 82, 89, 45, 78, 70, 69, 84, 45, 83, 88, 124, 83, 67, 72, 69, 68, 124, 73, 78, 73, 84, 124]
  /** The bytes of BRY-NFET-SX|SCHED|STEP| */
  const STEP_LABEL: Bytes := [66, 82, 89, 45, 78, 70, 69, 84, 45, 83, 88, 124, 83, 67, 72, 69, 68, 124, 83, 84, 69, 80, 124]

  function SessionKey(h: Hashes, s: Session): Bytes {
    h.hmac(Utf8(s.masterKey), SESSION_LABEL + Utf8(s.nonce) + BAR + Utf8(s.context))
  }

  /** The material of the initial state, extended by hashing until it is long enough. */
  ghost function Extend(h: Hashes, material: Bytes, size: nat): (m: Bytes)
    requires DigestsAre32(h)
    ensures |m| >= size && material <= m
    decreases size - |material|
  {
    if |material| >= size then material else Extend(h, material + h.sha256(material), size)
  }

  ghost function InitialState(h: Hashes, s: Session, size: nat): (st: State)
    requires DigestsAre32(h)
    ensures st.step == 0 && |st.bytes| == size
  {
    var digest := h.hmac(SessionKey(h, s), INIT_LABEL + Utf8(s.nonce) + BAR + Utf8(s.context));
    State(0, Extend(h, digest, size)[..size])
  }

  method InitializeSchedulerState(h: Hashes, s: Session, size: nat) returns (st: State)
    requires DigestsAre32(h)
    ensures st == InitialState(h, s, size)
  {
    var digest := h.hmac(SessionKey(h, s), INIT_LABEL + Utf8(s.nonce) + BAR + Utf8(s.context));
    var material := digest;
    while |material| < size
      invariant Extend(h, material, size) == Extend(h, digest, size)
    {
      material := material + h.sha256(material);
    }
    return State(0, material[..size]);
  }

  /** Bitwise exclusive or of the numbers below m, a power of two. */
  function XorBelow(a: nat, b: nat, m: nat): (x: nat)
    requires m >= 1
    ensures x < m
  {
    if m == 1 then 0
    else (if a % 2 == b % 2 then 0 else 1) + 2 * XorBelow(a / 2, b / 2, m / 2)
  }

  /** zip stops at the shorter input. */
  function XorZip(a: Bytes, b: Bytes): (c: Bytes)
    ensures |c| == if |a| <= |b| then |a| else |b|
  {
    if a == [] || b == [] then [] else [XorBelow(a[0], b[0], 256)] + XorZip(a[1..], b[1..])
  }

  function StepState(h: Hashes, current: State, sessionKey: Bytes, position: nat): State {
    var payload := STEP_LABEL + BigEndian(current.step, U64_BYTES) + BAR
                   + BigEndian(position, U64_BYTES) + BAR + current.bytes;
    var digest := h.hmac(sessionKey, payload);
    var cut := if |current.bytes| <= |digest| then digest[..|current.bytes|] else digest;
    State(current.step + 1, XorZip(cut, current.bytes))
  }

  /** None stands for the ValueError raised when fewer than 16 bytes are left. */
  function SchedulerView(h: Hashes, index: nat, st: State, c: Config): Option<Row>
    requires c.Valid()
  {
    var raw := st.bytes;
    if |raw| < 16 then None
    else
      var x0, x1, x2, x3 := Word(raw, 0), Word(raw, 4), Word(raw, 8), Word(raw, 12);
      Some(Row(index, raw, Wrap(x0, c.bucketCount), x1 % 4, Wrap(x2, c.dummyModulus) == 0,
               h.ridge(x1, x2, x3), if |raw| > 16 then raw[16] else raw[0]))
  }

  /** The state after the first n positions. */
  ghost function StateAt(h: Hashes, s: Session, c: Config, n: nat): State
    requires DigestsAre32(h) && c.Valid()
  {
    if n == 0 then InitialState(h, s, c.stateBytes)
    else StepState(h, StateAt(h, s, c, n - 1), SessionKey(h, s), n - 1)
  }

  ghost function RowAt(h: Hashes, s: Session, c: Config, i: nat): Option<Row>
    requires DigestsAre32(h) && c.Valid()
  {
    SchedulerView(h, i, StateAt(h, s, c, i + 1), c)
  }

  lemma StepSize(h: Hashes, current: State, sessionKey: Bytes, position: nat)
    requires DigestsAre32(h)
    ensures var next := StepState(h, current, sessionKey, position);
      && next.step == current.step + 1
      && |next.bytes| == if |current.bytes| <= 32 then |current.bytes| else 32
  {
  }

  /** Every step leaves min(stateBytes, 32) bytes: a longer initial state shrinks at once. */
  lemma {:induction false} StateSize(h: Hashes, s: Session, c: Config, n: nat)
    requires DigestsAre32(h) && c.Valid()
    ensures StateAt(h, s, c, n).step == n
    ensures |StateAt(h, s, c, n).bytes| ==
      if n == 0 then c.stateBytes else if c.stateBytes <= 32 then c.stateBytes else 32
  {
    if n > 0 {
      StateSize(h, s, c, n - 1);
      StepSize(h, StateAt(h, s, c, n - 1), SessionKey(h, s), n - 1);
    }
  }

  predicate InRange(row: Row, i: nat, c: Config) {
    && row.index == i
    && row.bucket < c.bucketCount && row.channel < 4
    && |row.state| == (if c.stateBytes <= 32 then c.stateBytes else 32)
    && (row.mask == if |row.state| > 16 then row.state[16] else if |row.state| > 0 then row.state[0] else 0)
  }

  /** The view never raises, and its numbers are in range. */
  lemma RowsExist(h: Hashes, s: Session, c: Config, i: nat)
    requires DigestsAre32(h) && c.Valid()
    ensures RowAt(h, s, c, i).Some? && InRange(RowAt(h, s, c, i).value, i, c)
  {
    StateSize(h, s, c, i + 1);
  }

  /** The rows of a schedule for n tokens. */
  ghost function Rows(h: Hashes, s: Session, c: Config, n: nat): (rows: seq<Row>)
    requires DigestsAre32(h) && c.Valid()
    ensures |rows| == n
  {
    if n == 0 then []
    else
      RowsExist(h, s, c, n - 1);
      Rows(h, s, c, n - 1) + [RowAt(h, s, c, n - 1).value]
  }

  lemma {:induction false} RowsEntry(h: Hashes, s: Session, c: Config, n: nat, i: nat)
    requires DigestsAre32(h) && c.Valid() && i < n
    ensures RowAt(h, s, c, i) == Some(Rows(h, s, c, n)[i]) && InRange(Rows(h, s, c, n)[i], i, c)
  {
    RowsExist(h, s, c, n - 1);
    if i < n - 1 {
      RowsEntry(h, s, c, n - 1, i);
    }
  }

  /** The schedule of a shorter message is a prefix of the schedule of a longer one. */
  lemma RowsPrefix(h: Hashes, s: Session, c: Config, n: nat, m: nat)
    requires DigestsAre32(h) && c.Valid() && n <= m
    ensures Rows(h, s, c, n) == Rows(h, s, c, m)[..n]
  {
    forall i | 0 <= i < n ensures Rows(h, s, c, n)[i] == Rows(h, s, c, m)[i] {
      RowsEntry(h, s, c, n, i);
      RowsEntry(h, s, c, m, i);
    }
  }

  datatype ScheduleResult = ScheduleResult(tokenCount: nat, initial: State, rows: seq<Row>)

  method BuildSchedule(h: Hashes, s: Session, c: Config, tokenCount: nat) returns (r: Option<ScheduleResult>)
    requires DigestsAre32(h)
    ensures c.Valid() ==>
      r == Some(ScheduleResult(tokenCount, InitialState(h, s, c.stateBytes), Rows(h, s, c, tokenCount)))
    ensures !c.Valid() ==> r == None
  {
    if !c.Valid() {
      return None;
    }
    var sessionKey := SessionKey(h, s);
    var initial := InitializeSchedulerState(h, s, c.stateBytes);
    var state := initial;
    var out: seq<Row> := [];
    for i := 0 to tokenCount
      invariant state == StateAt(h, s, c, i)
      invariant out == Rows(h, s, c, i)
    {
      state := StepState(h, state, sessionKey, i);
      var view := SchedulerView(h, i, state, c);
      RowsExist(h, s, c, i);
      match view {
        case None => return None;
        case Some(row) => out := out + [row];
      }
    }
    return Some(ScheduleResult(tokenCount, initial, out));
  }
}
