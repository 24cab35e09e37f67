/** What each derived key, state and nonce depends on: two derivations agree only where their
    inputs do, and no two purposes share an input. */
module KeySchedule {
  import opened Prelude
  import opened Utf
  import opened Schedule
  import opened Ring
  import opened Packet
  import opened Audit

  /** HMAC tells these two inputs apart by the first n bytes of its output. */
  predicate Apart(h: Hashes, n: nat, key: Bytes, text: Bytes, key': Bytes, text': Bytes)
    requires n <= |h.hmac(key, text)| && n <= |h.hmac(key', text')|
  {
    h.hmac(key, text)[..n] == h.hmac(key', text')[..n] ==> key == key' && text == text'
  }

  // -------- Texts with a separator --------

  lemma {:induction false} EncodeConcat(a: seq<Scalar>, b: seq<Scalar>)
    ensures EncodeAll(a + b) == EncodeAll(a) + EncodeAll(b)
  {
    if a == [] {
      assert a + b == b;
    } else {
      assert (a + b)[1..] == a[1..] + b;
      EncodeConcat(a[1..], b);
    }
  }

  lemma Utf8OfJoined(a: string, b: string)
    ensures Utf8(Joined(a, b)) == Utf8(a) + BAR + Utf8(b)
  {
    var bar: seq<Scalar> := [0x7C];
    assert Scalars(Joined(a, b)) == Scalars(a) + (bar + Scalars(b));
    EncodeConcat(Scalars(a), bar + Scalars(b));
    EncodeConcat(bar, Scalars(b));
    assert EncodeAll(bar) == BAR + EncodeAll([]);
    assert BAR + [] == BAR;
    assert Utf8(a) + (BAR + Utf8(b)) == Utf8(a) + BAR + Utf8(b);
  }

  /** The same nonce and context, or two pairs that join to one text: the first part of one
      continues the first part of the other across a separator. */
  ghost predicate SameJoined(a: string, b: string, c: string, d: string) {
    (a == c && b == d) || Shifted(a, b, c, d) || Shifted(c, d, a, b)
  }

  lemma SameJoinedIff(a: string, b: string, c: string, d: string)
    ensures SameJoined(a, b, c, d) <==> Joined(a, b) == Joined(c, d)
  {
    if |a| == |c| {
      JoinedIff(a, b, c, d);
      LongerIfShifted(a, b, c, d);
      LongerIfShifted(c, d, a, b);
    } else if |a| < |c| {
      JoinedIff(a, b, c, d);
      LongerIfShifted(c, d, a, b);
    } else {
      JoinedIff(c, d, a, b);
      LongerIfShifted(a, b, c, d);
    }
  }

  lemma LongerIfShifted(a: string, b: string, c: string, d: string)
    ensures Shifted(a, b, c, d) ==> |a| < |c|
  {
  }

  lemma LabelledIff(tag: Bytes, a: string, b: string, c: string, d: string)
    ensures tag + Utf8(a) + BAR + Utf8(b) == tag + Utf8(c) + BAR + Utf8(d) <==> SameJoined(a, b, c, d)
  {
    Utf8OfJoined(a, b);
    Utf8OfJoined(c, d);
    Cut(tag, Utf8(a), BAR, Utf8(b));
    Cut(tag, Utf8(c), BAR, Utf8(d));
    SamePrefixIff(tag, Utf8(Joined(a, b)), Utf8(Joined(c, d)));
    Utf8Injective(Joined(a, b), Joined(c, d));
    SameJoinedIff(a, b, c, d);
  }

  lemma Cut(a: Bytes, b: Bytes, c: Bytes, d: Bytes)
    ensures a + b + c + d == a + (b + c + d)
  {
  }

  lemma SamePrefixIff(p: Bytes, a: Bytes, b: Bytes)
    ensures p + a == p + b <==> a == b
  {
    assert (p + a)[|p|..] == a && (p + b)[|p|..] == b;
  }

  // -------- The keys of the schedule --------

  /** Session keys agree iff the master keys do and nonce and context join to one text. */
  lemma SessionKeysMeetIff(h: Hashes, s: Session, t: Session)
    requires DigestsAre32(h)
    requires Apart(h, 32, Utf8(s.masterKey), SESSION_LABEL + Utf8(s.nonce) + BAR + Utf8(s.context),
                   Utf8(t.masterKey), SESSION_LABEL + Utf8(t.nonce) + BAR + Utf8(t.context))
    ensures SessionKey(h, s) == SessionKey(h, t) <==>
      s.masterKey == t.masterKey && SameJoined(s.nonce, s.context, t.nonce, t.context)
  {
    LabelledIff(SESSION_LABEL, s.nonce, s.context, t.nonce, t.context);
    Utf8Injective(s.masterKey, t.masterKey);
  }

  /** So do initial states, by as many of their bytes as one digest has. */
  lemma InitialStatesMeetIff(h: Hashes, s: Session, t: Session, size: nat)
    requires DigestsAre32(h)
    requires Apart(h, if size <= 32 then size else 32,
                   SessionKey(h, s), INIT_LABEL + Utf8(s.nonce) + BAR + Utf8(s.context),
                   SessionKey(h, t), INIT_LABEL + Utf8(t.nonce) + BAR + Utf8(t.context))
    ensures InitialState(h, s, size) == InitialState(h, t, size) <==>
      SessionKey(h, s) == SessionKey(h, t) && SameJoined(s.nonce, s.context, t.nonce, t.context)
  {
    LabelledIff(INIT_LABEL, s.nonce, s.context, t.nonce, t.context);
    var n := if size <= 32 then size else 32;
    var d := h.hmac(SessionKey(h, s), INIT_LABEL + Utf8(s.nonce) + BAR + Utf8(s.context));
    var e := h.hmac(SessionKey(h, t), INIT_LABEL + Utf8(t.nonce) + BAR + Utf8(t.context));
    assert InitialState(h, s, size).bytes[..n] == Extend(h, d, size)[..n] == d[..n];
    assert InitialState(h, t, size).bytes[..n] == Extend(h, e, size)[..n] == e[..n];
  }

  // -------- One step --------

  /** The bytes that a step hashes. */
  function StepText(step: nat, position: nat, state: Bytes): Bytes {
    STEP_LABEL + BigEndian(step, 8) + BAR + BigEndian(position, 8) + BAR + state
  }

  lemma {:induction false} BigEndianIff(m: nat, n: nat, width: nat)
    ensures BigEndian(m, width) == BigEndian(n, width) <==> m % Power(width) == n % Power(width)
  {
    if width > 0 {
      BigEndianIff(m / 256, n / 256, width - 1);
      var a, b := BigEndian(m, width), BigEndian(n, width);
      assert a[..width - 1] == BigEndian(m / 256, width - 1) && a[width - 1] == m % 256;
      assert b[..width - 1] == BigEndian(n / 256, width - 1) && b[width - 1] == n % 256;
      if a[..width - 1] == b[..width - 1] && a[width - 1] == b[width - 1] {
        assert a == a[..width - 1] + [a[width - 1]] && b == b[..width - 1] + [b[width - 1]];
      }
      LowDigit(m, Power(width - 1));
      LowDigit(n, Power(width - 1));
    }
  }

  function Power(width: nat): (p: nat)
    ensures p >= 1
  {
    if width == 0 then 1 else 256 * Power(width - 1)
  }

  lemma LowDigit(n: nat, p: nat)
    requires p >= 1
    ensures n % (256 * p) == n / 256 % p * 256 + n % 256
  {
    var q, r := n / 256, n % 256;
    var u, v := q / p, q % p;
    assert n == 256 * q + r && q == u * p + v;
    assert n == u * (256 * p) + (v * 256 + r) by { Expand(u, p, v); }
    assert 0 <= v * 256 + r < 256 * p;
    RemainderOf(u, v * 256 + r, 256 * p);
  }

  lemma Expand(u: nat, p: nat, v: nat)
    ensures 256 * (u * p + v) == u * (256 * p) + v * 256
  {
    assert u * (256 * p) == 256 * (u * p);
  }

  /** The hashed bytes hold step, position and state, up to 64 bits of the numbers. */
  lemma StepTextBinds(step: nat, position: nat, state: Bytes, step': nat, position': nat, state': Bytes)
    ensures StepText(step, position, state) == StepText(step', position', state') <==>
      step % Power(8) == step' % Power(8) && position % Power(8) == position' % Power(8) && state == state'
  {
    var a, b := StepText(step, position, state), StepText(step', position', state');
    var n := |STEP_LABEL|;
    assert a[n..n + 8] == BigEndian(step, 8) && a[n + 9..n + 17] == BigEndian(position, 8) && a[n + 18..] == state;
    assert b[n..n + 8] == BigEndian(step', 8) && b[n + 9..n + 17] == BigEndian(position', 8) && b[n + 18..] == state';
    BigEndianIff(step, step', 8);
    BigEndianIff(position, position', 8);
  }

  function Two(bits: nat): (p: nat)
    ensures p >= 1
  {
    if bits == 0 then 1 else 2 * Two(bits - 1)
  }

  /** The bit of this weight. */
  function BitAt(n: nat, k: nat): nat { n / Two(k) % 2 }

  lemma HalfBit(n: nat, k: nat)
    requires k > 0
    ensures BitAt(n, k) == BitAt(n / 2, k - 1)
  {
    HalfThenDivide(n, Two(k - 1));
  }

  lemma HalfThenDivide(n: nat, p: nat)
    requires p >= 1
    ensures n / (2 * p) == n / 2 / p
  {
    var q, r := n / (2 * p), n % (2 * p);
    assert n == q * (2 * p) + r;
    assert q * (2 * p) == 2 * (q * p);
    assert n / 2 == q * p + r / 2 && r / 2 < p;
    QuotientOf(q, r / 2, p);
  }

  lemma QuotientOf(q: nat, r: nat, p: nat)
    requires r < p
    ensures (q * p + r) / p == q
  {
    var x := q * p + r;
    RemainderOf(q, r, p);
    var y := x / p;
    assert x == y * p + r;
    assert (y - q) * p == 0;
    if y > q { Least(y - q, p); }
    if y < q { Least(q - y, p); }
  }

  /** Each bit of the mixed number is set iff the two bits it comes from differ. */
  lemma {:induction false} XorBits(a: nat, b: nat, bits: nat, k: nat)
    requires k < bits
    ensures BitAt(XorBelow(a, b, Two(bits)), k) == if BitAt(a, k) == BitAt(b, k) then 0 else 1
  {
    var x := XorBelow(a, b, Two(bits));
    assert x / 2 == XorBelow(a / 2, b / 2, Two(bits - 1));
    if k == 0 {
      assert Two(0) == 1;
    } else {
      XorBits(a / 2, b / 2, bits - 1, k - 1);
      HalfBit(x, k);
      HalfBit(a, k);
      HalfBit(b, k);
    }
  }

  lemma XorStep(a: nat, b: nat, m: nat)
    requires m >= 1
    ensures var x := XorBelow(a, b, 2 * m);
      x % 2 == (if a % 2 == b % 2 then 0 else 1) && x / 2 == XorBelow(a / 2, b / 2, m)
  {
  }

  lemma {:induction false} XorAgain(a: nat, b: nat, bits: nat)
    requires a < Two(bits) && b < Two(bits)
    ensures XorBelow(XorBelow(a, b, Two(bits)), b, Two(bits)) == a
  {
    if bits > 0 {
      var m := Two(bits - 1);
      var x := XorBelow(a, b, 2 * m);
      XorAgain(a / 2, b / 2, bits - 1);
      XorStep(a, b, m);
      XorStep(x, b, m);
      hide XorBelow;
      var y := XorBelow(x, b, 2 * m);
      assert y == y / 2 * 2 + y % 2 && a == a / 2 * 2 + a % 2;
    }
  }

  lemma XorByteAgain(a: Byte, b: Byte)
    ensures XorBelow(XorBelow(a, b, 256), b, 256) == a
  {
    assert Two(4) == 16 && Two(8) == 256;
    XorAgain(a, b, 8);
  }

  lemma {:induction false} XorZipAgain(a: Bytes, b: Bytes)
    ensures |a| <= |b| ==> XorZip(XorZip(a, b), b) == a
  {
    hide XorBelow;
    if a != [] && b != [] {
      XorByteAgain(a[0], b[0]);
      XorZipAgain(a[1..], b[1..]);
      assert XorZip(a, b)[1..] == XorZip(a[1..], b[1..]);
      assert [a[0]] + a[1..] == a;
    }
  }

  /** The next state mixed once more with the current one is the digest of the step, cut. */
  lemma StepMixes(h: Hashes, current: State, key: Bytes, position: nat)
    requires DigestsAre32(h)
    ensures var n := if |current.bytes| <= 32 then |current.bytes| else 32;
      XorZip(StepState(h, current, key, position).bytes, current.bytes)
        == h.hmac(key, StepText(current.step, position, current.bytes))[..n]
  {
    var digest := h.hmac(key, StepText(current.step, position, current.bytes));
    var cut := if |current.bytes| <= |digest| then digest[..|current.bytes|] else digest;
    XorZipAgain(cut, current.bytes);
    assert digest[..32] == digest;
  }

  /** From one state, steps under two keys or at two positions differ. */
  lemma StepsMeetIff(h: Hashes, current: State, key: Bytes, position: nat, key': Bytes, position': nat)
    requires DigestsAre32(h)
    requires Apart(h, if |current.bytes| <= 32 then |current.bytes| else 32,
                   key, StepText(current.step, position, current.bytes),
                   key', StepText(current.step, position', current.bytes))
    ensures StepState(h, current, key, position) == StepState(h, current, key', position') <==>
      key == key' && position % Power(8) == position' % Power(8)
  {
    StepMixes(h, current, key, position);
    StepMixes(h, current, key', position');
    StepTextBinds(current.step, position, current.bytes, current.step, position', current.bytes);
    hide StepText;
    if key == key' && position % Power(8) == position' % Power(8) {
      SameStep(h, current, key, position, position');
    }
  }

  lemma SameStep(h: Hashes, current: State, key: Bytes, position: nat, position': nat)
    requires position % Power(8) == position' % Power(8)
    ensures StepState(h, current, key, position) == StepState(h, current, key, position')
  {
    BigEndianIff(position, position', 8);
  }

  /** What a row reads of its state. */
  lemma ViewReads(h: Hashes, index: nat, st: State, c: Config)
    requires c.Valid() && |st.bytes| >= 16
    ensures var raw := st.bytes; var r := SchedulerView(h, index, st, c);
      && r.Some? && r.value.index == index && r.value.state == raw
      && r.value.bucket == (raw[0] * 0x100_0000 + raw[1] * 0x1_0000 + raw[2] * 0x100 + raw[3]) % c.bucketCount
      && r.value.channel == raw[7] % 4
      && (r.value.dummy <==> (raw[8] * 0x100_0000 + raw[9] * 0x1_0000 + raw[10] * 0x100 + raw[11]) % c.dummyModulus == 0)
  {
    var raw := st.bytes;
    WrapIsRemainder(Word(raw, 0), c.bucketCount);
    WrapIsRemainder(Word(raw, 8), c.dummyModulus);
    hide Wrap;
  }

  // -------- The packet's cipher key and nonce --------

  lemma AeadKeysMeetIff(h: Hashes, k: string, c: string, k': string, c': string)
    requires DigestsAre32(h) && Apart(h, 32, Utf8(k), KEY_LABEL + Utf8(c), Utf8(k'), KEY_LABEL + Utf8(c'))
    ensures AeadKey(h, k, c) == AeadKey(h, k', c') <==> k == k' && c == c'
  {
    SamePrefixIff(KEY_LABEL, Utf8(c), Utf8(c'));
    Utf8Injective(c, c');
    Utf8Injective(k, k');
  }

  /** Cipher nonces agree iff the cipher keys do and packet nonce and context join to one text; so
      under one key and context every packet nonce gives its own cipher nonce. */
  lemma AeadNoncesMeetIff(h: Hashes, key: Bytes, n: string, c: string, key': Bytes, n': string, c': string)
    requires DigestsAre32(h)
    requires Apart(h, 12, key, NONCE_LABEL + Utf8(n) + BAR + Utf8(c), key', NONCE_LABEL + Utf8(n') + BAR + Utf8(c'))
    ensures AeadNonce(h, key, n, c) == AeadNonce(h, key', n', c') <==> key == key' && SameJoined(n, c, n', c')
    ensures key == key' && c == c' ==> (AeadNonce(h, key, n, c) == AeadNonce(h, key', n', c') <==> n == n')
  {
    LabelledIff(NONCE_LABEL, n, c, n', c');
    SameJoinedIff(n, c, n', c');
    if c == c' && Joined(n, c) == Joined(n', c') {
      assert |n| == |n'|;
      assert Joined(n, c)[..|n|] == n && Joined(n', c')[..|n|] == n';
    }
  }

  // -------- Labels --------

  const LABELS: seq<Bytes> := [SESSION_LABEL, INIT_LABEL, STEP_LABEL, KEY_LABEL, NONCE_LABEL]

  /** Some position within both tells one label from another. */
  predicate Splits(a: Bytes, b: Bytes) { exists k :: 0 <= k < |a| && k < |b| && a[k] != b[k] }

  lemma LabelsSplit(i: nat, j: nat)
    requires i < j < 5
    ensures Splits(LABELS[i], LABELS[j])
  {
    var k := if i == 1 && j == 2 then 18 else if i == 3 then 17 else if i == 0 && j <= 2 then 13 else 12;
    assert LABELS[i][k] != LABELS[j][k];
  }

  /** No hashed text of one purpose is ever one of another purpose. */
  lemma LabelsSeparate(i: nat, j: nat, x: Bytes, y: Bytes)
    requires i < 5 && j < 5
    ensures LABELS[i] + x == LABELS[j] + y <==> i == j && x == y
  {
    var a, b := LABELS[i] + x, LABELS[j] + y;
    if i == j {
      SamePrefixIff(LABELS[i], x, y);
    } else {
      LabelsSplit(if i < j then i else j, if i < j then j else i);
      hide LABELS;
      var k :| 0 <= k < |LABELS[i]| && k < |LABELS[j]| && LABELS[i][k] != LABELS[j][k];
      assert a[k] == LABELS[i][k] && b[k] == LABELS[j][k];
    }
  }
}
