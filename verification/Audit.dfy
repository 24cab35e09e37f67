/** The nonce registry and the nine-case packet audit. */
module Audit {
  import opened Prelude
  import opened Utf
  import opened Codec
  import opened Schedule
  import opened Packet
  import opened PacketTheorems

  // -------- The nonce registry --------

  type Store = map<Bytes, map<string, nat>>

  function Uses(store: Store, namespace: Bytes, nonce: string): nat {
    if namespace in store && nonce in store[namespace] then store[namespace][nonce] else 0
  }

  function Registered(store: Store, namespace: Bytes, nonce: string): Store {
    var nonces := if namespace in store then store[namespace] else map[];
    store[namespace := nonces[nonce := Uses(store, namespace, nonce) + 1]]
  }

  function Namespace(h: Hashes, masterKey: string, context: string): Bytes {
    h.sha256(Utf8(Joined(masterKey, context)))
  }

  datatype NonceCheck = NonceCheck(namespace: Bytes, nonce: string, reused: bool, priorUses: nat)

  /** The registry file, read and rewritten on every check. */
  class NonceRegistry {
    var store: Store

    constructor ()
      ensures store == map[]
    {
      store := map[];
    }

    method CheckAndRegister(h: Hashes, s: Session) returns (r: NonceCheck)
      modifies this
      ensures var ns := Namespace(h, s.masterKey, s.context); var prior := Uses(old(store), ns, s.nonce);
        r == NonceCheck(ns, s.nonce, prior > 0, prior) && store == Registered(old(store), ns, s.nonce)
    {
      var namespace := Namespace(h, s.masterKey, s.context);
      var nonces: map<string, nat> := map[];
      if namespace in store {
        nonces := store[namespace];
      }
      var prior: nat := 0;
      if s.nonce in nonces {
        prior := nonces[s.nonce];
      }
      nonces := nonces[s.nonce := prior + 1];
      store := store[namespace := nonces];
      r := NonceCheck(namespace, s.nonce, prior > 0, prior);
    }
  }

  /** The registry after a run of checks that began with an empty one. */
  function AfterChecks(checks: seq<(Bytes, string)>): Store {
    if checks == [] then map[]
    else
      var last := checks[|checks| - 1];
      Registered(AfterChecks(checks[..|checks| - 1]), last.0, last.1)
  }

  /** The registry counts exactly the earlier checks of the same namespace and nonce, so a
      nonce is reported as reused iff one of them named it. */
  lemma {:induction false} UsesAreCounted(checks: seq<(Bytes, string)>, namespace: Bytes, nonce: string)
    ensures Uses(AfterChecks(checks), namespace, nonce) == multiset(checks)[(namespace, nonce)]
    ensures Uses(AfterChecks(checks), namespace, nonce) > 0 <==> (namespace, nonce) in checks
  {
    if checks != [] {
      var init, last := checks[..|checks| - 1], checks[|checks| - 1];
      UsesAreCounted(init, namespace, nonce);
      assert checks == init + [last];
    }
  }

  /** The text that names a namespace. */
  function Joined(masterKey: string, context: string): string { masterKey + "|" + context }

  /** The longer key holds the shorter one, a separator and the start of the other's context. */
  ghost predicate Shifted(k: string, c: string, k': string, c': string) {
    exists t: string :: k' == k + "|" + t && c == t + "|" + c'
  }

  lemma JoinedIff(k: string, c: string, k': string, c': string)
    requires |k| <= |k'|
    ensures Joined(k, c) == Joined(k', c') <==> (k == k' && c == c') || Shifted(k, c, k', c')
  {
    var s, s' := Joined(k, c), Joined(k', c');
    assert s == k + ("|" + c) && s' == k' + ("|" + c');
    if s == s' {
      assert k == s[..|k|] == s'[..|k|] == k'[..|k|];
      if |k| == |k'| {
        assert c == s[|k| + 1..] == s'[|k| + 1..] == c';
      } else {
        var t := k'[|k| + 1..];
        assert k'[|k|] == s'[|k|] == s[|k|] == '|';
        assert k' == k + "|" + t;
        assert c == s[|k| + 1..] == s'[|k| + 1..] == t + "|" + c';
      }
    }
    if Shifted(k, c, k', c') {
      var t: string :| k' == k + "|" + t && c == t + "|" + c';
      assert s == k + "|" + (t + "|" + c') == s';
    }
  }

  lemma Utf8Injective(s: string, t: string)
    ensures Utf8(s) == Utf8(t) <==> s == t
  {
    if Utf8(s) == Utf8(t) {
      DecodeEncodeAll(Scalars(s));
      DecodeEncodeAll(Scalars(t));
      ScalarsInjective(s, t);
    }
  }

  /** The hash tells apart the two texts that name these namespaces. */
  ghost predicate Separates(h: Hashes, k: string, c: string, k': string, c': string) {
    h.sha256(Utf8(Joined(k, c))) == h.sha256(Utf8(Joined(k', c'))) ==> Utf8(Joined(k, c)) == Utf8(Joined(k', c'))
  }

  /** Two pairs of key and context share a namespace iff they are the same pair, or one key
      continues the other across a separator that its own context then lacks. */
  lemma NamespacesMeetIff(h: Hashes, k: string, c: string, k': string, c': string)
    requires |k| <= |k'| && Separates(h, k, c, k', c')
    ensures Namespace(h, k, c) == Namespace(h, k', c') <==> (k == k' && c == c') || Shifted(k, c, k', c')
  {
    JoinedIff(k, c, k', c');
    Utf8Injective(Joined(k, c), Joined(k', c'));
  }

  /** Different pairs never meet if neither context holds a separator, or neither key does. */
  lemma PlainPairsNeverMeet(h: Hashes, k: string, c: string, k': string, c': string)
    requires Separates(h, k, c, k', c') && Separates(h, k', c', k, c) && (k, c) != (k', c')
    requires ('|' !in c && '|' !in c') || ('|' !in k && '|' !in k')
    ensures Namespace(h, k, c) != Namespace(h, k', c')
  {
    if |k| <= |k'| {
      NamespacesMeetIff(h, k, c, k', c');
      NotShifted(k, c, k', c');
    } else {
      NamespacesMeetIff(h, k', c', k, c);
      NotShifted(k', c', k, c);
    }
  }

  lemma NotShifted(k: string, c: string, k': string, c': string)
    requires '|' !in c || '|' !in k'
    ensures !Shifted(k, c, k', c')
  {
    forall t: string ensures !(k' == k + "|" + t && c == t + "|" + c') {
      assert (k + "|" + t)[|k|] == '|' && (t + "|" + c')[|t|] == '|';
    }
  }

  /** A concrete pair of pairs with one namespace. */
  lemma NamespacesCanMeet(h: Hashes)
    ensures Namespace(h, "a|b", "c") == Namespace(h, "a", "b|c")
  {
    assert Joined("a|b", "c") == Joined("a", "b|c");
  }

  // -------- The audit --------

  datatype AuditCase = AuditCase(name: string, expected: bool, actual: bool, passed: bool, recovered: Option<string>)

  datatype AuditResult = AuditResult(nonceCheck: NonceCheck, packet: Packet, cases: seq<AuditCase>)

  datatype AuditError = NotBuilt(error: PacketError) | EmptyCiphertext

  function FlipFirst(b: Bytes): Bytes
    requires b != []
  {
    [if b[0] % 2 == 0 then b[0] + 1 else b[0] - 1] + b[1..]
  }

  function CaseOf(name: string, expected: bool, r: Result<OpenResult, PacketError>): AuditCase {
    AuditCase(name, expected, r.Ok?, r.Ok? == expected, if r.Ok? then Some(r.value.recoveredPlaintext) else None)
  }

  /** What one case opens, under which key. */
  datatype Trial = Trial(name: string, expected: bool, packet: Packet, key: string)

  function Trials(p: Packet, s: Session): (ts: seq<Trial>)
    requires p.ciphertext != []
    ensures |ts| == 9
  {
    [Trial("baseline", true, p, s.masterKey),
     Trial("wrong_master_key", false, p, s.masterKey + "::wrong"),
     Trial("tampered_header_packet_nonce", false, p.(header := p.header.(packetNonce := s.nonce + "::tampered")), s.masterKey),
     Trial("tampered_header_context", false, p.(header := p.header.(context := s.context + "::tampered")), s.masterKey),
     Trial("tampered_header_token_count", false, p.(header := p.header.(tokenCount := p.header.tokenCount + 1)), s.masterKey),
     Trial("tampered_header_alg", false, p.(header := p.header.(alg := "Bad-AEAD")), s.masterKey),
     Trial("tampered_header_version", false, p.(header := p.header.(version := 999)), s.masterKey),
     Trial("tampered_header_bry_mode", false, p.(header := p.header.(bryMode := "bad-mode")), s.masterKey),
     Trial("tampered_ciphertext", false, p.(ciphertext := FlipFirst(p.ciphertext)), s.masterKey)]
  }

  ghost predicate Ran(h: Hashes, a: Aead, c: Config, t: Trial, r: AuditCase)
    requires DigestsAre32(h)
  {
    r == CaseOf(t.name, t.expected, Opened(h, a, t.packet, t.key, c))
  }

  method RunCase(h: Hashes, a: Aead, c: Config, t: Trial) returns (r: AuditCase)
    requires DigestsAre32(h)
    ensures Ran(h, a, c, t, r)
  {
    var outcome := OpenPacket(h, a, t.packet, t.key, c);
    r := CaseOf(t.name, t.expected, outcome);
  }

  method RunCases(h: Hashes, a: Aead, c: Config, ts: seq<Trial>) returns (cases: seq<AuditCase>)
    requires DigestsAre32(h) && |ts| == 9
    ensures |cases| == 9 && forall i :: 0 <= i < 9 ==> Ran(h, a, c, ts[i], cases[i])
  {
    hide Ran, DigestsAre32;
    var case0 := RunCase(h, a, c, ts[0]);
    var case1 := RunCase(h, a, c, ts[1]);
    var case2 := RunCase(h, a, c, ts[2]);
    var case3 := RunCase(h, a, c, ts[3]);
    var case4 := RunCase(h, a, c, ts[4]);
    var case5 := RunCase(h, a, c, ts[5]);
    var case6 := RunCase(h, a, c, ts[6]);
    var case7 := RunCase(h, a, c, ts[7]);
    var case8 := RunCase(h, a, c, ts[8]);
    cases := [case0, case1, case2, case3, case4, case5, case6, case7, case8];
  }

  /** The nonce is registered even when building then fails. */
  method RunAudit(h: Hashes, a: Aead, plaintext: string, s: Session, c: Config, registry: NonceRegistry)
    returns (r: Result<AuditResult, AuditError>)
    requires DigestsAre32(h)
    modifies registry
    ensures registry.store == Registered(old(registry.store), Namespace(h, s.masterKey, s.context), s.nonce)
    ensures match Built(h, a, plaintext, s, c)
      case Err(e) => r == Err(NotBuilt(e))
      case Ok(b) =>
        if b.packet.ciphertext == [] then r == Err(EmptyCiphertext)
        else
          && r.Ok? && r.value.packet == b.packet && |r.value.cases| == 9
          && r.value.nonceCheck.priorUses == Uses(old(registry.store), Namespace(h, s.masterKey, s.context), s.nonce)
          && forall i :: 0 <= i < 9 ==> Ran(h, a, c, Trials(b.packet, s)[i], r.value.cases[i])
  {
    var check := registry.CheckAndRegister(h, s);
    var built := BuildPacket(h, a, plaintext, s, c);
    if built.Err? {
      return Err(NotBuilt(built.error));
    }
    var good := built.value.packet;
    if good.ciphertext == [] {
      return Err(EmptyCiphertext);
    }
    var cases := RunCases(h, a, c, Trials(good, s));
    return Ok(AuditResult(check, good, cases));
  }

  /** Every trial but the first changes the packet or the key. */
  lemma TrialsDiffer(p: Packet, s: Session, i: nat)
    requires p.ciphertext != [] && p.header == HeaderOf(s, p.header.tokenCount) && i < 9
    ensures var t := Trials(p, s)[i];
      && (t.expected <==> i == 0)
      && (i == 0 ==> t.packet == p && t.key == s.masterKey)
      && (i == 1 ==> t.packet == p && t.key == s.masterKey + "::wrong")
      && (i >= 2 ==> t.packet != p)
  {
    var q := Trials(p, s)[i].packet;
    assert |s.nonce + "::tampered"| != |s.nonce| && |s.context + "::tampered"| != |s.context|;
    assert |"Bad-AEAD"| != |SUPPORTED_ALG| && |"bad-mode"| != |SUPPORTED_MODE|;
    assert FlipFirst(p.ciphertext)[0] != p.ciphertext[0];
  }

  /** All nine cases pass when the cipher opens only what was sealed and the wrong master key
      derives another cipher key; the baseline case recovers what the codec preserves. */
  lemma AllCasesPass(h: Hashes, a: Aead, plaintext: string, s: Session, c: Config, i: nat, r: AuditCase)
    requires DigestsAre32(h) && Built(h, a, plaintext, s, c).Ok?
    requires c.Valid() && Normalize(plaintext).Ok? && OpensOnly(a, CallOf(h, s, Carried(h, s, c, plaintext)))
    requires AeadKey(h, s.masterKey + "::wrong", s.context) != AeadKey(h, s.masterKey, s.context)
    requires var p := Built(h, a, plaintext, s, c).value.packet;
      p.ciphertext != [] && i < 9 && Ran(h, a, c, Trials(p, s)[i], r)
    ensures r.passed
    ensures i == 0 ==> r.recovered == Some(Decode(Encode(Normalize(plaintext).value)).value)
  {
    hide Trials, Built, Opened;
    var us := Carried(h, s, c, plaintext);
    BuiltIff(h, a, plaintext, s, c);
    var p := BuiltPacket(h, a, s, us);
    TrialsDiffer(p, s, i);
    var t := Trials(p, s)[i];
    OpenOnly(h, a, s, us, t.packet, t.key, c);
    OpenedCarried(h, s, c, plaintext);
  }
}
