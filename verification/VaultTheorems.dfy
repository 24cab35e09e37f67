/** What the vault promises: opening undoes sealing, nothing else opens, rotation keeps the content. */
module VaultTheorems {
  import opened Prelude
  import opened Utf
  import opened Json
  import opened Canonical
  import opened CanonicalTheorems
  import opened Aad
  import opened Vault

  // -------- The validator on the objects that sealing builds --------

  lemma KdfPasses(h: Header)
    ensures EnforceKdfCaps(Some(StoredKdf(h))).None? <==>
      && h.kdfAlgorithm == KDF_ALG && h.salt != []
      && MIN_OPSLIMIT <= h.opslimit <= MAX_OPSLIMIT && MIN_MEMLIMIT <= h.memlimit <= MAX_MEMLIMIT
    ensures Get(StoredKdf(h), K_SALT) == Some(Str(h.salt))
    ensures Get(StoredKdf(h), K_OPSLIMIT) == Some(Num(h.opslimit))
    ensures Get(StoredKdf(h), K_MEMLIMIT) == Some(Num(h.memlimit))
  {
    var vs := [Str(h.kdfAlgorithm), Num(h.opslimit), Num(h.memlimit), Str(h.salt)];
    StoredKeysDiffer();
    FindInRecord(STORED_KDF_KEYS, vs, 0);
    FindInRecord(STORED_KDF_KEYS, vs, 1);
    FindInRecord(STORED_KDF_KEYS, vs, 2);
    FindInRecord(STORED_KDF_KEYS, vs, 3);
  }

  lemma WrapPasses(w: Vault)
    ensures CheckWrap(Some(StoredWrap(w))).None? <==>
      w.header.wrapAlgorithm == AEAD_ALG && w.header.wrapNonce != [] && w.wrappedKey != []
    ensures Get(StoredWrap(w), K_NONCE) == Some(Str(w.header.wrapNonce))
    ensures Get(StoredWrap(w), K_WRAPPED_KEY) == Some(Str(w.wrappedKey))
  {
    var vs := [Str(w.header.wrapAlgorithm), Str(w.header.wrapNonce), Str(w.wrappedKey)];
    StoredKeysDiffer();
    FindInRecord(WRAP_KEYS, vs, 0);
    FindInRecord(WRAP_KEYS, vs, 1);
    FindInRecord(WRAP_KEYS, vs, 2);
  }

  lemma ContentPasses(w: Vault)
    ensures CheckContent(Some(StoredContent(w))).None? <==>
      w.header.contentAlgorithm == AEAD_ALG && w.header.contentNonce != [] && w.ciphertext != []
    ensures Get(StoredContent(w), K_NONCE) == Some(Str(w.header.contentNonce))
    ensures Get(StoredContent(w), K_CIPHERTEXT) == Some(Str(w.ciphertext))
  {
    var vs := [Str(w.header.contentAlgorithm), Str(w.header.contentNonce), Str(w.ciphertext)];
    StoredKeysDiffer();
    FindInRecord(CONTENT_KEYS, vs, 0);
    FindInRecord(CONTENT_KEYS, vs, 1);
    FindInRecord(CONTENT_KEYS, vs, 2);
  }

  lemma TopPasses(w: Vault)
    ensures CheckTop(VaultValue(w)).None? <==>
      w.header.schema == SCHEMA_V2 && (w.header.mode == MODE_SELF || w.header.mode == MODE_SHARE)
    ensures Get(VaultValue(w), K_SCHEMA) == Some(Str(w.header.schema))
    ensures Get(VaultValue(w), K_VERSION) == Some(Str(w.header.version))
    ensures Get(VaultValue(w), K_CREATED_AT) == Some(Str(w.header.createdAt))
    ensures Get(VaultValue(w), K_MODE) == Some(Str(w.header.mode))
    ensures Get(VaultValue(w), K_KDF) == Some(StoredKdf(w.header))
    ensures Get(VaultValue(w), K_WRAP) == Some(StoredWrap(w))
    ensures Get(VaultValue(w), K_CONTENT) == Some(StoredContent(w))
  {
    StoredKeysDiffer();
    FindInRecord(VAULT_KEYS, VaultValues(w), 0);
    FindInRecord(VAULT_KEYS, VaultValues(w), 1);
    FindInRecord(VAULT_KEYS, VaultValues(w), 2);
    FindInRecord(VAULT_KEYS, VaultValues(w), 3);
    FindInRecord(VAULT_KEYS, VaultValues(w), 4);
    FindInRecord(VAULT_KEYS, VaultValues(w), 5);
    FindInRecord(VAULT_KEYS, VaultValues(w), 6);
  }

  /** The validator accepts a stored vault iff its fields are acceptable, and reads them back. */
  lemma ValidateIff(w: Vault)
    ensures Validate(VaultValue(w)).None? <==> Acceptable(w)
    ensures Acceptable(w) ==> Fields(VaultValue(w)) == w
  {
    TopPasses(w);
    KdfPasses(w.header);
    WrapPasses(w);
    ContentPasses(w);
  }

  lemma VaultIsProper(w: Vault)
    ensures Proper(VaultValue(w))
  {
    StoredKeysDiffer();
    RecordIsProper(STORED_KDF_KEYS, [Str(w.header.kdfAlgorithm), Num(w.header.opslimit), Num(w.header.memlimit), Str(w.header.salt)]);
    RecordIsProper(WRAP_KEYS, [Str(w.header.wrapAlgorithm), Str(w.header.wrapNonce), Str(w.wrappedKey)]);
    RecordIsProper(CONTENT_KEYS, [Str(w.header.contentAlgorithm), Str(w.header.contentNonce), Str(w.ciphertext)]);
    RecordIsProper(VAULT_KEYS, VaultValues(w));
  }

  // -------- The order of keys does not matter --------

  lemma {:induction false} FindIs(ms: seq<(JsString, Value)>, key: JsString)
    ensures Find(ms, key).Some? <==> exists i :: 0 <= i < |ms| && ms[i].0 == key
  {
    if ms != [] {
      FindIs(ms[1..], key);
      if i :| 0 <= i < |ms| && ms[i].0 == key {
        if i > 0 {
          assert ms[1..][i - 1].0 == key;
        }
      }
    }
  }

  function NormOption(v: Option<Value>): Option<Value> {
    if v.None? then None else Some(Norm(v.value))
  }

  lemma FindNorm(ms: seq<(JsString, Value)>, key: JsString)
    requires DistinctKeys(ms)
    ensures Find(SortByKey(NormMembers(ms)), key) == NormOption(Find(ms, key))
  {
    var ps := NormMembers(ms);
    var sorted := SortByKey(ps);
    SortElements(ps);
    SortAscends(ps);
    AscendingIsDistinct(sorted);
    FindIs(ms, key);
    FindIs(sorted, key);
    if Find(ms, key).Some? {
      var i :| 0 <= i < |ms| && ms[i].0 == key;
      FindInMembers(ms, i);
      InMultiset(ps[i], ps);
      InMultiset(ps[i], sorted);
      var j :| 0 <= j < |sorted| && sorted[j] == ps[i];
      FindInMembers(sorted, j);
    }
    if Find(sorted, key).Some? {
      var j :| 0 <= j < |sorted| && sorted[j].0 == key;
      InMultiset(sorted[j], sorted);
      InMultiset(sorted[j], ps);
      var i :| 0 <= i < |ps| && ps[i] == sorted[j];
      assert ms[i].0 == key;
    }
  }

  predicate IsLeaf(v: Option<Value>) { v.None? || (!v.value.Arr? && !v.value.Obj?) }

  /** Reading a property of the normal form gives the normal form of the property. */
  lemma GetNorm(v: Value, key: JsString)
    requires Proper(v)
    ensures Get(Norm(v), key) == NormOption(Get(v, key))
    ensures Get(v, key).Some? ==> Proper(Get(v, key).value)
    ensures IsRecord(Get(Norm(v), key)) <==> IsRecord(Get(v, key))
    ensures IsLeaf(Get(v, key)) || IsLeaf(Get(Norm(v), key)) ==> Get(Norm(v), key) == Get(v, key)
  {
    if v.Obj? {
      FindNorm(v.members, key);
      FindIs(v.members, key);
      if Get(v, key).Some? {
        var i :| 0 <= i < |v.members| && v.members[i].0 == key;
        FindInMembers(v.members, i);
      }
    }
  }

  lemma GetLeaf(v: Value, key: JsString)
    requires Proper(v)
    ensures IsText(Get(Norm(v), key)) || IsText(Get(v, key)) ==> Get(Norm(v), key) == Get(v, key)
    ensures forall low, high :: InBounds(Get(Norm(v), key), low, high) <==> InBounds(Get(v, key), low, high)
    ensures forall s :: Get(Norm(v), key) == Some(Str(s)) <==> Get(v, key) == Some(Str(s))
    ensures Get(v, key).Some? && Get(v, key).value.Num? ==> Get(Norm(v), key) == Get(v, key)
  {
    GetNorm(v, key);
  }

  lemma KdfNorm(v: Value)
    requires Proper(v)
    ensures EnforceKdfCaps(Some(Norm(v))) == EnforceKdfCaps(Some(v))
  {
    GetLeaf(v, K_ALGORITHM);
    GetLeaf(v, K_OPSLIMIT);
    GetLeaf(v, K_MEMLIMIT);
    GetLeaf(v, K_SALT);
  }

  lemma SectionNorm(v: Value)
    requires Proper(v)
    ensures CheckWrap(Some(Norm(v))) == CheckWrap(Some(v)) && CheckContent(Some(Norm(v))) == CheckContent(Some(v))
  {
    GetLeaf(v, K_ALGORITHM);
    GetLeaf(v, K_NONCE);
    GetLeaf(v, K_WRAPPED_KEY);
    GetLeaf(v, K_CIPHERTEXT);
  }

  lemma TopNorm(v: Value)
    requires Proper(v)
    ensures CheckTop(Norm(v)) == CheckTop(v)
  {
    GetLeaf(v, K_SCHEMA);
    GetLeaf(v, K_VERSION);
    GetLeaf(v, K_CREATED_AT);
    GetLeaf(v, K_MODE);
  }

  lemma ValidateNorm(v: Value)
    requires Proper(v)
    ensures Validate(Norm(v)) == Validate(v)
  {
    TopNorm(v);
    GetNorm(v, K_KDF);
    GetNorm(v, K_WRAP);
    GetNorm(v, K_CONTENT);
    if Get(v, K_KDF).Some? {
      KdfNorm(Get(v, K_KDF).value);
    }
    if Get(v, K_WRAP).Some? {
      SectionNorm(Get(v, K_WRAP).value);
    }
    if Get(v, K_CONTENT).Some? {
      SectionNorm(Get(v, K_CONTENT).value);
    }
  }

  lemma FieldsNorm(v: Value)
    requires Proper(v) && Validate(v).None? && Validate(Norm(v)).None?
    ensures Fields(Norm(v)) == Fields(v)
  {
    hide Norm;
    var kdf, wrap, content := Get(v, K_KDF).value, Get(v, K_WRAP).value, Get(v, K_CONTENT).value;
    GetNorm(v, K_KDF);
    GetNorm(v, K_WRAP);
    GetNorm(v, K_CONTENT);
    GetLeaf(v, K_VERSION);
    GetLeaf(v, K_CREATED_AT);
    GetLeaf(v, K_MODE);
    GetLeaf(kdf, K_OPSLIMIT);
    GetLeaf(kdf, K_MEMLIMIT);
    GetLeaf(kdf, K_SALT);
    GetLeaf(wrap, K_NONCE);
    GetLeaf(wrap, K_WRAPPED_KEY);
    GetLeaf(content, K_NONCE);
    GetLeaf(content, K_CIPHERTEXT);
  }

  /** Values equal up to key order are accepted or refused alike, and open alike. */
  lemma DecryptSame(c: Crypto, v: Value, w: Value, password: JsString)
    requires Proper(v) && Proper(w) && Same(v, w)
    ensures Decrypt(c, v, password) == Decrypt(c, w, password)
  {
    SameIffNormEqual(v, w);
    ValidateNorm(v);
    ValidateNorm(w);
    if Validate(v).None? {
      FieldsNorm(v);
      FieldsNorm(w);
    }
  }

  // -------- Opening undoes sealing --------

  /** What every call seals comes out again, sixteen bytes shorter. */
  ghost predicate Faithful(c: Crypto, calls: set<SealCall>) {
    forall q :: q in calls ==>
      c.open(q.key, q.nonce, q.aad, Sealed(c, q)) == Some(q.plain) && |Sealed(c, q)| == |q.plain| + TAG_BYTES
  }

  /** The calls that seal one text under one vault key for several phrases. */
  ghost function CallsOf(c: Crypto, h: Header, m: Material, phrases: seq<JsString>, plain: Bytes): set<SealCall> {
    {ContentCall(h, m, plain)} + set p | p in phrases :: WrapCall(c, h, m, p)
  }

  /** A header whose binary fields are those of the material. */
  ghost predicate Bound(h: Header, m: Material) {
    && GoodMaterial(m)
    && h.salt == B64.Encode(m.salt) && h.wrapNonce == B64.Encode(m.wrapNonce) && h.contentNonce == B64.Encode(m.contentNonce)
  }

  predicate Fits(plain: Bytes) { 1 <= |plain| <= MAX_PLAINTEXT_BYTES }

  /** The parts a packed vault decodes to. */
  lemma PackedParts(c: Crypto, h: Header, m: Material, phrase: JsString, plain: Bytes)
    requires Bound(h, m)
    ensures var w := Packed(c, h, m, phrase, plain);
      && DecodeWrap(w) == Some(WrapParts(m.salt, m.wrapNonce, Sealed(c, WrapCall(c, h, m, phrase))))
      && DecodeContent(w) == Some(ContentParts(m.contentNonce, Sealed(c, ContentCall(h, m, plain))))
  {
    hide B64.Encode, B64.Decode, BuildAAD, TextEncode;
    B64.DecodeOfEncode(m.salt);
    B64.DecodeOfEncode(m.wrapNonce);
    B64.DecodeOfEncode(m.contentNonce);
    B64.DecodeOfEncode(Sealed(c, WrapCall(c, h, m, phrase)));
    B64.DecodeOfEncode(Sealed(c, ContentCall(h, m, plain)));
  }

  function TextOf(plain: Bytes): Result<JsString, VaultError> {
    match TextDecode(plain)
    case None => Err(NotUtf8)
    case Some(text) => Ok(text)
  }

  /** A packed vault passes every length check and opens under its phrase. */
  lemma OpenPacked(c: Crypto, h: Header, m: Material, phrase: JsString, plain: Bytes)
    requires Bound(h, m) && Fits(plain) && Faithful(c, CallsOf(c, h, m, [phrase], plain))
    ensures DecryptFields(c, Packed(c, h, m, phrase, plain), phrase) == TextOf(plain)
  {
    hide B64.Encode, B64.Decode, BuildAAD, TextEncode, TextDecode;
    PackedParts(c, h, m, phrase, plain);
    var wrap, content := WrapCall(c, h, m, phrase), ContentCall(h, m, plain);
    assert phrase in [phrase];
    assert wrap in CallsOf(c, h, m, [phrase], plain) && content in CallsOf(c, h, m, [phrase], plain);
  }

  /** The text sizes of the salt, the nonces and the wrapped key. */
  lemma EncodedSizes(b: Bytes)
    ensures |b| == SALT_BYTES ==> |B64.Encode(b)| == 22
    ensures |b| == NONCE_BYTES ==> |B64.Encode(b)| == 32
    ensures |b| == KEY_BYTES + TAG_BYTES ==> |B64.Encode(b)| == 64
    ensures b != [] ==> B64.Encode(b) != []
  {
    B64.DecodeOfEncode(b);
  }

  lemma PackedIsAcceptable(c: Crypto, o: EncryptOpts, m: Material)
    requires CheckOpts(o).None? && CheckMaterial(m).None?
    requires Faithful(c, CallsOf(c, NewHeader(o, m), m, [o.password], o.Bytes()))
    ensures var w := Packed(c, NewHeader(o, m), m, o.password, o.Bytes());
      && Acceptable(w) && |w.wrappedKey| == 64
      && |w.header.salt| == 22 && |w.header.wrapNonce| == 32 && |w.header.contentNonce| == 32
  {
    var h := NewHeader(o, m);
    var wrap, content := WrapCall(c, h, m, o.password), ContentCall(h, m, o.Bytes());
    assert o.password in [o.password];
    assert wrap in CallsOf(c, h, m, [o.password], o.Bytes()) && content in CallsOf(c, h, m, [o.password], o.Bytes());
    EncodedSizes(m.salt);
    EncodedSizes(m.wrapNonce);
    EncodedSizes(m.contentNonce);
    EncodedSizes(Sealed(c, wrap));
    EncodedSizes(Sealed(c, content));
  }

  lemma DecryptStored(c: Crypto, w: Vault, password: JsString)
    requires Acceptable(w) && password != []
    ensures Validate(VaultValue(w)).None? && Decrypt(c, VaultValue(w), password) == DecryptFields(c, w, password)
  {
    ValidateIff(w);
  }

  /** Decrypting what was encrypted, for every phrase, limits and bytes that encrypt accepts. */
  lemma DecryptOfEncrypt(c: Crypto, o: EncryptOpts, m: Material)
    requires CheckOpts(o).None? && CheckMaterial(m).None?
    requires Faithful(c, CallsOf(c, NewHeader(o, m), m, [o.password], o.Bytes()))
    ensures var w := Packed(c, NewHeader(o, m), m, o.password, o.Bytes());
      Validate(VaultValue(w)).None? && Decrypt(c, VaultValue(w), o.password) == TextOf(o.Bytes())
  {
    hide Packed, Decrypt, DecryptFields, Validate, TextDecode, TextEncode;
    var h := NewHeader(o, m);
    PackedIsAcceptable(c, o, m);
    DecryptStored(c, Packed(c, h, m, o.password, o.Bytes()), o.password);
    OpenPacked(c, h, m, o.password, o.Bytes());
  }

  /** A text comes back with lone surrogates replaced and one leading U+FEFF dropped; it
      comes back unchanged iff it is well formed and does not start with U+FEFF. */
  lemma DecryptOfEncryptText(c: Crypto, o: EncryptOpts, m: Material)
    requires CheckOpts(o).None? && CheckMaterial(m).None? && o.plaintext.Text?
    requires Faithful(c, CallsOf(c, NewHeader(o, m), m, [o.password], o.Bytes()))
    ensures var s := o.plaintext.s;
      var r := Decrypt(c, VaultValue(Packed(c, NewHeader(o, m), m, o.password, o.Bytes())), o.password);
      && r == Ok(DropBom(FromScalars(ToScalars(s))))
      && (r == Ok(s) <==> WellFormed(s) && (s == [] || s[0] != BOM))
  {
    DecryptOfEncrypt(c, o, m);
    DecodeOfEncode(o.plaintext.s);
  }

  // -------- Nothing else opens --------

  /** An ideal cipher in a world where only these calls were made: it opens nothing but what
      they sealed, and no two of them sealed to the same bytes. */
  ghost predicate Ideal(c: Crypto, calls: set<SealCall>) {
    && Faithful(c, calls)
    && (forall k, n, a, ct :: c.open(k, n, a, ct).Some? ==>
          exists q :: q in calls && q.key == k && q.nonce == n && q.aad == a && Sealed(c, q) == ct)
    && (forall q, r :: q in calls && r in calls && Sealed(c, q) == Sealed(c, r) ==> q == r)
  }

  /** The phrase derives neither the vault key nor the key of another phrase. */
  ghost predicate NoCollision(c: Crypto, h: Header, m: Material, phrases: seq<JsString>, other: JsString) {
    && WrapKey(c, h, m.salt, other) != m.vaultKey
    && forall p :: p in phrases && WrapKey(c, h, m.salt, p) == WrapKey(c, h, m.salt, other) ==>
         TextEncode(p) == TextEncode(other)
  }

  /** An opening that succeeds was one of the calls made. */
  lemma OpenedCall(c: Crypto, calls: set<SealCall>, k: Bytes, n: Bytes, a: Bytes, ct: Bytes) returns (q: SealCall)
    requires Ideal(c, calls) && c.open(k, n, a, ct).Some?
    ensures q in calls && q.key == k && q.nonce == n && q.aad == a && Sealed(c, q) == ct
    ensures c.open(k, n, a, ct) == Some(q.plain)
  {
    q :| q in calls && q.key == k && q.nonce == n && q.aad == a && Sealed(c, q) == ct;
  }

  /** A wrap block unwraps only with the bound fields intact, to the vault key, and only
      under a phrase with the bytes of the phrase it was sealed for. */
  lemma UnwrapOnly(c: Crypto, h: Header, m: Material, phrases: seq<JsString>, plain: Bytes,
                   h': Header, p: WrapParts, phrase: JsString)
    returns (original: JsString)
    requires Bound(h, m) && Ideal(c, CallsOf(c, h, m, phrases, plain)) && NoCollision(c, h, m, phrases, phrase)
    requires Unwrap(c, h', p, phrase).Some? && B64.Decode(h'.salt) == Some(p.salt)
    ensures h' == h && Unwrap(c, h', p, phrase) == Some(m.vaultKey)
    ensures original in phrases && TextEncode(original) == TextEncode(phrase)
    ensures p.wrapped == Sealed(c, WrapCall(c, h, m, original))
  {
    hide B64.Decode, B64.Encode, TextDecode, TextEncode, BuildAAD;
    var q := OpenedCall(c, CallsOf(c, h, m, phrases, plain), WrapKey(c, h', p.salt, phrase), p.nonce, BuildAAD(h'), p.wrapped);
    AadBinds(h, h');
    B64.DecodeOfEncode(m.salt);
    assert q != ContentCall(h, m, plain);
    original :| original in phrases && q == WrapCall(c, h, m, original);
  }

  lemma ContentOnly(c: Crypto, h: Header, m: Material, phrases: seq<JsString>, plain: Bytes, q: ContentParts)
    requires Bound(h, m) && Ideal(c, CallsOf(c, h, m, phrases, plain))
    requires forall p :: p in phrases ==> WrapKey(c, h, m.salt, p) != m.vaultKey
    requires c.open(m.vaultKey, q.nonce, BuildAAD(h), q.ct).Some?
    ensures q.ct == Sealed(c, ContentCall(h, m, plain)) && q.nonce == m.contentNonce
    ensures c.open(m.vaultKey, q.nonce, BuildAAD(h), q.ct) == Some(plain)
  {
    var r := OpenedCall(c, CallsOf(c, h, m, phrases, plain), m.vaultKey, q.nonce, BuildAAD(h), q.ct);
  }

  /** The wrapped key is the one sealed for this phrase. */
  ghost predicate WrappedFor(c: Crypto, h: Header, m: Material, phrase: JsString, w: Vault) {
    B64.Decode(w.wrappedKey) == Some(Sealed(c, WrapCall(c, h, m, phrase)))
  }

  /** What a successful decryption went through. */
  lemma DecryptSteps(c: Crypto, w: Vault, phrase: JsString) returns (p: WrapParts, q: ContentParts, vaultKey: Bytes)
    requires DecryptFields(c, w, phrase).Ok?
    ensures DecodeWrap(w) == Some(p) && DecodeContent(w) == Some(q) && Unwrap(c, w.header, p, phrase) == Some(vaultKey)
    ensures c.open(vaultKey, q.nonce, BuildAAD(w.header), q.ct).Some?
    ensures DecryptFields(c, w, phrase) == OpenContent(c, w.header, vaultKey, q)
  {
    p, q := DecodeWrap(w).value, DecodeContent(w).value;
    vaultKey := Unwrap(c, w.header, p, phrase).value;
  }

  /** The vaults that open after one text was sealed for any list of phrases: the twelve bound
      fields and the content are the sealed ones, and the wrapped key is that of a phrase with
      the bytes of the phrase given. */
  ghost predicate Unlocks(c: Crypto, h: Header, m: Material, phrases: seq<JsString>, plain: Bytes, w: Vault, phrase: JsString) {
    && w.header == h
    && B64.Decode(w.ciphertext) == Some(Sealed(c, ContentCall(h, m, plain)))
    && exists p :: p in phrases && TextEncode(p) == TextEncode(phrase) && WrappedFor(c, h, m, p, w)
  }

  lemma DecryptOnly(c: Crypto, h: Header, m: Material, phrases: seq<JsString>, plain: Bytes, w: Vault, phrase: JsString)
    requires Bound(h, m) && Ideal(c, CallsOf(c, h, m, phrases, plain)) && NoCollision(c, h, m, phrases, phrase)
    requires forall p :: p in phrases ==> WrapKey(c, h, m.salt, p) != m.vaultKey
    requires DecryptFields(c, w, phrase).Ok?
    ensures Unlocks(c, h, m, phrases, plain, w, phrase) && DecryptFields(c, w, phrase) == TextOf(plain)
  {
    hide B64.Decode, B64.Encode, TextDecode, TextEncode, BuildAAD;
    var p, q, vaultKey := DecryptSteps(c, w, phrase);
    var original := UnwrapOnly(c, h, m, phrases, plain, w.header, p, phrase);
    ContentOnly(c, h, m, phrases, plain, q);
    assert WrappedFor(c, h, m, original, w);
  }

  lemma DecryptUnlocked(c: Crypto, h: Header, m: Material, phrases: seq<JsString>, plain: Bytes, w: Vault, phrase: JsString)
    requires Bound(h, m) && Fits(plain) && Faithful(c, CallsOf(c, h, m, phrases, plain))
    requires Unlocks(c, h, m, phrases, plain, w, phrase)
    ensures DecryptFields(c, w, phrase) == TextOf(plain)
  {
    hide B64.Decode, B64.Encode, TextDecode, TextEncode, BuildAAD;
    var p :| p in phrases && TextEncode(p) == TextEncode(phrase) && WrappedFor(c, h, m, p, w);
    var wrap, content := WrapCall(c, h, m, p), ContentCall(h, m, plain);
    assert wrap in CallsOf(c, h, m, phrases, plain) && content in CallsOf(c, h, m, phrases, plain);
    PackedParts(c, h, m, p, plain);
    assert DecodeWrap(w) == Some(WrapParts(m.salt, m.wrapNonce, Sealed(c, wrap)));
    assert DecodeContent(w) == Some(ContentParts(m.contentNonce, Sealed(c, content)));
  }

  /** Any JSON value opens under any phrase iff it is an unlocking one; then it gives the text.
      So changing the bytes of the phrase, a bound field or a sealed field makes opening fail. */
  lemma DecryptIff(c: Crypto, h: Header, m: Material, phrases: seq<JsString>, plain: Bytes, v: Value, phrase: JsString)
    requires Bound(h, m) && Fits(plain) && TextOf(plain).Ok?
    requires Ideal(c, CallsOf(c, h, m, phrases, plain)) && NoCollision(c, h, m, phrases, phrase)
    requires forall p :: p in phrases ==> WrapKey(c, h, m.salt, p) != m.vaultKey
    ensures Decrypt(c, v, phrase).Ok? <==>
      Validate(v).None? && phrase != [] && Unlocks(c, h, m, phrases, plain, Fields(v), phrase)
    ensures Decrypt(c, v, phrase).Ok? ==> Decrypt(c, v, phrase) == TextOf(plain)
  {
    if Validate(v).None? && phrase != [] {
      if DecryptFields(c, Fields(v), phrase).Ok? {
        DecryptOnly(c, h, m, phrases, plain, Fields(v), phrase);
      }
      if Unlocks(c, h, m, phrases, plain, Fields(v), phrase) {
        DecryptUnlocked(c, h, m, phrases, plain, Fields(v), phrase);
      }
    }
  }

  // -------- Rotation --------

  /** Rewraps from each phrase of the list to the next. */
  function Chain(c: Crypto, v: Value, phrases: seq<JsString>): Result<Value, VaultError>
    decreases |phrases|
  {
    if |phrases| <= 1 then Ok(v)
    else match Rewrapped(c, v, phrases[0], phrases[1])
      case Err(e) => Err(e)
      case Ok(u) => Chain(c, u, phrases[1..])
  }

  /** No phrase is empty and no two neighbours are equal. */
  predicate Rotates(phrases: seq<JsString>) {
    && (forall i :: 0 <= i < |phrases| ==> phrases[i] != [])
    && (forall i :: 0 <= i < |phrases| - 1 ==> phrases[i] != phrases[i + 1])
  }

  lemma RotatesStep(phrases: seq<JsString>)
    requires |phrases| >= 2
    ensures Rotates(phrases) <==> phrases[0] != [] && phrases[0] != phrases[1] && Rotates(phrases[1..])
  {
    var rest := phrases[1..];
    if Rotates(phrases) {
      forall i | 0 <= i < |rest| - 1 ensures rest[i] != rest[i + 1] {
        assert phrases[i + 1] != phrases[i + 2];
      }
    }
    if phrases[0] != [] && phrases[0] != phrases[1] && Rotates(rest) {
      forall i | 0 <= i < |phrases| ensures phrases[i] != [] {
        if i > 0 { assert phrases[i] == rest[i - 1]; }
      }
      forall i | 0 <= i < |phrases| - 1 ensures phrases[i] != phrases[i + 1] {
        if i > 0 { assert rest[i - 1] != rest[i]; }
      }
    }
  }

  predicate AcceptableHeader(h: Header) {
    && h.schema == SCHEMA_V2 && (h.mode == MODE_SELF || h.mode == MODE_SHARE)
    && h.kdfAlgorithm == KDF_ALG && h.wrapAlgorithm == AEAD_ALG && h.contentAlgorithm == AEAD_ALG
    && MIN_OPSLIMIT <= h.opslimit <= MAX_OPSLIMIT && MIN_MEMLIMIT <= h.memlimit <= MAX_MEMLIMIT
  }

  lemma AcceptablePacked(c: Crypto, h: Header, m: Material, phrases: seq<JsString>, p: JsString, plain: Bytes)
    requires Bound(h, m) && AcceptableHeader(h) && p in phrases && Faithful(c, CallsOf(c, h, m, phrases, plain))
    ensures Acceptable(Packed(c, h, m, p, plain))
  {
    var wrap, content := WrapCall(c, h, m, p), ContentCall(h, m, plain);
    assert wrap in CallsOf(c, h, m, phrases, plain) && content in CallsOf(c, h, m, phrases, plain);
    EncodedSizes(m.salt);
    EncodedSizes(m.wrapNonce);
    EncodedSizes(m.contentNonce);
    EncodedSizes(Sealed(c, wrap));
    EncodedSizes(Sealed(c, content));
  }

  lemma RewrapPackedFields(c: Crypto, h: Header, m: Material, phrases: seq<JsString>, p: JsString, plain: Bytes, next: JsString)
    requires Bound(h, m) && p in phrases && Faithful(c, CallsOf(c, h, m, phrases, plain))
    ensures RewrapFields(c, Packed(c, h, m, p, plain), p, next) == Ok(Packed(c, h, m, next, plain).wrappedKey)
  {
    hide B64.Decode, TextDecode, TextEncode, BuildAAD;
    var wrap := WrapCall(c, h, m, p);
    assert wrap in CallsOf(c, h, m, phrases, plain);
    PackedParts(c, h, m, p, plain);
  }

  /** One rotation replaces the wrapped key and nothing else. */
  lemma RewrapPacked(c: Crypto, h: Header, m: Material, phrases: seq<JsString>, p: JsString, plain: Bytes, next: JsString)
    requires Bound(h, m) && AcceptableHeader(h) && p in phrases && Faithful(c, CallsOf(c, h, m, phrases, plain))
    requires p != []
    ensures Rewrapped(c, VaultValue(Packed(c, h, m, p, plain)), p, next) ==
      if next == [] then Err(EmptyPassword)
      else if p == next then Err(SamePassword)
      else Ok(VaultValue(Packed(c, h, m, next, plain)))
  {
    var w := Packed(c, h, m, p, plain);
    AcceptablePacked(c, h, m, phrases, p, plain);
    ValidateIff(w);
    RewrapPackedFields(c, h, m, phrases, p, plain, next);
    SetWrapped(w, Packed(c, h, m, next, plain).wrappedKey);
  }

  /** A run of rotations succeeds iff no phrase is empty or repeated next to itself. The
      result is the vault of the last phrase: header and content never change, and a run that
      ends at the first phrase restores the vault exactly. */
  lemma {:induction false} ChainIff(c: Crypto, h: Header, m: Material, all: seq<JsString>, phrases: seq<JsString>, plain: Bytes)
    requires Bound(h, m) && AcceptableHeader(h) && Faithful(c, CallsOf(c, h, m, all, plain))
    requires phrases != [] && phrases[0] != [] && forall p :: p in phrases ==> p in all
    ensures var r := Chain(c, VaultValue(Packed(c, h, m, phrases[0], plain)), phrases);
      && (r.Ok? <==> Rotates(phrases))
      && (r.Ok? ==> r == Ok(VaultValue(Packed(c, h, m, phrases[|phrases| - 1], plain))))
    decreases |phrases|
  {
    hide Packed, Rewrapped, VaultValue, Faithful, Bound, AcceptableHeader;
    if |phrases| > 1 {
      RotatesStep(phrases);
      RewrapPacked(c, h, m, all, phrases[0], plain, phrases[1]);
      if phrases[1] != [] && phrases[0] != phrases[1] {
        ChainIff(c, h, m, all, phrases[1..], plain);
      } else {
        assert phrases[1..][0] == phrases[1];
      }
    }
  }

  /** After any successful run of rotations, a phrase opens the vault iff it has the bytes of
      the last phrase, and then it gives the original text. */
  lemma OpensAfterRotation(c: Crypto, h: Header, m: Material, phrases: seq<JsString>, plain: Bytes, phrase: JsString)
    requires Bound(h, m) && AcceptableHeader(h) && Fits(plain) && TextOf(plain).Ok?
    requires Ideal(c, CallsOf(c, h, m, phrases, plain)) && NoCollision(c, h, m, phrases, phrase)
    requires forall p :: p in phrases ==> WrapKey(c, h, m.salt, p) != m.vaultKey
    requires phrases != [] && Rotates(phrases) && phrase != []
    ensures var r := Chain(c, VaultValue(Packed(c, h, m, phrases[0], plain)), phrases);
      && r.Ok?
      && (Decrypt(c, r.value, phrase).Ok? <==> TextEncode(phrase) == TextEncode(phrases[|phrases| - 1]))
      && (Decrypt(c, r.value, phrase).Ok? ==> Decrypt(c, r.value, phrase) == TextOf(plain))
  {
    var last := phrases[|phrases| - 1];
    var w := Packed(c, h, m, last, plain);
    ChainIff(c, h, m, phrases, phrases, plain);
    AcceptablePacked(c, h, m, phrases, last, plain);
    ValidateIff(w);
    DecryptIff(c, h, m, phrases, plain, VaultValue(w), phrase);
    PackedParts(c, h, m, last, plain);
    B64.DecodeOfEncode(Sealed(c, WrapCall(c, h, m, last)));
    B64.DecodeOfEncode(Sealed(c, ContentCall(h, m, plain)));
    UnlocksPacked(c, h, m, phrases, last, plain, phrase);
  }

  lemma UnlocksPacked(c: Crypto, h: Header, m: Material, phrases: seq<JsString>, last: JsString, plain: Bytes, phrase: JsString)
    requires Ideal(c, CallsOf(c, h, m, phrases, plain)) && NoCollision(c, h, m, phrases, phrase) && last in phrases
    ensures Unlocks(c, h, m, phrases, plain, Packed(c, h, m, last, plain), phrase) <==>
      TextEncode(phrase) == TextEncode(last)
  {
    hide B64.Encode, B64.Decode, BuildAAD, TextEncode;
    var w := Packed(c, h, m, last, plain);
    B64.DecodeOfEncode(Sealed(c, WrapCall(c, h, m, last)));
    B64.DecodeOfEncode(Sealed(c, ContentCall(h, m, plain)));
    assert WrappedFor(c, h, m, last, w);
    if Unlocks(c, h, m, phrases, plain, w, phrase) {
      var p :| p in phrases && TextEncode(p) == TextEncode(phrase) && WrappedFor(c, h, m, p, w);
      assert WrapCall(c, h, m, p) in CallsOf(c, h, m, phrases, plain);
      assert WrapCall(c, h, m, last) in CallsOf(c, h, m, phrases, plain);
      assert WrapKey(c, h, m.salt, last) == WrapKey(c, h, m.salt, phrase);
    }
  }

  /** A lone surrogate and U+FFFD: two phrases with the same bytes. */
  const LONE: JsString := [0xD800]
  const REPLACED: JsString := [0xFFFD]

  lemma SameBytes()
    ensures LONE != REPLACED && TextEncode(LONE) == TextEncode(REPLACED)
  {
    assert LONE[0] != REPLACED[0];
    assert LONE[1..] == [] && REPLACED[1..] == [] && ToScalars([]) == [];
    assert ToScalars(LONE) == [REPLACEMENT] + ToScalars(LONE[1..]);
    assert ToScalars(REPLACED) == [REPLACED[0]] + ToScalars(REPLACED[1..]);
  }

  /** Rotating between different phrases succeeds; it changes the vault iff the
      bytes of the phrases differ. */
  lemma RotationChangesIff(c: Crypto, h: Header, m: Material, phrases: seq<JsString>, p: JsString, plain: Bytes, next: JsString)
    requires Bound(h, m) && AcceptableHeader(h) && p in phrases && next in phrases && p != next && p != [] && next != []
    requires Ideal(c, CallsOf(c, h, m, phrases, plain)) && NoCollision(c, h, m, phrases, next)
    ensures Rewrapped(c, VaultValue(Packed(c, h, m, p, plain)), p, next) == Ok(VaultValue(Packed(c, h, m, next, plain)))
    ensures Packed(c, h, m, next, plain) == Packed(c, h, m, p, plain) <==> TextEncode(p) == TextEncode(next)
  {
    RewrapPacked(c, h, m, phrases, p, plain, next);
    var x, y := WrapCall(c, h, m, p), WrapCall(c, h, m, next);
    assert x in CallsOf(c, h, m, phrases, plain) && y in CallsOf(c, h, m, phrases, plain);
    hide B64.Encode, B64.Decode, BuildAAD, TextEncode, Acceptable;
    B64.DecodeOfEncode(Sealed(c, x));
    B64.DecodeOfEncode(Sealed(c, y));
  }

  /** The rotation that the equality check lets through though it rotates nothing. */
  lemma RotationCanChangeNothing(c: Crypto, h: Header, m: Material, plain: Bytes)
    requires Bound(h, m) && AcceptableHeader(h) && Faithful(c, CallsOf(c, h, m, [LONE], plain))
    ensures var v := VaultValue(Packed(c, h, m, LONE, plain)); Rewrapped(c, v, LONE, REPLACED) == Ok(v)
  {
    SameBytes();
    assert LONE in [LONE];
    hide Packed, VaultValue, Bound, Faithful, AcceptableHeader, TextEncode, Rewrapped;
    RewrapPacked(c, h, m, [LONE], LONE, plain, REPLACED);
    PackedAlike(c, h, m, LONE, REPLACED, plain);
  }

  lemma PackedAlike(c: Crypto, h: Header, m: Material, p: JsString, q: JsString, plain: Bytes)
    requires TextEncode(p) == TextEncode(q)
    ensures Packed(c, h, m, p, plain) == Packed(c, h, m, q, plain)
  {
  }

  /** Every vault that sealing builds meets the conditions of the theorems above. */
  lemma NewHeaderFits(o: EncryptOpts, m: Material)
    requires CheckOpts(o).None? && CheckMaterial(m).None?
    ensures Bound(NewHeader(o, m), m) && AcceptableHeader(NewHeader(o, m)) && Fits(o.Bytes()) && o.password != []
    ensures o.plaintext.Text? ==> TextOf(o.Bytes()) == Ok(DropBom(FromScalars(ToScalars(o.plaintext.s))))
  {
    hide B64.Encode, B64.Decode;
    if o.plaintext.Text? {
      DecodeOfEncode(o.plaintext.s);
    }
  }
}
