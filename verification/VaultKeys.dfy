/** What the keys and seals of a vault depend on, and what an emitted vault says. */
module VaultKeys {
  import opened Prelude
  import opened Utf
  import opened Json
  import opened JsonTheorems
  import opened Canonical
  import opened CanonicalTheorems
  import opened Aad
  import opened Vault
  import opened VaultTheorems

  /** Argon2id tells these two inputs apart. */
  predicate KdfApart(c: Crypto, p: Bytes, salt: Bytes, ops: int, mem: int, q: Bytes, salt': Bytes, ops': int, mem': int) {
    c.kdf(p, salt, ops, mem) == c.kdf(q, salt', ops', mem') ==> p == q && salt == salt' && ops == ops' && mem == mem'
  }

  /** Two wrap keys are equal iff the bytes of the phrases, the salts and both limits are. */
  lemma WrapKeysIff(c: Crypto, h: Header, salt: Bytes, p: JsString, h': Header, salt': Bytes, q: JsString)
    requires KdfApart(c, TextEncode(p), salt, h.opslimit, h.memlimit, TextEncode(q), salt', h'.opslimit, h'.memlimit)
    ensures WrapKey(c, h, salt, p) == WrapKey(c, h', salt', q) <==>
      TextEncode(p) == TextEncode(q) && salt == salt' && h.opslimit == h'.opslimit && h.memlimit == h'.memlimit
  {
  }

  /** A seal opens under its own key, nonce and additional data, and under no others. */
  ghost predicate OpensOnlyAs(c: Crypto, q: SealCall) {
    forall k, n, a :: c.open(k, n, a, Sealed(c, q)) ==
      if k == q.key && n == q.nonce && a == q.aad then Some(q.plain) else None
  }

  /** One phrase under another salt or other limits seals under another key, and its seal does not
      unwrap there, whatever the rest of the header says. */
  lemma OtherSettingsDoNotUnwrap(c: Crypto, h: Header, m: Material, p: JsString, h': Header, m': Material, nonce: Bytes)
    requires KdfApart(c, TextEncode(p), m.salt, h.opslimit, h.memlimit, TextEncode(p), m'.salt, h'.opslimit, h'.memlimit)
    requires m.salt != m'.salt || h.opslimit != h'.opslimit || h.memlimit != h'.memlimit
    ensures WrapCall(c, h, m, p).key != WrapCall(c, h', m', p).key
    ensures OpensOnlyAs(c, WrapCall(c, h, m, p)) ==>
      Unwrap(c, h', WrapParts(m'.salt, nonce, Sealed(c, WrapCall(c, h, m, p))), p) == None
  {
    WrapKeysIff(c, h, m.salt, p, h', m'.salt, p);
    hide BuildAAD, TextEncode;
  }

  /** What one phrase wrapped, a phrase unwraps iff it has the same bytes and the salt, the nonce and
      all twelve header fields are the same; and it finds the vault key. */
  lemma UnwrapsIff(c: Crypto, h: Header, m: Material, p: JsString, h': Header, salt: Bytes, nonce: Bytes, q: JsString)
    requires KdfApart(c, TextEncode(p), m.salt, h.opslimit, h.memlimit, TextEncode(q), salt, h'.opslimit, h'.memlimit)
    requires OpensOnlyAs(c, WrapCall(c, h, m, p))
    ensures Unwrap(c, h', WrapParts(salt, nonce, Sealed(c, WrapCall(c, h, m, p))), q) ==
      if TextEncode(q) == TextEncode(p) && salt == m.salt && nonce == m.wrapNonce && h' == h then Some(m.vaultKey) else None
  {
    WrapKeysIff(c, h, m.salt, p, h', salt, q);
    AadBinds(h, h');
    hide BuildAAD, TextEncode;
  }

  /** Each of the two seals holds its key, its nonce, its plaintext and the whole header. */
  lemma SealsBind(c: Crypto, h: Header, m: Material, p: JsString, plain: Bytes,
                  h': Header, m': Material, q: JsString, plain': Bytes)
    ensures ContentCall(h, m, plain) == ContentCall(h', m', plain') <==>
      h == h' && m.vaultKey == m'.vaultKey && m.contentNonce == m'.contentNonce && plain == plain'
    ensures WrapCall(c, h, m, p) == WrapCall(c, h', m', q) <==>
      && h == h' && WrapKey(c, h, m.salt, p) == WrapKey(c, h', m'.salt, q)
      && m.wrapNonce == m'.wrapNonce && m.vaultKey == m'.vaultKey
  {
    AadBinds(h, h');
    hide BuildAAD, WrapKey;
  }

  // -------- The emitted vault, read by its keys --------

  predicate HasText(v: Value, key: JsString, text: JsString) { Get(v, key) == Some(Str(text)) }

  predicate HasNumber(v: Value, key: JsString, n: int) { Get(v, key) == Some(Num(n)) }

  /** The field holds the base64url text of these bytes. */
  predicate HasBytes(v: Value, key: JsString, b: Bytes) {
    var f := Get(v, key);
    f.Some? && f.value.Str? && B64.Decode(f.value.s) == Some(b)
  }

  lemma RecordGet(keys: seq<JsString>, values: seq<Value>)
    requires |keys| == |values| && Distinct(keys)
    ensures forall i :: 0 <= i < |keys| ==> Get(Record(keys, values), keys[i]) == Some(values[i])
  {
    forall i | 0 <= i < |keys| ensures Get(Record(keys, values), keys[i]) == Some(values[i]) {
      FindInRecord(keys, values, i);
    }
  }

  lemma SectionsOf(w: Vault)
    ensures var v := VaultValue(w);
      && HasText(v, K_SCHEMA, w.header.schema) && HasText(v, K_VERSION, w.header.version)
      && HasText(v, K_CREATED_AT, w.header.createdAt) && HasText(v, K_MODE, w.header.mode)
      && Get(v, K_KDF) == Some(StoredKdf(w.header)) && Get(v, K_WRAP) == Some(StoredWrap(w))
      && Get(v, K_CONTENT) == Some(StoredContent(w))
  {
    StoredKeysDiffer();
    hide Get, StoredKdf, StoredWrap, StoredContent;
    RecordGet(VAULT_KEYS, VaultValues(w));
    var ks, vs := VAULT_KEYS, VaultValues(w);
    assert ks[0] == K_SCHEMA && ks[1] == K_VERSION && ks[2] == K_CREATED_AT && ks[3] == K_MODE;
    assert ks[4] == K_KDF && ks[5] == K_WRAP && ks[6] == K_CONTENT;
  }

  lemma KdfOf(h: Header)
    ensures var v := StoredKdf(h);
      && HasText(v, K_ALGORITHM, h.kdfAlgorithm) && HasNumber(v, K_OPSLIMIT, h.opslimit)
      && HasNumber(v, K_MEMLIMIT, h.memlimit) && HasText(v, K_SALT, h.salt)
  {
    StoredKeysDiffer();
    hide Get;
    var ks, vs := STORED_KDF_KEYS, [Str(h.kdfAlgorithm), Num(h.opslimit), Num(h.memlimit), Str(h.salt)];
    RecordGet(ks, vs);
    assert ks[0] == K_ALGORITHM && ks[1] == K_OPSLIMIT && ks[2] == K_MEMLIMIT && ks[3] == K_SALT;
  }

  lemma SealedOf(w: Vault)
    ensures var v := StoredWrap(w);
      && HasText(v, K_ALGORITHM, w.header.wrapAlgorithm) && HasText(v, K_NONCE, w.header.wrapNonce)
      && HasText(v, K_WRAPPED_KEY, w.wrappedKey)
    ensures var v := StoredContent(w);
      && HasText(v, K_ALGORITHM, w.header.contentAlgorithm) && HasText(v, K_NONCE, w.header.contentNonce)
      && HasText(v, K_CIPHERTEXT, w.ciphertext)
  {
    StoredKeysDiffer();
    hide Get;
    var ks, vs := WRAP_KEYS, [Str(w.header.wrapAlgorithm), Str(w.header.wrapNonce), Str(w.wrappedKey)];
    RecordGet(ks, vs);
    assert ks[0] == K_ALGORITHM && ks[1] == K_NONCE && ks[2] == K_WRAPPED_KEY;
    var ks', vs' := CONTENT_KEYS, [Str(w.header.contentAlgorithm), Str(w.header.contentNonce), Str(w.ciphertext)];
    RecordGet(ks', vs');
    assert ks'[0] == K_ALGORITHM && ks'[1] == K_NONCE && ks'[2] == K_CIPHERTEXT;
  }

  /** The limits used: the given ones, or four passes over 96 MiB. */
  predicate Limits(o: EncryptOpts, ops: int, mem: int) {
    && ops == (if o.opslimit.Some? && o.opslimit.value != 0 then o.opslimit.value else 4)
    && mem == (if o.memlimit.Some? && o.memlimit.value != 0 then o.memlimit.value else 96 * 1024 * 1024)
  }

  /** Every field of an emitted vault: the options and the material, with their defaults; the vault key
      sealed under the key that Argon2id derives from the phrase, this salt and these limits; and
      the text sealed under the vault key, both with the header as additional data. */
  lemma EmittedFields(c: Crypto, o: EncryptOpts, m: Material, ops: int, mem: int)
    requires Limits(o, ops, mem)
    ensures var h := NewHeader(o, m); var v := VaultValue(Packed(c, h, m, o.password, o.Bytes()));
      && HasText(v, K_SCHEMA, SCHEMA_V2) && HasText(v, K_VERSION, o.version) && HasText(v, K_CREATED_AT, o.createdAt)
      && HasText(v, K_MODE, if o.mode.Some? && o.mode.value != [] then o.mode.value else MODE_SELF)
      && Get(v, K_KDF).Some? && Get(v, K_WRAP).Some? && Get(v, K_CONTENT).Some?
      && EmittedKdf(Get(v, K_KDF).value, m, ops, mem)
      && EmittedSeal(Get(v, K_WRAP).value, K_WRAPPED_KEY, m.wrapNonce,
           c.seal(c.kdf(TextEncode(o.password), m.salt, ops, mem), m.wrapNonce, BuildAAD(h), m.vaultKey))
      && EmittedSeal(Get(v, K_CONTENT).value, K_CIPHERTEXT, m.contentNonce,
           c.seal(m.vaultKey, m.contentNonce, BuildAAD(h), if o.plaintext.Text? then TextEncode(o.plaintext.s) else o.plaintext.b))
  {
    hide BuildAAD, TextEncode, B64.Encode, B64.Decode, VaultValue, StoredKdf, StoredWrap, StoredContent, Get;
    var h := NewHeader(o, m);
    var w := Packed(c, h, m, o.password, o.Bytes());
    SectionsOf(w);
    KdfOf(h);
    SealedOf(w);
    B64.DecodeOfEncode(m.salt);
    B64.DecodeOfEncode(m.wrapNonce);
    B64.DecodeOfEncode(m.contentNonce);
    B64.DecodeOfEncode(Sealed(c, WrapCall(c, h, m, o.password)));
    B64.DecodeOfEncode(Sealed(c, ContentCall(h, m, o.Bytes())));
  }

  predicate EmittedKdf(kdf: Value, m: Material, ops: int, mem: int) {
    && HasText(kdf, K_ALGORITHM, KDF_ALG) && HasNumber(kdf, K_OPSLIMIT, ops) && HasNumber(kdf, K_MEMLIMIT, mem)
    && HasBytes(kdf, K_SALT, m.salt)
  }

  predicate EmittedSeal(section: Value, key: JsString, nonce: Bytes, ct: Bytes) {
    HasText(section, K_ALGORITHM, AEAD_ALG) && HasBytes(section, K_NONCE, nonce) && HasBytes(section, key, ct)
  }

  // -------- What encryption accepts --------

  /** Options are accepted iff the phrase is not empty, the mode is one of two, the limits lie in 1 to 10
      and 8 to 256 MiB, and the plaintext has 1 to 262144 bytes. */
  lemma OptionsAcceptedIff(o: EncryptOpts, ops: int, mem: int)
    requires Limits(o, ops, mem)
    ensures CheckOpts(o).None? <==>
      && o.password != []
      && (o.mode.None? || o.mode.value == [] || o.mode.value == MODE_SELF || o.mode.value == MODE_SHARE)
      && 1 <= ops <= 10 && 0x80_0000 <= mem <= 0x1000_0000
      && 1 <= |if o.plaintext.Text? then TextEncode(o.plaintext.s) else o.plaintext.b| <= 262144
  {
    hide TextEncode;
  }

  // -------- The additional data, read by its keys --------

  lemma AadSections(h: Header)
    ensures var v := AadValue(h);
      && HasText(v, K_SCHEMA, h.schema) && HasText(v, K_VERSION, h.version)
      && HasText(v, K_CREATED_AT, h.createdAt) && HasText(v, K_MODE, h.mode)
      && Get(v, K_KDF) == Some(Record(KDF_KEYS, KdfValues(h)))
      && Get(v, K_WRAP) == Some(PairPart(h.wrapAlgorithm, h.wrapNonce))
      && Get(v, K_CONTENT) == Some(PairPart(h.contentAlgorithm, h.contentNonce))
  {
    KeysDiffer();
    hide Get, PairPart, Record;
    RecordGet(AAD_KEYS, AadValues(h));
    var ks := AAD_KEYS;
    assert ks[0] == K_CONTENT && ks[1] == K_CREATED_AT && ks[2] == K_KDF && ks[3] == K_MODE;
    assert ks[4] == K_SCHEMA && ks[5] == K_VERSION && ks[6] == K_WRAP;
  }

  /** A section that names an algorithm and a nonce, and one that names the key derivation. */
  predicate SaysPair(v: Option<Value>, algorithm: JsString, nonce: JsString) {
    v.Some? && HasText(v.value, K_ALGORITHM, algorithm) && HasText(v.value, K_NONCE, nonce)
  }

  predicate SaysKdf(v: Option<Value>, h: Header) {
    && v.Some? && HasText(v.value, K_ALGORITHM, h.kdfAlgorithm) && HasNumber(v.value, K_MEMLIMIT, h.memlimit)
    && HasNumber(v.value, K_OPSLIMIT, h.opslimit) && HasText(v.value, K_SALT, h.salt)
  }

  lemma PairSays(algorithm: JsString, nonce: JsString)
    ensures SaysPair(Some(Norm(PairPart(algorithm, nonce))), algorithm, nonce)
  {
    KeysDiffer();
    RecordIsProper(PAIR_KEYS, [Str(algorithm), Str(nonce)]);
    var v := PairPart(algorithm, nonce);
    hide Get, Norm, Proper;
    RecordGet(PAIR_KEYS, [Str(algorithm), Str(nonce)]);
    assert PAIR_KEYS[0] == K_ALGORITHM && PAIR_KEYS[1] == K_NONCE;
    GetLeaf(v, K_ALGORITHM);
    GetLeaf(v, K_NONCE);
  }

  lemma KdfSays(h: Header)
    ensures SaysKdf(Some(Norm(Record(KDF_KEYS, KdfValues(h)))), h)
  {
    KeysDiffer();
    RecordIsProper(KDF_KEYS, KdfValues(h));
    var v := Record(KDF_KEYS, KdfValues(h));
    hide Get, Norm, Proper, Record;
    RecordGet(KDF_KEYS, KdfValues(h));
    var ks := KDF_KEYS;
    assert ks[0] == K_ALGORITHM && ks[1] == K_MEMLIMIT && ks[2] == K_OPSLIMIT && ks[3] == K_SALT;
    GetLeaf(v, K_ALGORITHM);
    GetLeaf(v, K_MEMLIMIT);
    GetLeaf(v, K_OPSLIMIT);
    GetLeaf(v, K_SALT);
  }

  lemma AadText(h: Header)
    ensures TextDecode(BuildAAD(h)) == Some(CanonicalJSON(AadValue(h)))
  {
    var v := AadValue(h);
    var text := CanonicalJSON(v);
    CanonicalIsPrint(v, 0, []);
    assert text + [] == text;
    PrintWellFormed(Norm(v), Compact, 0, []);
    PrintOpens(Norm(v), Compact, 0, []);
    assert text[0] == LBRACE;
    DecodeOfEncode(text);
  }

  /** The additional data is the UTF-8 of a JSON text with ascending keys that says each of the twelve
      fields under its own key. */
  lemma AadSays(h: Header) returns (v: Value)
    ensures TextDecode(BuildAAD(h)) == Some(CanonicalJSON(AadValue(h))) && Parse(CanonicalJSON(AadValue(h))) == Some(v)
    ensures KeysAscend(v)
    ensures HasText(v, K_SCHEMA, h.schema) && HasText(v, K_VERSION, h.version)
    ensures HasText(v, K_CREATED_AT, h.createdAt) && HasText(v, K_MODE, h.mode)
    ensures SaysKdf(Get(v, K_KDF), h)
    ensures SaysPair(Get(v, K_WRAP), h.wrapAlgorithm, h.wrapNonce)
    ensures SaysPair(Get(v, K_CONTENT), h.contentAlgorithm, h.contentNonce)
  {
    var a := AadValue(h);
    v := Norm(a);
    AadIsProper(h);
    AadText(h);
    AadSections(h);
    ParseCanonical(a);
    hide BuildAAD, TextDecode, CanonicalJSON, Parse, KeysAscend, Get, Norm, AadValue, SaysKdf, SaysPair, Proper, PairPart, Record;
    GetLeaf(a, K_SCHEMA);
    GetLeaf(a, K_VERSION);
    GetLeaf(a, K_CREATED_AT);
    GetLeaf(a, K_MODE);
    GetNorm(a, K_KDF);
    GetNorm(a, K_WRAP);
    GetNorm(a, K_CONTENT);
    KdfSays(h);
    PairSays(h.wrapAlgorithm, h.wrapNonce);
    PairSays(h.contentAlgorithm, h.contentNonce);
  }
}
