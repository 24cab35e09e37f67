/** The V2 vault envelope: validation, sealing, opening and phrase rotation. */
module Vault {
  import opened Prelude
  import opened Utf
  import opened Json
  import opened JsonTheorems
  import opened Aad
  import B64 = Base64

  /** Argon2id and XChaCha20-Poly1305. */
  datatype Crypto = Crypto(
    kdf: (Bytes, Bytes, int, int) -> Bytes,
    seal: (Bytes, Bytes, Bytes, Bytes) -> Bytes,
    open: (Bytes, Bytes, Bytes, Bytes) -> Option<Bytes>)

  const SCHEMA_V2: JsString := [0x42, 0x52, 0x59, 0x2d, 0x4e, 0x46, 0x45, 0x54, 0x2d, 0x53, 0x58, 0x2d, 0x56, 0x41, 0x55, 0x4c, 0x54, 0x2d, 0x56, 0x32]
  const KDF_ALG: JsString := [0x61, 0x72, 0x67, 0x6f, 0x6e, 0x32, 0x69, 0x64]
  const AEAD_ALG: JsString := [0x58, 0x43, 0x68, 0x61, 0x43, 0x68, 0x61, 0x32, 0x30, 0x2d, 0x50, 0x6f, 0x6c, 0x79, 0x31, 0x33, 0x30, 0x35]
  const MODE_SELF: JsString := [0x73, 0x65, 0x6c, 0x66]
  const MODE_SHARE: JsString := [0x73, 0x68, 0x61, 0x72, 0x65]

  const DEFAULT_OPSLIMIT: int := 4
  const DEFAULT_MEMLIMIT: int := 96 * 1024 * 1024
  const MIN_OPSLIMIT: int := 1
  const MAX_OPSLIMIT: int := 10
  const MIN_MEMLIMIT: int := 8 * 1024 * 1024
  const MAX_MEMLIMIT: int := 256 * 1024 * 1024
  const SALT_BYTES: nat := 16
  const NONCE_BYTES: nat := 24
  const KEY_BYTES: nat := 32
  const TAG_BYTES: nat := 16
  const MAX_PLAINTEXT_BYTES: nat := 256 * 1024
  const MAX_CIPHERTEXT_BYTES: nat := 1024 * 1024

  datatype VaultError =
    | NotAnObject | WrongSchema | NoVersion | NoCreatedAt | WrongMode
    | NoKdf | WrongKdfAlgorithm | OpslimitRange | MemlimitRange | NoSalt
    | NoWrap | WrongWrapAlgorithm | NoWrapNonce | NoWrappedKey
    | NoContent | WrongContentAlgorithm | NoContentNonce | NoCiphertext
    | EmptyPassword | SamePassword | EmptyPlaintext | PlaintextTooLarge
    | InvalidBase64 | SaltLength | WrapNonceLength | ContentNonceLength | WrappedKeyLength | VaultKeyLength
    | EmptyCiphertext | CiphertextTooLarge | WrongPhraseOrTampered | ContentTampered | NotUtf8

  /** A vault's fields: the twelve bound ones and the two sealed ones. */
  datatype Vault = Vault(header: Header, wrappedKey: JsString, ciphertext: JsString)

  // -------- Vaults as JSON objects --------

  const WRAP_KEYS: seq<JsString> := [K_ALGORITHM, K_NONCE, K_WRAPPED_KEY]
  const CONTENT_KEYS: seq<JsString> := [K_ALGORITHM, K_NONCE, K_CIPHERTEXT]
  const STORED_KDF_KEYS: seq<JsString> := [K_ALGORITHM, K_OPSLIMIT, K_MEMLIMIT, K_SALT]
  const VAULT_KEYS: seq<JsString> := [K_SCHEMA, K_VERSION, K_CREATED_AT, K_MODE, K_KDF, K_WRAP, K_CONTENT]

  function StoredKdf(h: Header): Value {
    Record(STORED_KDF_KEYS, [Str(h.kdfAlgorithm), Num(h.opslimit), Num(h.memlimit), Str(h.salt)])
  }

  function StoredWrap(w: Vault): Value {
    Record(WRAP_KEYS, [Str(w.header.wrapAlgorithm), Str(w.header.wrapNonce), Str(w.wrappedKey)])
  }

  function StoredContent(w: Vault): Value {
    Record(CONTENT_KEYS, [Str(w.header.contentAlgorithm), Str(w.header.contentNonce), Str(w.ciphertext)])
  }

  function VaultValues(w: Vault): (vs: seq<Value>)
    ensures |vs| == 7
  {
    [Str(w.header.schema), Str(w.header.version), Str(w.header.createdAt), Str(w.header.mode),
     StoredKdf(w.header), StoredWrap(w), StoredContent(w)]
  }

  function VaultValue(w: Vault): Value { Record(VAULT_KEYS, VaultValues(w)) }

  function Find(ms: seq<(JsString, Value)>, key: JsString): Option<Value> {
    if ms == [] then None else if ms[0].0 == key then Some(ms[0].1) else Find(ms[1..], key)
  }

  /** A property read; None is undefined. */
  function Get(v: Value, key: JsString): Option<Value> {
    if v.Obj? then Find(v.members, key) else None
  }

  /** A truthy value whose typeof is object. */
  predicate IsRecord(v: Option<Value>) { v.Some? && (v.value.Obj? || v.value.Arr?) }

  predicate IsText(v: Option<Value>) { v.Some? && v.value.Str? }

  predicate IsFilled(v: Option<Value>) { IsText(v) && v.value.s != [] }

  predicate InBounds(v: Option<Value>, low: int, high: int) { v.Some? && v.value.Num? && low <= v.value.n <= high }

  // -------- Validation; None is acceptance --------

  function EnforceKdfCaps(kdf: Option<Value>): Option<VaultError> {
    if !IsRecord(kdf) then Some(NoKdf)
    else if Get(kdf.value, K_ALGORITHM) != Some(Str(KDF_ALG)) then Some(WrongKdfAlgorithm)
    else if !InBounds(Get(kdf.value, K_OPSLIMIT), MIN_OPSLIMIT, MAX_OPSLIMIT) then Some(OpslimitRange)
    else if !InBounds(Get(kdf.value, K_MEMLIMIT), MIN_MEMLIMIT, MAX_MEMLIMIT) then Some(MemlimitRange)
    else if !IsFilled(Get(kdf.value, K_SALT)) then Some(NoSalt)
    else None
  }

  function CheckWrap(wrap: Option<Value>): Option<VaultError> {
    if !IsRecord(wrap) then Some(NoWrap)
    else if Get(wrap.value, K_ALGORITHM) != Some(Str(AEAD_ALG)) then Some(WrongWrapAlgorithm)
    else if !IsFilled(Get(wrap.value, K_NONCE)) then Some(NoWrapNonce)
    else if !IsFilled(Get(wrap.value, K_WRAPPED_KEY)) then Some(NoWrappedKey)
    else None
  }

  function CheckContent(content: Option<Value>): Option<VaultError> {
    if !IsRecord(content) then Some(NoContent)
    else if Get(content.value, K_ALGORITHM) != Some(Str(AEAD_ALG)) then Some(WrongContentAlgorithm)
    else if !IsFilled(Get(content.value, K_NONCE)) then Some(NoContentNonce)
    else if !IsFilled(Get(content.value, K_CIPHERTEXT)) then Some(NoCiphertext)
    else None
  }

  function CheckTop(v: Value): Option<VaultError> {
    if !IsRecord(Some(v)) then Some(NotAnObject)
    else if Get(v, K_SCHEMA) != Some(Str(SCHEMA_V2)) then Some(WrongSchema)
    else if !IsText(Get(v, K_VERSION)) then Some(NoVersion)
    else if !IsText(Get(v, K_CREATED_AT)) then Some(NoCreatedAt)
    else if Get(v, K_MODE) != Some(Str(MODE_SELF)) && Get(v, K_MODE) != Some(Str(MODE_SHARE)) then Some(WrongMode)
    else None
  }

  function Or(first: Option<VaultError>, second: Option<VaultError>): Option<VaultError> {
    if first.Some? then first else second
  }

  function Validate(v: Value): Option<VaultError> {
    Or(CheckTop(v), Or(EnforceKdfCaps(Get(v, K_KDF)), Or(CheckWrap(Get(v, K_WRAP)), CheckContent(Get(v, K_CONTENT)))))
  }

  /** The fields of an accepted vault. */
  function Fields(v: Value): Vault
    requires Validate(v).None?
  {
    var kdf, wrap, content := Get(v, K_KDF).value, Get(v, K_WRAP).value, Get(v, K_CONTENT).value;
    Vault(
      Header(AEAD_ALG, Get(content, K_NONCE).value.s, Get(v, K_CREATED_AT).value.s,
             KDF_ALG, Get(kdf, K_MEMLIMIT).value.n, Get(kdf, K_OPSLIMIT).value.n, Get(kdf, K_SALT).value.s,
             Get(v, K_MODE).value.s, SCHEMA_V2, Get(v, K_VERSION).value.s,
             AEAD_ALG, Get(wrap, K_NONCE).value.s),
      Get(wrap, K_WRAPPED_KEY).value.s, Get(content, K_CIPHERTEXT).value.s)
  }

  /** What the validator asks of the fields of a vault. */
  predicate Acceptable(w: Vault) {
    && w.header.schema == SCHEMA_V2
    && (w.header.mode == MODE_SELF || w.header.mode == MODE_SHARE)
    && w.header.kdfAlgorithm == KDF_ALG && w.header.wrapAlgorithm == AEAD_ALG && w.header.contentAlgorithm == AEAD_ALG
    && MIN_OPSLIMIT <= w.header.opslimit <= MAX_OPSLIMIT && MIN_MEMLIMIT <= w.header.memlimit <= MAX_MEMLIMIT
    && w.header.salt != [] && w.header.wrapNonce != [] && w.header.contentNonce != []
    && w.wrappedKey != [] && w.ciphertext != []
  }

  // -------- Sealing --------

  datatype Plaintext = Text(s: JsString) | Raw(b: Bytes)

  datatype EncryptOpts = EncryptOpts(
    plaintext: Plaintext, password: JsString, mode: Option<JsString>,
    opslimit: Option<int>, memlimit: Option<int>, createdAt: JsString, version: JsString)
  {
    function Mode(): JsString { if mode.None? || mode.value == [] then MODE_SELF else mode.value }

    function Opslimit(): int { if opslimit.None? || opslimit.value == 0 then DEFAULT_OPSLIMIT else opslimit.value }

    function Memlimit(): int { if memlimit.None? || memlimit.value == 0 then DEFAULT_MEMLIMIT else memlimit.value }

    function Bytes(): Bytes { if plaintext.Text? then TextEncode(plaintext.s) else plaintext.b }
  }

  /** Salt, nonces and vault key: random, or given by the caller. */
  datatype Material = Material(salt: Bytes, wrapNonce: Bytes, contentNonce: Bytes, vaultKey: Bytes)

  predicate GoodMaterial(m: Material) {
    |m.salt| == SALT_BYTES && |m.wrapNonce| == NONCE_BYTES && |m.contentNonce| == NONCE_BYTES && |m.vaultKey| == KEY_BYTES
  }

  function CheckOpts(o: EncryptOpts): Option<VaultError> {
    if o.password == [] then Some(EmptyPassword)
    else if o.Mode() != MODE_SELF && o.Mode() != MODE_SHARE then Some(WrongMode)
    else if !(MIN_OPSLIMIT <= o.Opslimit() <= MAX_OPSLIMIT) then Some(OpslimitRange)
    else if !(MIN_MEMLIMIT <= o.Memlimit() <= MAX_MEMLIMIT) then Some(MemlimitRange)
    else if o.Bytes() == [] then Some(EmptyPlaintext)
    else if |o.Bytes()| > MAX_PLAINTEXT_BYTES then Some(PlaintextTooLarge)
    else None
  }

  function CheckMaterial(m: Material): Option<VaultError> {
    if |m.salt| != SALT_BYTES then Some(SaltLength)
    else if |m.wrapNonce| != NONCE_BYTES then Some(WrapNonceLength)
    else if |m.contentNonce| != NONCE_BYTES then Some(ContentNonceLength)
    else if |m.vaultKey| != KEY_BYTES then Some(VaultKeyLength)
    else None
  }

  function NewHeader(o: EncryptOpts, m: Material): Header {
    Header(AEAD_ALG, B64.Encode(m.contentNonce), o.createdAt, KDF_ALG, o.Memlimit(), o.Opslimit(),
           B64.Encode(m.salt), o.Mode(), SCHEMA_V2, o.version, AEAD_ALG, B64.Encode(m.wrapNonce))
  }

  datatype SealCall = SealCall(key: Bytes, nonce: Bytes, aad: Bytes, plain: Bytes)

  function Sealed(c: Crypto, q: SealCall): Bytes { c.seal(q.key, q.nonce, q.aad, q.plain) }

  function WrapKey(c: Crypto, h: Header, salt: Bytes, phrase: JsString): Bytes {
    c.kdf(TextEncode(phrase), salt, h.opslimit, h.memlimit)
  }

  function WrapCall(c: Crypto, h: Header, m: Material, phrase: JsString): SealCall {
    SealCall(WrapKey(c, h, m.salt, phrase), m.wrapNonce, BuildAAD(h), m.vaultKey)
  }

  function ContentCall(h: Header, m: Material, plain: Bytes): SealCall {
    SealCall(m.vaultKey, m.contentNonce, BuildAAD(h), plain)
  }

  /** The vault of a phrase: the vault key sealed under the phrase, the text under the vault key. */
  function Packed(c: Crypto, h: Header, m: Material, phrase: JsString, plain: Bytes): Vault {
    Vault(h, B64.Encode(Sealed(c, WrapCall(c, h, m, phrase))), B64.Encode(Sealed(c, ContentCall(h, m, plain))))
  }

  // -------- Opening --------

  /** The decoded wrap block, and the decoded content block. */
  datatype WrapParts = WrapParts(salt: Bytes, nonce: Bytes, wrapped: Bytes)
  datatype ContentParts = ContentParts(nonce: Bytes, ct: Bytes)

  function DecodeWrap(w: Vault): Option<WrapParts> {
    match (B64.Decode(w.header.salt), B64.Decode(w.header.wrapNonce), B64.Decode(w.wrappedKey))
    case (Some(salt), Some(nonce), Some(wrapped)) => Some(WrapParts(salt, nonce, wrapped))
    case _ => None
  }

  function DecodeContent(w: Vault): Option<ContentParts> {
    match (B64.Decode(w.header.contentNonce), B64.Decode(w.ciphertext))
    case (Some(nonce), Some(ct)) => Some(ContentParts(nonce, ct))
    case _ => None
  }

  function CheckLengths(p: WrapParts, q: ContentParts): Option<VaultError> {
    if |p.salt| != SALT_BYTES then Some(SaltLength)
    else if |p.nonce| != NONCE_BYTES then Some(WrapNonceLength)
    else if |q.nonce| != NONCE_BYTES then Some(ContentNonceLength)
    else if |p.wrapped| != KEY_BYTES + TAG_BYTES then Some(WrappedKeyLength)
    else if q.ct == [] then Some(EmptyCiphertext)
    else if |q.ct| > MAX_CIPHERTEXT_BYTES then Some(CiphertextTooLarge)
    else None
  }

  /** The vault key, as both readers of the wrap block recover it. */
  function Unwrap(c: Crypto, h: Header, p: WrapParts, phrase: JsString): Option<Bytes> {
    c.open(WrapKey(c, h, p.salt, phrase), p.nonce, BuildAAD(h), p.wrapped)
  }

  function OpenContent(c: Crypto, h: Header, vaultKey: Bytes, q: ContentParts): Result<JsString, VaultError> {
    match c.open(vaultKey, q.nonce, BuildAAD(h), q.ct)
    case None => Err(ContentTampered)
    case Some(plain) =>
      match TextDecode(plain)
      case None => Err(NotUtf8)
      case Some(text) => Ok(text)
  }

  function DecryptParts(c: Crypto, h: Header, p: WrapParts, q: ContentParts, password: JsString): Result<JsString, VaultError> {
    match Unwrap(c, h, p, password)
    case None => Err(WrongPhraseOrTampered)
    case Some(vaultKey) =>
      if |vaultKey| != KEY_BYTES then Err(VaultKeyLength) else OpenContent(c, h, vaultKey, q)
  }

  function DecryptFields(c: Crypto, w: Vault, password: JsString): Result<JsString, VaultError> {
    var p, q := DecodeWrap(w), DecodeContent(w);
    if p.None? || q.None? then Err(InvalidBase64)
    else if CheckLengths(p.value, q.value).Some? then Err(CheckLengths(p.value, q.value).value)
    else DecryptParts(c, w.header, p.value, q.value, password)
  }

  /** decryptVaultV2, on any JSON value. */
  function Decrypt(c: Crypto, v: Value, password: JsString): Result<JsString, VaultError> {
    if Validate(v).Some? then Err(Validate(v).value)
    else if password == [] then Err(EmptyPassword)
    else DecryptFields(c, Fields(v), password)
  }

  // -------- Rotation --------

  /** The new wrapped key. libsodium refuses a salt or nonce of the wrong length; only the
      nonce is first used where the failure is caught and reported as a wrong phrase. */
  function RewrapParts(c: Crypto, h: Header, p: WrapParts, oldPassword: JsString, newPassword: JsString)
    : Result<JsString, VaultError>
  {
    if |p.wrapped| != KEY_BYTES + TAG_BYTES then Err(WrappedKeyLength)
    else if |p.salt| != SALT_BYTES then Err(SaltLength)
    else if |p.nonce| != NONCE_BYTES then Err(WrongPhraseOrTampered)
    else match Unwrap(c, h, p, oldPassword)
      case None => Err(WrongPhraseOrTampered)
      case Some(vaultKey) =>
        if |vaultKey| != KEY_BYTES then Err(VaultKeyLength)
        else
          var call := SealCall(WrapKey(c, h, p.salt, newPassword), p.nonce, BuildAAD(h), vaultKey);
          Ok(B64.Encode(Sealed(c, call)))
  }

  function RewrapFields(c: Crypto, w: Vault, oldPassword: JsString, newPassword: JsString): Result<JsString, VaultError> {
    match DecodeWrap(w)
    case None => Err(InvalidBase64)
    case Some(p) => RewrapParts(c, w.header, p, oldPassword, newPassword)
  }

  /** The assignment to a field of a section of the vault object. */
  function SetField(v: Value, section: JsString, key: JsString, text: JsString): Value {
    if v.Obj? && Get(v, section).Some? && Get(v, section).value.Obj? then
      Obj(Put(v.members, section, Obj(Put(Get(v, section).value.members, key, Str(text)))))
    else v
  }

  function Rewrapped(c: Crypto, v: Value, oldPassword: JsString, newPassword: JsString): Result<Value, VaultError> {
    if Validate(v).Some? then Err(Validate(v).value)
    else if oldPassword == [] || newPassword == [] then Err(EmptyPassword)
    else if oldPassword == newPassword then Err(SamePassword)
    else match RewrapFields(c, Fields(v), oldPassword, newPassword)
      case Err(e) => Err(e)
      case Ok(text) => Ok(SetField(v, K_WRAP, K_WRAPPED_KEY, text))
  }

  // -------- The source's objects and buffers --------

  /** A vault object, whose sealed fields are filled in place. */
  class VaultObject {
    var json: Value

    constructor (v: Value)
      ensures json == v
    {
      json := v;
    }

    method SetWrappedKey(text: JsString)
      modifies this
      ensures json == SetField(old(json), K_WRAP, K_WRAPPED_KEY, text)
    {
      json := SetField(json, K_WRAP, K_WRAPPED_KEY, text);
    }

    method SetCiphertext(text: JsString)
      modifies this
      ensures json == SetField(old(json), K_CONTENT, K_CIPHERTEXT, text)
    {
      json := SetField(json, K_CONTENT, K_CIPHERTEXT, text);
    }
  }

  method CopyBytes(b: array<Byte>) returns (out: array<Byte>)
    ensures fresh(out) && out[..] == b[..]
  {
    out := new Byte[b.Length];
    for i := 0 to b.Length
      invariant out[..i] == b[..i]
    {
      out[i] := b[i];
    }
  }

  method Zero(b: array<Byte>)
    modifies b
    ensures forall i :: 0 <= i < b.Length ==> b[i] == 0
  {
    for i := 0 to b.Length
      invariant forall j :: 0 <= j < i ==> b[j] == 0
    {
      b[i] := 0;
    }
  }

  /** Builds the object with its sealed fields empty, then fills them in. */
  method FillVault(c: Crypto, o: EncryptOpts, m: Material, key: array<Byte>) returns (vault: VaultObject)
    requires key[..] == m.vaultKey
    modifies key
    ensures fresh(vault)
    ensures vault.json == VaultValue(Packed(c, NewHeader(o, m), m, o.password, o.Bytes()))
    ensures forall i :: 0 <= i < key.Length ==> key[i] == 0
  {
    var h := NewHeader(o, m);
    vault := new VaultObject(VaultValue(Vault(h, [], [])));
    var wrapped := B64.Encode(Sealed(c, WrapCall(c, h, m, o.password)));
    vault.SetWrappedKey(wrapped);
    SetWrapped(Vault(h, [], []), wrapped);
    var ct := B64.Encode(Sealed(c, SealCall(key[..], m.contentNonce, BuildAAD(h), o.Bytes())));
    Zero(key);
    vault.SetCiphertext(ct);
    SetContent(Vault(h, wrapped, []), ct);
  }

  /** The caller's buffers are copied first, so zeroing the key does not reach them. */
  method EncryptVault(c: Crypto, o: EncryptOpts, salt: array<Byte>, wrapNonce: array<Byte>,
                      contentNonce: array<Byte>, vaultKey: array<Byte>)
    returns (r: Result<VaultObject, VaultError>)
    ensures var m := Material(salt[..], wrapNonce[..], contentNonce[..], vaultKey[..]);
      match Or(CheckOpts(o), CheckMaterial(m))
      case Some(e) => r == Err(e)
      case None =>
        && r.Ok? && fresh(r.value)
        && r.value.json == VaultValue(Packed(c, NewHeader(o, m), m, o.password, o.Bytes()))
  {
    var early := CheckOpts(o);
    if early.Some? {
      return Err(early.value);
    }
    var ownSalt := CopyBytes(salt);
    var ownWrapNonce := CopyBytes(wrapNonce);
    var ownContentNonce := CopyBytes(contentNonce);
    var ownKey := CopyBytes(vaultKey);
    var m := Material(ownSalt[..], ownWrapNonce[..], ownContentNonce[..], ownKey[..]);
    var late := CheckMaterial(m);
    if late.Some? {
      return Err(late.value);
    }
    var vault := FillVault(c, o, m, ownKey);
    return Ok(vault);
  }

  /** Rotates the phrase on a deep copy; the given object is left alone. */
  method Rewrap(c: Crypto, vault: VaultObject, oldPassword: JsString, newPassword: JsString)
    returns (r: Result<VaultObject, VaultError>)
    requires Proper(vault.json)
    ensures match Rewrapped(c, vault.json, oldPassword, newPassword)
      case Err(e) => r == Err(e)
      case Ok(v) => r.Ok? && fresh(r.value) && r.value.json == v
  {
    if Validate(vault.json).Some? {
      return Err(Validate(vault.json).value);
    }
    if oldPassword == [] || newPassword == [] {
      return Err(EmptyPassword);
    }
    if oldPassword == newPassword {
      return Err(SamePassword);
    }
    var fields := RewrapFields(c, Fields(vault.json), oldPassword, newPassword);
    if fields.Err? {
      return Err(fields.error);
    }
    CopyByText(vault.json);
    var out := new VaultObject(Parse(Print(vault.json, Compact)).value);
    out.SetWrappedKey(fields.value);
    return Ok(out);
  }

  /** Printing and parsing copies every value. */
  lemma CopyByText(v: Value)
    requires Proper(v)
    ensures Parse(Print(v, Compact)) == Some(v)
  {
    ParsePrint(v, Compact, [], []);
    assert [] + PrintOnto(v, Compact, 0, []) == Print(v, Compact);
  }

  // -------- Records --------

  lemma {:induction false} FindInMembers(ms: seq<(JsString, Value)>, i: nat)
    requires DistinctKeys(ms) && i < |ms|
    ensures Find(ms, ms[i].0) == Some(ms[i].1)
  {
    if i > 0 {
      FindInMembers(ms[1..], i - 1);
    }
  }

  lemma FindInRecord(keys: seq<JsString>, values: seq<Value>, i: nat)
    requires |keys| == |values| && Distinct(keys) && i < |keys|
    ensures Get(Record(keys, values), keys[i]) == Some(values[i])
  {
    var ms := Record(keys, values).members;
    assert ms[i] == (keys[i], values[i]);
    FindInMembers(ms, i);
  }

  lemma {:induction false} PutInMembers(ms: seq<(JsString, Value)>, i: nat, v: Value)
    requires DistinctKeys(ms) && i < |ms|
    ensures Put(ms, ms[i].0, v) == ms[i := (ms[i].0, v)]
  {
    if i > 0 {
      PutInMembers(ms[1..], i - 1, v);
      assert ms[i := (ms[i].0, v)] == [ms[0]] + ms[1..][i - 1 := (ms[i].0, v)];
    }
  }

  lemma PutInRecord(keys: seq<JsString>, values: seq<Value>, i: nat, v: Value)
    requires |keys| == |values| && Distinct(keys) && i < |keys|
    ensures Obj(Put(Record(keys, values).members, keys[i], v)) == Record(keys, values[i := v])
  {
    var ms := Record(keys, values).members;
    assert ms[i] == (keys[i], values[i]);
    PutInMembers(ms, i, v);
    assert ms[i := (keys[i], v)] == Record(keys, values[i := v]).members;
  }

  lemma StoredKeysDiffer()
    ensures Distinct(WRAP_KEYS) && Distinct(CONTENT_KEYS) && Distinct(STORED_KDF_KEYS) && Distinct(VAULT_KEYS)
  {
    forall i, j | 0 <= i < j < 7 ensures VAULT_KEYS[i] != VAULT_KEYS[j] {
      assert |VAULT_KEYS[i]| != |VAULT_KEYS[j]| || VAULT_KEYS[i][0] != VAULT_KEYS[j][0];
    }
    forall i, j | 0 <= i < j < 4 ensures STORED_KDF_KEYS[i] != STORED_KDF_KEYS[j] {
      assert |STORED_KDF_KEYS[i]| != |STORED_KDF_KEYS[j]| || STORED_KDF_KEYS[i][0] != STORED_KDF_KEYS[j][0];
    }
    forall i, j | 0 <= i < j < 3 ensures WRAP_KEYS[i] != WRAP_KEYS[j] && CONTENT_KEYS[i] != CONTENT_KEYS[j] {
      assert |WRAP_KEYS[i]| != |WRAP_KEYS[j]| && |CONTENT_KEYS[i]| != |CONTENT_KEYS[j]|;
    }
  }

  lemma SetWrapped(w: Vault, text: JsString)
    ensures SetField(VaultValue(w), K_WRAP, K_WRAPPED_KEY, text) == VaultValue(w.(wrappedKey := text))
  {
    StoredKeysDiffer();
    var inner := [Str(w.header.wrapAlgorithm), Str(w.header.wrapNonce), Str(w.wrappedKey)];
    FindInRecord(VAULT_KEYS, VaultValues(w), 5);
    PutInRecord(WRAP_KEYS, inner, 2, Str(text));
    assert inner[2 := Str(text)] == [inner[0], inner[1], Str(text)];
    PutInRecord(VAULT_KEYS, VaultValues(w), 5, StoredWrap(w.(wrappedKey := text)));
    assert VaultValues(w)[5 := StoredWrap(w.(wrappedKey := text))] == VaultValues(w.(wrappedKey := text));
  }

  lemma SetContent(w: Vault, text: JsString)
    ensures SetField(VaultValue(w), K_CONTENT, K_CIPHERTEXT, text) == VaultValue(w.(ciphertext := text))
  {
    StoredKeysDiffer();
    var inner := [Str(w.header.contentAlgorithm), Str(w.header.contentNonce), Str(w.ciphertext)];
    FindInRecord(VAULT_KEYS, VaultValues(w), 6);
    PutInRecord(CONTENT_KEYS, inner, 2, Str(text));
    assert inner[2 := Str(text)] == [inner[0], inner[1], Str(text)];
    PutInRecord(VAULT_KEYS, VaultValues(w), 6, StoredContent(w.(ciphertext := text)));
    assert VaultValues(w)[6 := StoredContent(w.(ciphertext := text))] == VaultValues(w.(ciphertext := text));
  }
}
