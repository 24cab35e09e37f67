# Bry and QEV: a verified model

A Dafny model of the parts of the repository that decide whether a message survives: the Bry codec
and its keyed transform and packets (Python), the V2 vault envelope with its exports and phrase
rotation (JavaScript and TypeScript), chat delivery and the write-through stores (Rust), and the
pairing session with its framing (Rust). `dafny verify dfyconfig.toml` checks the whole project.

## How it is laid out

| files | what they hold |
|---|---|
| `Prelude`, `Utf` | bytes, UTF-16 text, UTF-8 (RFC 3629), `TextEncoder` and the fatal `TextDecoder` |
| `Alphabet`, `Codec`, `CodecTheorems`, `Human`, `Padding` | the token table, normalization, greedy reading, when printing can be undone, the piped form, white space around input |
| `Ring`, `Schedule`, `Transform` | the ring rotation, the stepped state, the two transforms |
| `Packet`, `PacketHeaders`, `PacketTheorems`, `Audit` | sealed packets, their headers as JSON, what opens, the nine audit cases, the nonce registry |
| `KeySchedule` | what session keys, states, steps, cipher keys and cipher nonces depend on |
| `Json`, `JsonTheorems`, `Escapes`, `Canonical`, `CanonicalTheorems`, `Aad` | both `JSON.stringify` layouts, `JSON.parse`, the sorted-key printer, the bound header fields |
| `Base64`, `Base64Values`, `Vault`, `VaultTheorems`, `VaultKeys` | base64url, sealing, opening, validation and rotation, what keys and seals depend on |
| `Exports`, `Markers`, `ExportTheorems` | the three exported forms and the parser that takes them back |
| `ChatStore`, `WriteThrough`, `Stores` | bounded conversations, durability under threads and crashes, and both for the closures the program passes |
| `Delivery`, `DeliveryTheorems`, `DeliveryProgress`, `DeliveryCommands` | devices and the relay, at-least-once delivery, when delivery progresses and what the relay drops, whole commands |
| `Assumptions` | for each set of cryptographic assumptions, a cipher that meets it |
| `Framing`, `Channel`, `Noise`, `Prompt` | frames and fragments, the numbered cipher channel, Noise XK and the identity exchange, the phrase prompt |

Code that is made of expressions is functions here. Loops and objects that change are methods and
classes, each tied by its contract to a function of its inputs or of the old state, about which the
lemmas are then proved.

Cryptography enters as a datatype of functions and never as an axiom. Round trips assume only that
opening undoes sealing, on the calls that were made, and that tags have their length. Results about
tampering assume an ideal cipher *relative to the calls that were made*: it opens nothing that those
calls did not seal, and no two of them sealed to the same bytes. A cipher that is ideal for all inputs at once cannot exist, because
there are more additional-data strings than ciphertexts of a given length; the local form can, and
`Assumptions` constructs one for every header, material, text and pair of phrases, for every packet
session and for every list of channel messages. Key derivation is assumed free of collisions only
among the phrases that a statement names.

## What turned out to be false, or narrower than promised

- `roundtrip` is not total: "JA" prints as `+1`, which reads as "K" (`CodecTheorems.CollidingTexts`).
  It returns exactly on texts with no J before a letter and no T before A to F
  (`CodecTheorems.DecodeEncodeIff`).
- A vault gives back the text exactly iff the text has no lone surrogate and does not start with
  U+FEFF (`VaultTheorems.DecryptOfEncryptText`).
- The bounded conversation follows an unbounded log through a run iff no status update is shadowed
  when it comes: the trimmed part holds its identifier, and the first kept message with that
  identifier has another status (`ChatStore.RunTracksIff`). A log of 501 messages with the first and
  the last alike breaks it (`ChatStore.UpdateCanMiss`); repeated additions, as after a lost
  acknowledgement, do not.
- The write-through guarantee holds for a closure iff the closure leaves the store alone whenever it
  returns an error (`WriteThrough.DurableIffHonest`). The run that breaks it is hypothetical: every
  closure the program passes is honest, so both of its stores are durable without a condition
  (`Stores.ChatDurability`, `Stores.PeerDurability`).
- The relay keeps at most 100 envelopes per recipient and drops the oldest, or drops by age, so
  "nothing is lost" holds for envelopes it has not dropped. It has dropped nothing iff no envelope
  aged out and none arrived at a full inbox (`DeliveryProgress.NothingDroppedIff`); a run of 101
  arrivals loses a chat message (`DeliveryProgress.FullInboxLosesChat`).
- Waiting chat is not always fetched: repeated rounds of fetch and acknowledge reach it iff fewer
  than fifty envelopes of other kinds stand before it (`DeliveryProgress.RoundsDeliverIff`).
- A send marks its own message "sent" or "failed" iff no earlier entry of the conversation has its
  identifier, as a received one may; otherwise that entry is marked (`DeliveryCommands.SendMarks`).
- A phrase typed at the prompt is the typed text iff the text is ASCII: every byte of any other
  character becomes its own character (`Prompt.TypedTextIff`).
- The nonce registry joins master key and context with `|`. Two pairs share a namespace iff they are
  equal or one key continues the other across a separator that its own context lacks
  (`Audit.NamespacesMeetIff`), as in `Audit.NamespacesCanMeet`. Session keys, initial states and cipher
  nonces join nonce and context in the same way (`KeySchedule.SessionKeysMeetIff` and those beside it).
- Phrase rotation refuses an equal new phrase by comparing strings. Two different strings with the
  same UTF-8 bytes pass, and the rotation then changes nothing (`VaultTheorems.RotationChangesIff`,
  `VaultTheorems.RotationCanChangeNothing`); the theorems therefore speak of the bytes of a phrase.
- The three base64url decoders differ. The command line takes every text of the alphabet with any
  padding, the lock page refuses what ends in more than two pads, and the vault page takes exactly
  what encoding emits (`Base64.ReencodeIff`, `Base64.AtobIff`, `Base64.StrictIff`).

## Model

| member | source | states |
|---|---|---|
| Utf.DecodeOfEncode | qev-cli/lib/canonical.js:40-49 | decoding what was encoded replaces lone surrogates and drops one leading byte order mark; it is the identity iff the text has neither |
| Utf.EncodeDecodeAll | qev-cli/lib/canonical.js:47-49 | the fatal decoder accepts only shortest forms: what it accepts re-encodes to the same bytes |
| Alphabet.TableIsExact | src/bry_nfet_sx/bry/alphabet.py:3-38 | the two dictionaries are inverse bijections and hold exactly the table's rows |
| Alphabet.EveryTokenIsListed | src/bry_nfet_sx/bry/alphabet.py:38-45 | a string is a token iff it is in the sorted list, and iff it is in the table |
| Codec.NormalizePlaintext | src/bry_nfet_sx/bry/canonical.py:22-49 | the k-th lower-case letter becomes the k-th upper-case letter, tabs and line ends become spaces, supported characters stay; the error names the first character that nothing stands for |
| Codec.NormalizeRaised | src/bry_nfet_sx/bry/canonical.py:41-44 | a text and the same text with its lower-case letters raised normalize alike, or are refused alike |
| Codec.WhiteSpaceIsIgnored | src/bry_nfet_sx/bry/tokens.py:17-17 | white space anywhere in a compact text makes no difference, and every other character is kept in its place |
| Codec.FirstMatch | src/bry_nfet_sx/bry/tokens.py:24-30 | trying the sorted list in order finds the longest token at the front, or none exists |
| Codec.MunchIsLongest | src/bry_nfet_sx/bry/canonical.py:71-76 | the token read is at least as long as every token that fits |
| Codec.TokenizeBry | src/bry_nfet_sx/bry/tokens.py:11-36 | the loop is greedy reading of the text without white space, failing at the same place |
| Codec.DecodeFromBry | src/bry_nfet_sx/bry/canonical.py:57-83 | the decoder yields the character of each token that the tokenizer yields, and fails exactly where it fails |
| CodecTheorems.DecodeEncodeIff | src/bry_nfet_sx/bry/canonical.py:52-83 | decode undoes encode iff no J stands before a letter and no T before A to F |
| CodecTheorems.CollidingTexts | src/bry_nfet_sx/bry/canonical.py:52-83 | two such texts, with the other texts they come back as: JA as K, TA as U |
| CodecTheorems.Roundtrip | src/bry_nfet_sx/bry/canonical.py:86-100 | it returns exactly on normalizing texts without such neighbours, and raises its own error on every other normalizing text |
| CodecTheorems.TokenizeAcceptsIff | src/bry_nfet_sx/bry/tokens.py:11-36 | a text is accepted iff all its characters are in the alphabet and each of p, c, q, e, a follows two dashes |
| CodecTheorems.AcceptedTextIsPreserved | src/bry_nfet_sx/bry/tokens.py:11-44 | on every accepted text, joining the tokens gives the text, and encoding its decoding gives the text |
| CodecTheorems.PrintedIsAccepted | src/bry_nfet_sx/bry/tokens.py:39-44 | any run of tokens printed together is accepted, perhaps as other tokens |
| Human.ParseInputOfRender | src/bry_nfet_sx/bry/tokens.py:51-86 | parsing undoes the piped form for every token list: empty, one token (which takes the compact parser), or many |
| Padding.PaddedParses | src/bry_nfet_sx/bry/tokens.py:59-86 | any white space around the tokens and at both ends of the piped form is ignored |
| Ring.RotateBack | src/bry_nfet_sx/protocol/transforms.py:47-131 | each direction undoes the other under every row; the class is kept, and only the space stays in place |
| Ring.RotationShifts | src/bry_nfet_sx/protocol/transforms.py:42-106 | on characters a rotation shifts the 26 letters, or the five marks, by 1 + (131 bucket + mask + ridge + 17 position) mod (size - 1) places, in the direction that channel and dummy give |
| Schedule.InitializeSchedulerState | src/bry_nfet_sx/nfet/state.py:46-62 | the extension loop ends with exactly the configured number of bytes of the hash chain |
| Schedule.StateSize | src/bry_nfet_sx/nfet/state.py:46-81 | after any step the state has min(state_bytes, 32) bytes: larger initial states shrink at the first step |
| Schedule.RowsExist | src/bry_nfet_sx/nfet/state.py:119-146 | the view never raises at any position, and its bucket, channel and mask are in range |
| Schedule.RowsPrefix | src/bry_nfet_sx/nfet/trace.py:61-114 | the schedule of a shorter message is a prefix of the schedule of a longer one under the same key, nonce, context and configuration |
| Schedule.BuildSchedule | src/bry_nfet_sx/nfet/trace.py:61-114 | the loop yields the initial state and that schedule for every valid configuration, and refuses every other |
| KeySchedule.SessionKeysMeetIff | src/bry_nfet_sx/nfet/state.py:38-43 | two session keys agree iff the master keys do and nonce and context join to one text, if HMAC tells the two inputs apart |
| KeySchedule.InitialStatesMeetIff | src/bry_nfet_sx/nfet/state.py:46-62 | two initial states agree iff the session keys do and nonce and context join to one text |
| KeySchedule.StepTextBinds | src/bry_nfet_sx/nfet/state.py:65-81 | the bytes a step hashes determine step and position up to 64 bits, and the state |
| KeySchedule.XorBits | src/bry_nfet_sx/nfet/state.py:79-80 | each bit of a mixed byte is set iff the two bits it comes from differ |
| KeySchedule.StepMixes | src/bry_nfet_sx/nfet/state.py:65-81 | mixing the next state with the current one again gives the digest of the step |
| KeySchedule.StepsMeetIff | src/bry_nfet_sx/nfet/state.py:65-81 | from one state, two steps agree iff session key and position do |
| KeySchedule.ViewReads | src/bry_nfet_sx/nfet/state.py:119-146 | bucket, channel and dummy are read from bytes 0 to 3, 7 and 8 to 11 of the state |
| KeySchedule.AeadKeysMeetIff | src/bry_nfet_sx/crypto_core/aead.py:9-18 | two cipher keys agree iff master key and context do |
| KeySchedule.AeadNoncesMeetIff | src/bry_nfet_sx/crypto_core/aead.py:20-33 | two cipher nonces agree iff the keys do and nonce and context join to one text; under one key and context every packet nonce has its own |
| KeySchedule.LabelsSeparate | src/bry_nfet_sx/nfet/state.py:38-81 | no text hashed for one purpose is ever one hashed for another |
| Transform.TurnBack | src/bry_nfet_sx/protocol/transforms.py:84-131 | turning a list forward and back is the identity; every token other than the space moves within its class |
| Transform.ApplyTransform | src/bry_nfet_sx/protocol/transforms.py:134-206 | the forward loop's result, whose on-the-spot recovery is exact for every message that normalizes |
| Transform.ReverseTransform | src/bry_nfet_sx/protocol/transforms.py:209-279 | the reverse loop's result on every text, for both input forms and all error cases |
| Transform.ReverseOfApplied | src/bry_nfet_sx/protocol/transforms.py:134-279 | reversing the human-safe output recovers the token list for every message, key, nonce, context and valid configuration, reports success, and never raises |
| Packet.ReadIdentifiers | src/bry_nfet_sx/bry/binary.py:19-33 | the loop yields the tokens of all bytes, or an error iff some byte is no identifier |
| Packet.IdentifiersRoundTrip | src/bry_nfet_sx/bry/binary.py:7-33 | token lists and identifier strings are inverse to each other, in both directions |
| Packet.HeaderBytesBind | src/bry_nfet_sx/protocol/packet.py:69-74 | two headers give the same additional data iff all six fields are equal, for arbitrary text in the fields |
| PacketHeaders.HeaderReadsBack | src/bry_nfet_sx/protocol/packet.py:69-74 | parsing the additional data gives the six fields, each under its own key, for arbitrary text in the fields |
| PacketHeaders.AcceptedIff | src/bry_nfet_sx/protocol/packet.py:45-66 | a header is accepted iff version, algorithm and mode are the supported ones, context and nonce are not empty and a token is counted |
| PacketTheorems.BuiltIff | src/bry_nfet_sx/protocol/packet.py:77-125 | building succeeds iff configuration, text, context and nonce are acceptable; the header then counts the payload |
| PacketTheorems.OpenOfBuild | src/bry_nfet_sx/protocol/packet.py:77-171 | the same key and configuration open every built packet whose one sealing call the cipher undoes, and recover decode(encode(normalize(text))) |
| PacketTheorems.OpenOnly | src/bry_nfet_sx/protocol/packet.py:128-171 | after one packet was built, any packet with another header field, ciphertext or derived key fails to open |
| PacketTheorems.OpensWithAnyConfig | src/bry_nfet_sx/protocol/packet.py:148-171 | with the right key the packet opens iff the configuration is valid: a wrong one is not detected |
| Audit.NonceRegistry.CheckAndRegister | src/bry_nfet_sx/protocol/audit.py:46-76 | reports the earlier uses of the nonce in its namespace and counts this one |
| Audit.UsesAreCounted | src/bry_nfet_sx/protocol/audit.py:46-76 | over any run of checks the count is the number of earlier checks of that namespace and nonce; reused iff there is one |
| Audit.NamespacesMeetIff | src/bry_nfet_sx/protocol/audit.py:60-60 | two pairs of key and context have one namespace iff they are equal or one key continues the other across a separator that its own context lacks, if the hash tells the two texts apart |
| Audit.PlainPairsNeverMeet | src/bry_nfet_sx/protocol/audit.py:60-60 | different pairs never share a namespace if no context, or no key, holds the separator |
| Audit.NamespacesCanMeet | src/bry_nfet_sx/protocol/audit.py:60-60 | a concrete pair of pairs with one namespace, whatever the hash |
| Audit.RunAudit | src/bry_nfet_sx/protocol/audit.py:122-255 | the nine trials in order, each compared with its expectation; the nonce is registered even if building fails |
| Audit.AllCasesPass | src/bry_nfet_sx/protocol/audit.py:122-255 | all nine cases pass under an ideal cipher, and the baseline recovers what the codec preserves |
| JsonTheorems.ReadBack | qev-cli/lib/rewrap.js:114-114 | parsing undoes printing for every value, in both layouts, whatever follows the printed text |
| JsonTheorems.PrintInjective | qev-cli/lib/canonical.js:25-28 | different values print differently |
| Escapes.EscapeIsShortest | qev-cli/lib/canonical.js:25-28 | a unit that needs an escape prints as the shortest one that reads back as it, with lower-case digits |
| Escapes.LiteralPrints | qev-cli/lib/canonical.js:25-28 | text without such units prints as itself between quotes |
| CanonicalTheorems.CanonicalIsPrint | qev-cli/lib/canonical.js:25-35 | the recursive printer is the compact print of the value with its keys sorted at every depth |
| CanonicalTheorems.CanonicalIsAscendingPrint | qev-cli/lib/canonical.js:25-35 | it is the compact print of any value that is the same up to key order and in which, at every depth, each key comes before the next by UTF-16 units |
| CanonicalTheorems.CanonicalIff | qev-cli/lib/canonical.js:25-35 | two values have the same canonical text iff they are equal up to the order of keys at every depth |
| CanonicalTheorems.ParseCanonical | proof-lock-web/src/qev.ts:55-65 | parsing the canonical text gives a value that is the same up to key order and whose keys ascend by UTF-16 units at every depth |
| Aad.AadBinds | qev-cli/lib/canonical.js:96-118 | two vaults have the same additional data iff all twelve bound fields are equal, for arbitrary strings |
| VaultKeys.AadSays | qev-cli/lib/canonical.js:96-118 | the additional data is the UTF-8 of a JSON text with ascending keys that says each of the twelve fields under its own key |
| Base64.DecodeOfEncode | qev-cli/lib/canonical.js:59-86 | decoding undoes encoding for every byte string; n bytes give ceil(4n/3) characters, all from the URL alphabet |
| Base64Values.EncodeSpells | qev-cli/lib/canonical.js:59-64 | three bytes become four symbols that spell the same number in base 64, two become three and one becomes two, with zero bits added at the end |
| Base64Values.SymbolIs | qev-cli/lib/canonical.js:59-64 | the n-th symbol is the n-th of A to Z, a to z, 0 to 9, dash and underscore |
| Base64.ReencodeIff | qev-cli/lib/canonical.js:73-86 | decoding accepts exactly the matching texts, and re-encodes one to itself iff it is unpadded, has no lone last symbol and zero trailing bits |
| Base64.AtobIff | proof-lock-web/src/qev.ts:81-91 | the lock page accepts a text iff it matches and, completed, ends in at most two pads; it then reads what the command line reads |
| Base64.StrictIff | landing/vault/chat.js:139-141 | the vault page accepts exactly what encoding emits, and undoes it |
| Base64.EncodeArray | proof-lock-web/src/qev.ts:75-79 | the browser's copying loop encodes the array's bytes |
| Base64.DecodeToArray | proof-lock-web/src/qev.ts:81-91 | the browser's loop fills a fresh array with the decoded bytes, or refuses exactly when `atob` or the pattern does |
| Vault.EncryptVault | qev-cli/lib/vault.js:188-335 | the vault of the phrase, or the first failing check; the caller's buffers are left as they were |
| Vault.FillVault | qev-cli/lib/vault.js:276-334 | filling the two sealed fields in place gives the complete vault, and the owned key buffer is zeroed |
| Vault.Rewrap | qev-cli/lib/rewrap.js:32-117 | a fresh object with the new wrapped key; the given object is unchanged |
| VaultKeys.WrapKeysIff | qev-cli/lib/vault.js:266-273 | two wrap keys are equal iff the bytes of the phrases, the salts and both limits are, if the key derivation tells the inputs apart |
| VaultKeys.OtherSettingsDoNotUnwrap | qev-cli/lib/vault.js:389-396 | one phrase under another salt or other limits seals under another key and does not unwrap the seal |
| VaultKeys.UnwrapsIff | qev-cli/lib/rewrap.js:59-90 | a phrase unwraps what another wrapped iff the bytes, the salt, the nonce and all twelve header fields are the same |
| VaultKeys.SealsBind | qev-cli/lib/vault.js:188-335 | each of the two seals determines its key, nonce, plaintext and the whole header |
| VaultKeys.EmittedFields | qev-cli/lib/vault.js:188-335 | every field of an emitted vault read by its key: options with their defaults, salt and nonces, and both seals in terms of the four arguments of the key derivation |
| VaultKeys.OptionsAcceptedIff | qev-cli/lib/vault.js:188-240 | encryption accepts exactly a non-empty phrase, one of two modes, limits of 1 to 10 and 8 to 256 MiB, and 1 to 262144 bytes |
| VaultTheorems.ValidateIff | qev-cli/lib/vault.js:93-167 | a stored vault passes validation iff schema, mode, algorithms, limits and non-empty fields are right, and its fields are read back |
| VaultTheorems.EncodedSizes | qev-cli/lib/canonical.js:59-64 | 16, 24 and 48 bytes become 22, 32 and 64 characters |
| VaultTheorems.DecryptSame | qev-cli/lib/vault.js:350-452 | vaults equal up to the order of keys are refused alike or open alike |
| VaultTheorems.PackedIsAcceptable | qev-cli/lib/vault.js:124-167 | everything that encryption emits passes the validator, with fields of the expected lengths |
| VaultTheorems.DecryptOfEncrypt | qev-cli/lib/vault.js:188-452 | decryption undoes encryption for every phrase, limits and bytes that encryption accepts |
| VaultTheorems.DecryptOfEncryptText | qev-cli/lib/vault.js:188-452 | a text comes back well formed and without one leading U+FEFF; it comes back unchanged iff it already was |
| VaultTheorems.DecryptIff | qev-cli/lib/vault.js:350-452 | the exact set of JSON values and phrases that open: all twelve bound fields and the content as sealed, and the wrapped key of a phrase with the same bytes |
| VaultTheorems.RewrapPacked | qev-cli/lib/rewrap.js:32-117 | one rotation replaces the wrapped key and nothing else, or refuses an empty or equal phrase |
| VaultTheorems.RotationChangesIff | qev-cli/lib/rewrap.js:32-117 | rotating between different phrases succeeds, and changes the vault iff the bytes of the phrases differ |
| VaultTheorems.RotationCanChangeNothing | qev-cli/lib/rewrap.js:32-117 | two different phrases between which a rotation succeeds and changes nothing |
| VaultTheorems.ChainIff | qev-cli/lib/rewrap.js:32-117 | a run of rotations succeeds iff no phrase is empty or repeated next to itself; header and content never change, and ending at the first phrase restores the vault exactly |
| VaultTheorems.OpensAfterRotation | qev-cli/lib/rewrap.js:32-117 | after any successful run a phrase opens the vault iff it has the bytes of the last phrase, and then gives the original text |
| VaultTheorems.NewHeaderFits | qev-cli/lib/vault.js:188-298 | every vault that encryption builds meets the conditions of the results on opening and rotation |
| Exports.BuildRecoverySheet | landing/vault/chat.js:248-363 | the loops lay out the sheet: fixed lines, fields, chunks of 64, and the JSON between its markers |
| ExportTheorems.JsonFormParses | landing/vault/chat.js:1398-1447 | the file form of any object parses back to it exactly, if one marker is in none of its strings |
| ExportTheorems.TextFormParses | landing/vault/chat.js:1327-1338 | the copied text of any object parses back to it up to key order, with no condition on its strings |
| ExportTheorems.SheetParses | landing/vault/chat.js:248-363 | the recovery sheet of any V2 vault parses back to it exactly, if neither marker is in a string put into the sheet |
| ExportTheorems.SealedIsClean | landing/vault/chat.js:248-363 | of an encrypted vault only the time stamp, version, file name and identifier could hold a marker |
| ExportTheorems.EveryFormOpens | landing/vault/chat.js:1398-1447 | whichever form a vault was kept in, it opens under the same phrases to the same text |
| Padding.SurroundingIsIgnored | landing/vault/chat.js:1398-1447 | white space before and after whatever was pasted changes nothing |
| Padding.MebibytesIsNearest | landing/vault/chat.js:295-295 | the sheet names the nearest whole number of mebibytes |
| ChatStore.Store.AddMessage | tauri-app/src-tauri/pairing/src/chat_store.rs:120-130 | the conversation becomes its last 500 messages with the new one at the end; no other conversation changes |
| ChatStore.Store.UpdateStatus | tauri-app/src-tauri/pairing/src/chat_store.rs:141-149 | true iff the identifier is kept; then only the first message with it changes, and only its status |
| ChatStore.Store.UnreadCount | tauri-app/src-tauri/pairing/src/chat_store.rs:152-162 | the number of unread messages kept for the peer |
| ChatStore.Store.MarkAllRead | tauri-app/src-tauri/pairing/src/chat_store.rs:165-173 | every unread message of the peer is marked, in place; a missing conversation is not created |
| ChatStore.UpdateRefinesIff | tauri-app/src-tauri/pairing/src/chat_store.rs:141-149 | updating the bounded conversation is updating the log, iff it is not the case that the identifier was trimmed away and the first kept message with it has another status |
| ChatStore.UpdateCanMiss | tauri-app/src-tauri/pairing/src/chat_store.rs:120-149 | a log of 501 messages on which the store marks the last message and the log the first |
| ChatStore.RunTracksIff | tauri-app/src-tauri/pairing/src/chat_store.rs:120-173 | in any run, identifiers repeated or not, the conversation is at every point the last min(500, n) messages of the log, iff no update is shadowed when it comes |
| ChatStore.RunRefines | tauri-app/src-tauri/pairing/src/chat_store.rs:120-173 | after any run without a shadowed update the conversation is the last min(500, n) messages of the log, in order, with current statuses; nothing is asked of additions |
| ChatStore.FreshIsUnshadowed | tauri-app/src-tauri/pairing/src/chat_store.rs:120-149 | with fresh identifiers no update of any run is shadowed |
| ChatStore.MarkedIsRead | tauri-app/src-tauri/pairing/src/chat_store.rs:165-173 | marking leaves nothing unread and changes no other message |
| ChatStore.UnreadIsExact | tauri-app/src-tauri/pairing/src/chat_store.rs:152-162 | the count is the size of the set of unread places |
| WriteThrough.StepKeeps | tauri-app/src-tauri/src/lib.rs:78-96 | every step of every thread, every failed save, panic and crash keeps the invariant; the saved prefix never shrinks or changes and no acknowledged call is forgotten |
| WriteThrough.Durability | tauri-app/src-tauri/src/lib.rs:125-142 | after any run of any number of threads the file is the store after a growing prefix of the successful mutations, which contains every call that returned Ok |
| WriteThrough.CallReturnsOk | tauri-app/src-tauri/src/lib.rs:78-96 | from any world whose lock is free and not poisoned, a call whose closure succeeds ends, undisturbed, with the store saved and Ok returned, and counts as such |
| WriteThrough.FailingCallReturnsErr | tauri-app/src-tauri/src/lib.rs:82-88 | a closure that fails ends its call with Err, and nothing is saved |
| WriteThrough.FailedSaveReturnsErr | tauri-app/src-tauri/src/lib.rs:89-95 | a save that fails, before or after the temporary file is written, ends the call with Err; file and Ok calls stay as they were |
| WriteThrough.PoisonedCallReturnsErr | tauri-app/src-tauri/src/lib.rs:83-86 | after a panic under the lock every call returns Err and touches nothing |
| WriteThrough.FileIsMemory | tauri-app/src-tauri/src/lib.rs:78-96 | the file equals the memory when no call is between its mutation and its save and none has failed there since |
| WriteThrough.CrashLosesNoOk | tauri-app/src-tauri/pairing/src/chat_store.rs:82-117 | a restart, even with a torn temporary file, loads a store that contains every call that returned Ok |
| WriteThrough.DurableIffHonest | tauri-app/src-tauri/src/lib.rs:78-96 | beside any honest closures, in every run, the file is the store after some of the successful calls, iff this closure leaves the store unchanged whenever it fails |
| WriteThrough.DishonestClosureIsSaved | tauri-app/src-tauri/src/lib.rs:82-95 | for every closure that changes some store and fails, a run in which the next call saves that change |
| Stores.ChatDurability | tauri-app/src-tauri/src/lib.rs:1360-1495 | after any run of chat commands the file holds the conversations after some number of the completed commands, among them every one that returned Ok, with no condition on the closures |
| Stores.ConversationsAreSeparate | tauri-app/src-tauri/pairing/src/chat_store.rs:120-173 | after any commands each conversation is the run of its own operations |
| Stores.PeerIsHonest | tauri-app/src-tauri/src/lib.rs:457-1325 | every closure run on the peer store, also a refused trust change and a refused removal, leaves the store alone when it fails |
| Stores.PeerDurability | tauri-app/src-tauri/src/lib.rs:78-96 | the peer store is durable in every run of the program's closures |
| Stores.PeerCommand | tauri-app/src-tauri/pairing/src/peer_store.rs:468-541 | pairing again keeps trust and pairing time, trusting and removing reach exactly the named peer and succeed iff it is known, an identity once made keeps its keys, and a restore takes trust from no one |
| Delivery.ProcessBatch | tauri-app/src-tauri/src/lib.rs:1459-1507 | the fetch loop appends exactly the chat envelopes in order and acknowledges exactly those; a failed write ends it with nothing acknowledged |
| DeliveryTheorems.StepKeeps | tauri-app/src-tauri/src/lib.rs:1342-1507 | every step of senders, fetches, reads, other handlers, the relay and restarts keeps the delivery invariant |
| DeliveryTheorems.AtLeastOnce | tauri-app/src-tauri/src/lib.rs:1446-1507 | in every run each accepted chat envelope that the relay has not dropped is in the inbox, or its message is in the recipient's conversation with the sender, in memory and in the file |
| DeliveryTheorems.NothingMadeUp | tauri-app/src-tauri/src/lib.rs:1342-1507 | in every run each incoming entry, in memory or in the file, is the message of an accepted envelope from this peer to this device that a fetch appended, and each entry marked sent is a message that the relay accepted |
| DeliveryTheorems.AckTakesOnlyChat | tauri-app/src-tauri/src/lib.rs:1462-1504 | the loop's acknowledgement removes no envelope of another kind and none of another recipient |
| DeliveryCommands.SendMarks | tauri-app/src-tauri/src/lib.rs:1342-1410 | an undisturbed send appends its message, in memory and in the file, hands the relay its envelope, and marks the message "sent" if the relay took it and "failed" if not, or an earlier entry with its identifier if there is one |
| DeliveryCommands.SentIsReceived | tauri-app/src-tauri/src/lib.rs:1342-1507 | such a send, then one fetch of a recipient with fewer than fifty envelopes waiting, leaves the message in the recipient's conversation, in memory and in the file |
| DeliveryCommands.ReadMarksAll | tauri-app/src-tauri/src/lib.rs:1421-1430 | after a saved read mark nothing from the peer is unread |
| DeliveryProgress.ProcessBatchIsRun | tauri-app/src-tauri/src/lib.rs:1459-1507 | what the loop leaves in the store shows the ends of the conversations after the run of its single steps, with or without a failed write, and the run can acknowledge iff the loop does |
| DeliveryProgress.TakenDropsIff | tauri-app/src-tauri/relay/src/store.rs:128-150 | an arriving envelope costs the recipient one iff the queue is full, and then the oldest |
| DeliveryProgress.NothingDroppedIff | tauri-app/src-tauri/relay/src/store.rs:128-215 | over a whole run the relay has dropped nothing iff it evicted nothing by age and nothing arrived at a full queue; then no accepted chat envelope is lost |
| DeliveryProgress.FullInboxLosesChat | tauri-app/src-tauri/relay/src/store.rs:128-150 | a run of 101 arrivals after which an accepted chat envelope is in no inbox and no conversation |
| DeliveryProgress.ChatVisibleIff | tauri-app/src-tauri/relay/src/store.rs:152-169 | a fetch finds chat iff a chat envelope is among the first fifty |
| DeliveryProgress.RoundsReachIff | tauri-app/src-tauri/relay/src/store.rs:152-187 | repeated fetching and acknowledging brings an envelope into a fetch iff fewer than fifty that are no chat stand before it |
| DeliveryProgress.RoundsDeliverIff | tauri-app/src-tauri/src/lib.rs:1446-1507 | whole fetch commands of a device, repeated undisturbed, append a waiting chat envelope iff fewer than fifty that are no chat stand before it |
| Framing.Stream.ReadExact | tauri-app/src-tauri/pairing/src/handshake.rs:331-336 | reading n bytes depends only on the bytes that arrive, not on their pieces |
| Framing.Stream.WriteFrame | tauri-app/src-tauri/pairing/src/handshake.rs:317-329 | a message of at most 65535 bytes is written with its length; a longer one is refused and nothing is written |
| Framing.Stream.ReadFrames | tauri-app/src-tauri/pairing/src/handshake.rs:331-338 | repeated reading gives every whole frame of the bytes, however they were cut |
| Framing.FramesRoundTrip | tauri-app/src-tauri/pairing/src/handshake.rs:317-338 | reading the written frames gives exactly the list of messages |
| Framing.TruncatedGivesPrefix | tauri-app/src-tauri/pairing/src/handshake.rs:331-338 | a stream cut anywhere gives the messages that arrived whole, unaltered, and nothing else |
| Framing.SendFragments | tauri-app/src-tauri/pairing/src/transport.rs:147-172 | the loop cuts the body into numbered fragments, with one for an empty body |
| Framing.FragmentsAreFull | tauri-app/src-tauri/pairing/src/transport.rs:147-172 | there are as few fragments as can be and at least one; all but the last are full, and each carries the total and its position |
| Framing.ReassembleOfFragments | tauri-app/src-tauri/pairing/src/transport.rs:147-235 | reassembling undoes cutting for every body up to the limit, and takes nothing of the next message |
| Framing.ReassembledIsAnnounced | tauri-app/src-tauri/pairing/src/transport.rs:174-235 | whatever is accepted is whole: fragments 0, 1, 2, ... that all announce its length, and exactly their payloads |
| Channel.Endpoint.Send | tauri-app/src-tauri/pairing/src/handshake.rs:276-290 | refused iff too large; otherwise exactly one sealed frame is written under the next number |
| Channel.Endpoint.Recv | tauri-app/src-tauri/pairing/src/handshake.rs:293-308 | takes one frame and advances the number only if it opens |
| Channel.ChannelRoundTrip | tauri-app/src-tauri/pairing/src/handshake.rs:276-308 | every list of messages of the allowed size, each of which the cipher opens in its turn, arrives whole and in order |
| Channel.AnyStreamGivesPrefix | tauri-app/src-tauri/pairing/src/handshake.rs:293-308 | from any bytes whatever, dropped, repeated, reordered or altered, the receiver takes a prefix of what was sent, even if it goes on after every refusal |
| Noise.ReadOfWrite | tauri-app/src-tauri/pairing/src/handshake.rs:114-138 | for any token pattern, the other side reads what one side wrote, and both agree again on hash, secrets and keys |
| Noise.NoReadAcross | tauri-app/src-tauri/pairing/src/handshake.rs:200-203 | for any token pattern, sides whose hashes differ can never read each other |
| Noise.StepDecreases | tauri-app/src-tauri/pairing/src/handshake.rs:194-231 | every step of either side brings the exchange nearer to its end, whatever the streams hold |
| Noise.OneCanMove | tauri-app/src-tauri/src/lib.rs:615-628 | in every state on course exactly one side can move, until both are done: no state is stuck |
| Noise.RightKey | tauri-app/src-tauri/src/lib.rs:615-628 | if the scanned key is the responder's, every run reaches both channels, each side having mixed in exactly es, ee and se of the four true keys and hashed exactly the three messages, then both identities, in exactly ten steps and without failure |
| Noise.DhIff | tauri-app/src-tauri/pairing/src/handshake.rs:15-19 | two secrets are equal iff they are of the same two key pairs |
| Noise.WrongKey | tauri-app/src-tauri/src/lib.rs:924-938 | if the scanned key is another, no run gives either side a channel, and every run ends with both failed |
| Prompt.Listener.OnData | qev-cli/lib/prompt.js:74-115 | one chunk takes the machine as its bytes do one by one; the terminal mode is restored as soon as the phrase ends |
| Prompt.ChunksDoNotMatter | qev-cli/lib/prompt.js:47-119 | two deliveries of the same bytes, however cut, end alike |
| Prompt.FirstEndDecides | qev-cli/lib/prompt.js:76-99 | the first CR or LF gives what was typed before it, Ctrl-C aborts, Ctrl-D gives it or aborts if there is nothing; the rest is ignored |
| Prompt.Cancels | qev-cli/lib/prompt.js:100-113 | anywhere in the input a character and an erase after it cancel, other control bytes vanish, and an erase with nothing before it vanishes |
| Prompt.TypedTextIff | qev-cli/lib/prompt.js:108-113 | the phrase is the typed text, and has its UTF-8 bytes, iff the text is ASCII |

## Left out

- Floating point: `intensity` and `ridge_signal` are not computed; the scaled ridge signal is an arbitrary number determined by the three state words.
- The trace: digests, `message_trace_hex` and `build_trace` are not modelled; the schedule they share is.
- Counters that leave 64 bits: `int.to_bytes` would raise there, for messages of 2^64 tokens; numbers here are unbounded.
- Normalization: `str.upper` is modelled for the characters whose upper case is in the table (a to z, dotless i, long s); every other character is refused, as in the code.
- Packets as dictionaries: missing or extra keys, values of another type and the base64 layer of `ciphertext_b64` are not modelled; a packet is a typed header and ciphertext bytes.
- JSON numbers: fractions, exponents, integers beyond 2^53, negative zero and integer-like key order are not modelled; the vault format holds strings and small integers.
- Base64.StrictIff: libsodium's decoder is modelled by what it accepts, texts without padding, lone symbols or unused bits; libsodium itself is not part of this model.
- Schedule.BuildSchedule: a row omits the floating-point `intensity` and `ridge_signal` of the source's rows.
- Exports.BuildRecoverySheet: lays out the sheet of a V2 vault; the other lines of a V1 sheet are not modelled.
- Delivery.ProcessBatch: envelope bytes are already parsed, and the address, the key and the connection of the relay are not modelled.
- DeliveryProgress.RoundsDeliverIff: speaks of rounds that nothing disturbs; with arrivals and faults in between only the safety results hold.
- The delivery world keeps untrimmed conversations; the store shows their ends while no status update is shadowed (`ChatStore.RunTracksIff`).
- Legacy V1 vaults, Notify and chat envelopes pasted as vaults: the same shape with easier claims. Of V1 only the text prefix and its dispatch are modelled.
- Downloads, clipboard and all other browser interface.
- Key zeroing: modelled only where it could reach a caller's buffer; otherwise not observable.
- Inside libsodium, HMAC, SHA-256, Argon2id, ChaCha20-Poly1305, snow and CBOR: functions with the stated properties.
- Vault.Rewrap: takes a value without repeated keys, which every JavaScript object is.
- WriteThrough.Durability: panics inside a save leave memory as it was, because saving only reads it; `fsync` and storage that loses a completed rename are not modelled.
- The "Check relay inbox" button, which acknowledges envelopes of every kind: the delivery results are for runs without it.
- Safety numbers, identity backup, invites, address selection and the WebSocket bridge.
- Noise: low-order public keys, message numbers near 2^64 and an active attacker during the handshake; the streams of the pairing model are cut only by a side that fails or ends.
- An identity too long for a message: the pairing model sends each identity as one transport message.
- The second prompt of `promptPhraseConfirmed`: bytes after the first ending byte of a chunk are dropped, so chunk independence is stated for one prompt.
