# blind-pairing-core in Dafny

A model of the core of blind-pairing-core: the handshake by which a *candidate*
holding an invite obtains a protected key from a *member* who holds it, without
the member revealing that it holds the key to anyone who cannot prove they
hold the invite.

- `wrappers.dfy` — `Option` (JavaScript `null`/`undefined`) and `Result` (a
  value, or the `Error` a call throws).
- `compact.dfy` — the compact-encoding primitives lib/messages.js is built from
  (`uint`, `uint32`, `fixed32`, `fixed64`, `buffer`), stated once as assumptions
  with their round-trip lemmas. A byte is an integer in `[0, 256)`, the value an
  element of a `Uint8Array` holds. The encoder state is threaded explicitly: a
  `...Preencode` function gives how far `preencode` moves `state.end`, an
  `...Encode` function the bytes `encode` writes, and a `...Decode` function
  reads at a start offset and returns the value and the next offset.
- `messages.dfy` — the nine codecs of lib/messages.js (`Invite`, `RequestPayload`,
  `FastForwardTo`, `ResponsePayload`, `InviteRequest`, `InviteResponse`,
  `InviteData`, `InviteReceipt`, `AuthData`): each encoder writes exactly as many
  bytes as its `preencode` counts, each decoder stays in bounds, and decoding what
  was encoded gives the value back. The exceptions are stated: an empty buffer
  reads back as null, `expires` comes back in whole seconds modulo 2^32, and under
  a non-zero status `key`, `encryptionKey` and `fastForwardTo` are not written
  even when present, and read back as null.
- `sodium.dfy` — the sodium-universal and hypercore-crypto primitives index.js
  calls, as a record of functions (`Primitives`) plus the laws the model relies
  on (`Valid`): output lengths, decryption inverts encryption, and a signature made
  with a seed's secret key verifies under its public key. `Toy` is a record of
  functions that satisfies every law, so the laws are consistent. Collision
  resistance and unforgeability are not laws. Two facts of that kind are
  hypotheses of the lemmas that need them instead: that the five namespaces of
  "keet-pairing" differ (`Separated`, in handshake.dfy), and that decryption
  rejects a foreign key (`Rejects`), for the one pair of keys each lemma is about.
- `handshake.dfy` — the pure functions of index.js: the five namespaces, the
  hash-based derivations, AEAD with the nonce as associated data, signatures with
  a namespace prefix, `createAuth`/`openAuth`, `createReply`/`openReply`,
  `createInvite` (with the random seed as a parameter). The request envelope
  comes twice: `CreateAuthAsWritten`/`OpenAuthAsWritten` sign the bytes index.js
  signs, which leave the token out (see Findings), and `CreateAuth`/`OpenAuth`
  are the corrected pair, whose signature covers the token. Both are instances
  of one opener, `OpenWith`, that takes the signed bytes as a parameter.
- `pairing.dfy` — the three classes of index.js. `ClientRequest` is the
  candidate's request; the events it emits are kept in its `events` field.
  `PairingRequest` is the member's view of one incoming request. `KeetPairing` is
  the registry of joined keys and pending requests; `listening` holds the requests
  whose `once('destroyed')` cleanup listener has not fired yet. Three methods play
  whole exchanges: `BasicPairing` (invite to acceptance) and
  `PairTwiceAsWritten`/`PairTwice` (pairing twice with one invite). The classes
  use the request envelope as written.

The model follows index.js and lib/messages.js as written. Some of their
choices are easy to misread:

- the invite encodes the seed before the discovery key, and the discovery key and
  the expiry are optional;
- the token is 24 bytes (the XChaCha20-Poly1305 nonce length), derived from seed
  and user data; it is not a random or caller-supplied 32-byte session;
- the reply key and nonce are derived from the concatenation of the invite public
  key and the token, with no separate session-key hash;
- `openAuth` returns the token and user data; the receipt is the `InvitePayload`
  encoding of the request payload, computed by `open`;
- the candidate's `_handleResponse` decrypts a reply that is the bare key (no
  `ResponsePayload` decoding and no status codes) and checks its discovery key;
- `open` returns null on failure instead of raising; `confirm` before `open`
  still confirms, with a null payload; `deny` takes no status;
- decoding does not reject trailing bytes; `c.decode` is taken to read one value
  from the start of the buffer and ignore the rest.

Where index.js and lib/messages.js disagree with each other, the model keeps
both as written and records the gap:

- index.js imports `InvitePayload` from lib/messages.js (index.js:10), which does
  not export it (lib/messages.js:211-219). Its encoder (`encodeReceipt`) and
  decoder (`decodePayload`) are parameters of the model.
- `PairingRequest.from` reads `discoveryKey`, `id` and `payload` from a decoded
  request (index.js:102-105), but `InviteRequest.decode` produces `inviteId` and
  `payload` (lib/messages.js:133-136). The model builds a `PairingRequest` from
  the three constructor arguments, which is how `KeetPairing.handleRequest` is
  modelled.
- `createAuth` returns `{ token, data }` (index.js:315-318) and `openAuth` reads
  `payload.token` (index.js:324), but the request codec in lib/messages.js,
  `RequestPayload`, writes and reads `session` and `data` (lib/messages.js:37-47).
  Sent through `InviteRequest`, such a payload would carry its token as a null
  buffer, and the opener would find no `token`. The model hands the
  `AuthPayload` from `ClientRequest` to `PairingRequest` directly and does not
  pass it through that codec.
- test/basic.js exercises `CandidateRequest`, `MemberRequest`, `createInvite` and
  `verifyReceipt` (test/basic.js:5), and index.js exports only `KeetPairing`
  (index.js:240). `BasicPairing` plays the first test through `KeetPairing`.

## Model

| member | source | states |
|---|---|---|
| Compact.LittleEndianRoundTrip | lib/messages.js:72 | the little-endian digits of any n < 256^w read back as n (the multi-byte forms of `uint`) |
| Compact.UintPreencode | lib/messages.js:72 | the size of a `uint`: 1 byte below 0xfd, then 3, 5 or 9 (`UintEncode` proves it is what is written) |
| Compact.UintEncode | lib/messages.js:72 | a `uint` takes as many bytes as its preencode counts (1, 3, 5 or 9) |
| Compact.UintDecode | lib/messages.js:72 | a `uint` read consumes at least one byte and stays in the buffer; its only error is 'Out of bounds' |
| Compact.UintRoundTrip | lib/messages.js:72 | reading a `uint` where one was written gives the value and the offset just past it |
| Compact.Uint32Encode | lib/messages.js:16 | a `uint32` is 4 little-endian bytes whose value is the number modulo 2^32 (`Uint32RoundTrip` reads it back) |
| Compact.Uint32Decode | lib/messages.js:29 | `uint32` reads exactly 4 bytes, fails exactly when fewer remain, and yields a value below 2^32 |
| Compact.Uint32RoundTrip | lib/messages.js:16 | a `uint32` read back gives the written number modulo 2^32 |
| Compact.FixedDecode | lib/messages.js:27 | a fixed-width read returns exactly the bytes at the offset and fails exactly when too few remain |
| Compact.FixedRoundTrip | lib/messages.js:27 | `fixed32`/`fixed64` read back the bytes written |
| Compact.BufferPreencode | lib/messages.js:37-38 | the size of a `buffer`: its length prefix plus its bytes, a single zero byte for null (`BufferEncode` proves it is what is written) |
| Compact.BufferEncode | lib/messages.js:41-42 | a `buffer` is its length varint followed by its bytes, null is a single zero byte, and the length is what `BufferPreencode` counts |
| Compact.BufferDecode | lib/messages.js:46-47 | a `buffer` read consumes its length prefix and stays in bounds; a non-null result is non-empty |
| Compact.NormalizeBuffer | lib/messages.js:37-47 | null and empty buffers are identified, every other buffer is kept |
| Compact.BufferRoundTrip | lib/messages.js:37-47 | a `buffer` reads back as written, except that empty reads back as null |
| Compact.BufferEncodeNormalize | lib/messages.js:41-42 | null and empty buffers encode to the same bytes |
| Messages.InviteFlagLayout | lib/messages.js:13 | invite flags are below 8 and bit 1/2/4 is set exactly when discovery key / expiry / sensitive is present |
| Messages.InvitePreencode | lib/messages.js:4-10 | one byte each for version and flags, the seed, then the discovery key and the expiry only when present (`InviteEncode` proves it is what is written) |
| Messages.InviteEncode | lib/messages.js:4-17 | the invite encoder writes exactly as many bytes as its preencode counts |
| Messages.InviteDecode | lib/messages.js:18-32 | decoding fails with 'Unknown invite version' exactly when a version other than 1 is read, and otherwise stays in bounds |
| Messages.InviteRoundTrip | lib/messages.js:3-33 | an encoded invite decodes to itself with `expires` cut to whole seconds modulo 2^32 (0 stays 0), consuming exactly its bytes |
| Messages.InviteExpiresRoundTrip | lib/messages.js:9-29 | an expiry below 2^32 seconds comes back rounded down to a whole second |
| Messages.RequestPayloadPreencode | lib/messages.js:36-39 | the sizes of the session and data buffers (`RequestPayloadEncode` proves it is what is written) |
| Messages.RequestPayloadEncode | lib/messages.js:36-43 | the encoder writes exactly the preencoded size |
| Messages.RequestPayloadDecode | lib/messages.js:44-49 | decoding consumes at least one byte and stays in bounds |
| Messages.RequestPayloadRoundTrip | lib/messages.js:35-50 | session and data read back as written (empty as null) |
| Messages.FastForwardToPreencode | lib/messages.js:53-57 | the flags byte, the 32-byte key and the length (`FastForwardToEncode` proves it is what is written) |
| Messages.FastForwardToEncode | lib/messages.js:53-62 | the encoder writes exactly the preencoded size |
| Messages.FastForwardToDecode | lib/messages.js:63-69 | decoding consumes at least one byte and stays in bounds |
| Messages.FastForwardToRoundTrip | lib/messages.js:52-70 | key and length read back as written |
| Messages.ResponsePayloadPreencode | lib/messages.js:75-83 | only the status when it is non-zero; otherwise also one flags byte, the key and the optional fields present (`ResponsePayloadEncode` proves it is what is written) |
| Messages.ResponsePayloadEncode | lib/messages.js:75-96 | the encoder writes exactly the preencoded size, and only the status when it is non-zero |
| Messages.ResponsePayloadDecode | lib/messages.js:97-120 | a non-zero status decodes with every other field null; status 0 always decodes a key |
| Messages.ResponseFlagLayout | lib/messages.js:88-91 | the response flags are below 4 and bit 1/2 is set exactly when encryptionKey / fastForwardTo is present |
| Messages.ResponsePayloadRoundTrip | lib/messages.js:74-121 | a response reads back as written, its optional fields dropped under a non-zero status |
| Messages.AcceptedResponseLayout | lib/messages.js:84-96 | a status-0 response is its 34-byte header followed by encryptionKey and then fastForwardTo, each only when present |
| Messages.AcceptedResponseHeader | lib/messages.js:97-110 | the header reads back as status 0, the written flags and the key |
| Messages.AcceptedResponseRoundTrip | lib/messages.js:84-119 | a status-0 response reads back with its key, encryptionKey and fastForwardTo |
| Messages.InviteRequestPreencode | lib/messages.js:124-127 | the 32-byte invite id followed by the request payload (`InviteRequestEncode` proves it is what is written) |
| Messages.InviteRequestEncode | lib/messages.js:124-131 | the encoder writes exactly the preencoded size |
| Messages.InviteRequestDecode | lib/messages.js:132-137 | a successful decode reads past the 32-byte id and stays in the buffer |
| Messages.InviteRequestRoundTrip | lib/messages.js:123-138 | invite id and payload read back as written |
| Messages.InviteResponsePreencode | lib/messages.js:141-144 | the 32-byte id followed by the payload buffer (`InviteResponseEncode` proves it is what is written) |
| Messages.InviteResponseEncode | lib/messages.js:141-148 | the encoder writes exactly the preencoded size |
| Messages.InviteResponseDecode | lib/messages.js:149-154 | a successful decode reads past the 32-byte id and stays in the buffer |
| Messages.InviteResponseRoundTrip | lib/messages.js:140-155 | id and payload read back as written |
| Messages.InviteDataPreencode | lib/messages.js:158-161 | the 64-byte signature followed by the user data buffer (`InviteDataEncode` proves it is what is written) |
| Messages.InviteDataEncode | lib/messages.js:158-165 | the encoder writes exactly the preencoded size |
| Messages.InviteDataDecode | lib/messages.js:166-171 | a successful decode reads past the 64-byte signature and stays in the buffer |
| Messages.InviteDataRoundTrip | lib/messages.js:157-172 | signature and user data read back as written |
| Messages.InviteReceiptPreencode | lib/messages.js:175-179 | the 32-byte session, the 64-byte signature and the user data buffer (`InviteReceiptEncode` proves it is what is written) |
| Messages.InviteReceiptEncode | lib/messages.js:175-184 | the encoder writes exactly the preencoded size |
| Messages.InviteReceiptDecode | lib/messages.js:185-191 | a successful decode reads past session and signature (96 bytes) and stays in the buffer |
| Messages.InviteReceiptRoundTrip | lib/messages.js:174-192 | session, signature and user data read back as written |
| Messages.AuthDataPreencode | lib/messages.js:195-198 | the sizes of the session and user data buffers (`AuthDataEncode` proves it is what is written) |
| Messages.AuthDataEncode | lib/messages.js:195-202 | the encoder writes exactly the preencoded size |
| Messages.AuthDataDecode | lib/messages.js:203-208 | a successful decode consumes at least one byte and stays in the buffer |
| Messages.AuthDataRoundTrip | lib/messages.js:194-209 | session and user data read back as written |
| Handshake.Namespace | index.js:17-23 | each of the five namespaces is 32 bytes |
| Handshake.DomainSeparation | index.js:17-23 | when the five namespaces differ (`Separated`), inputs hashed under two different namespaces are never the same bytes |
| Handshake.ToySeparated | index.js:17-23 | the stand-in primitives meet the laws and separate the five namespaces, so that hypothesis can hold |
| Handshake.Hash | index.js:242-249 | the hash has the requested length |
| Handshake.InviteId | index.js:251-253 | the invite id is a 32-byte hash of the public key under the invite-id namespace |
| Handshake.CreateToken | index.js:255-258 | the token is a nonce-length (24-byte) hash of seed and user data |
| Handshake.DeriveKey | index.js:260-262 | the key is an AEAD key (32 bytes) |
| Handshake.GetNonce | index.js:264-267 | the nonce is 24 bytes |
| Handshake.GetKeyPair | index.js:283-291 | the seed's key pair has a 32-byte public and a 64-byte secret key |
| Handshake.Encrypt | index.js:293-297 | the ciphertext is 16 bytes longer than the data |
| Handshake.Decrypt | index.js:299-303 | data shorter than the tag throws; a plaintext is 16 bytes shorter than its ciphertext |
| Handshake.EncryptRoundTrip | index.js:293-303 | decrypting with the same nonce and key gives the data back |
| Handshake.CreateSignature | index.js:365-375 | a signature over the namespace-prefixed data is 64 bytes |
| Handshake.VerifySignature | index.js:377-384 | verification of the namespace-prefixed data; `SignatureRoundTrip` proves it accepts what `CreateSignature` makes with the matching key pair |
| Handshake.SignatureRoundTrip | index.js:365-384 | a signature made with the seed's secret key verifies under its public key |
| Handshake.SignDataAsWritten | index.js:309 | the bytes index.js signs decode to an AuthData whose session is null: the token is not in them |
| Handshake.SignData | index.js:309 | corrected: the signed bytes decode to an AuthData carrying the token as its session and the user data |
| Handshake.SignDataBindsToken | index.js:309 | as intended, equal signed bytes mean equal (non-empty) tokens and equal user data |
| Handshake.SignDataNormalize | index.js:336-337 | the opener's re-encoding of the decoded user data signs the same bytes as the creator's |
| Handshake.Seal | index.js:312-318 | the envelope keeps the token and is 16 bytes longer than the InviteData |
| Handshake.CreateAuthAsWritten | index.js:305-319 | as written: the auth payload keeps the token and has the size of signature, user data and tag |
| Handshake.CreateAuth | index.js:305-319 | corrected (token signed): the auth payload keeps the token and has the size of signature, user data and tag |
| Handshake.OpenWith | index.js:321-347 | 'Decryption failed.' exactly when the AEAD rejects; a malformed InviteData exactly when the plaintext does not decode; 'Invalid signature' exactly when the decoded signature does not verify over `signed(userData, token)`; success returns the payload's token and the decoded user data, with a signature that verifies |
| Handshake.OpenAuthAsWritten | index.js:321-347 | as written: the outcomes of `OpenWith`, the signature checked over AuthData with a null session |
| Handshake.OpenAuth | index.js:321-347 | corrected (token signed): the outcomes of `OpenWith`, the signature checked over AuthData carrying the token |
| Handshake.OpenAuthChecksToken | index.js:336-341 | corrected: a successful open means the invitation key's signature verifies over bytes whose AuthData session is the payload's token |
| Handshake.OpenAuthAsWrittenIgnoresToken | index.js:336-341 | as written: a successful open means the invitation key's signature verifies over bytes whose AuthData session is null, whatever the token |
| Handshake.OpenSealed | index.js:305-347 | an InviteData signed and sealed under the seed's key pair opens under its public key to the token and user data, whenever the opener rebuilds the signed bytes |
| Handshake.AuthRoundTripAsWritten | index.js:305-347 | as written: opening a created payload with the invite's public key gives the token and user data (empty as null) back |
| Handshake.AuthRoundTrip | index.js:305-347 | corrected (token signed): opening a created payload with the invite's public key gives the token and user data back |
| Handshake.SealForeignKey | index.js:321-334 | an envelope opened under another public key whose AEAD rejects fails with 'Decryption failed.', whatever it holds |
| Handshake.OpenAuthAsWrittenForeignKey | index.js:321-334 | as written: opening with another public key whose AEAD rejects fails with 'Decryption failed.' |
| Handshake.OpenAuthForeignKey | index.js:321-334 | corrected (token signed): opening with another public key whose AEAD rejects fails with 'Decryption failed.' |
| Handshake.AsWrittenTokenSwap | index.js:305-347 | as written, the signed bytes do not depend on the token, and a signature and user data resealed under any other token open successfully with that token |
| Handshake.SessionKey | index.js:350 | the session key is the invitation key followed by the token, nothing else |
| Handshake.CreateReply | index.js:349-355 | the reply is 16 bytes longer than its payload |
| Handshake.OpenReply | index.js:357-363 | an opened reply is 16 bytes shorter than the ciphertext |
| Handshake.ReplyRoundTrip | index.js:349-363 | opening a reply with the same token and public key gives the payload back |
| Handshake.CreateInvite | index.js:269-281 | the invite's public key is 32 bytes |
| Handshake.CreateInviteDecodes | index.js:269-281 | the invite decodes to the seed and the key's discovery key, and the id is the seed key pair's invite id |
| Pairing.OpenResponse | index.js:52-63 | no token or no payload, or a reply that does not decrypt, is 'Could not decrypt reply.'; a missing invite discovery key throws; otherwise the decrypted key is accepted exactly when its discovery key is the invite's |
| Pairing.OpenResponseAcceptsReply | index.js:52-63 | a reply sealed for the request's token carrying the invited key is accepted with that key |
| Pairing.OpenResponseRejectsOtherKey | index.js:59-62 | a reply carrying a key with another discovery key is rejected as a mismatch |
| Pairing.ClientRequest.constructor | index.js:26-40 | the request holds the seed's key pair, its invite id, the derived token and the auth payload `createAuth` makes as written; no key, no events |
| Pairing.ClientRequest.HandleResponse | index.js:42-68 | (`Handled`) accepted exactly when the reply opens to a key with the invite's discovery key: then 'accepted' and 'destroyed' are emitted and the secrets cleared; otherwise 'rejected' with the reason, the key kept, cleared or set to the decrypted bytes as the source does; a destroyed request never accepts again |
| Pairing.ClientRequest.Destroy | index.js:70-75 | token and payload are cleared, 'destroyed' is emitted, nothing else changes |
| Pairing.PairingRequest.constructor | index.js:79-95 | a new request holds its discovery key, id and payload and nothing else |
| Pairing.PairingRequest.Open | index.js:131-147 | with `openAuth` as written: a failed open returns null and changes nothing; a successful one stores user data, token and receipt, and seals the reply with the joined key, or throws when there is none |
| Pairing.PairingRequest.Confirm | index.js:109-114 | the first decision wins; the response carries the request's discovery key, id and reply |
| Pairing.PairingRequest.Deny | index.js:116-121 | the first decision wins; the response carries no payload |
| Pairing.PairingRequest.Respond | index.js:123-129 | the response carries the reply only on confirmation |
| Pairing.DecodeInvite | index.js:220-226 | any decoding error becomes 'Invalid invitation' |
| Pairing.DecodeCreatedInvite | index.js:216-226 | a created invite decodes to its seed and the key's discovery key |
| Pairing.OpenRequest | index.js:228-237 | a decoding error propagates; when `openAuth` as written succeeds its user data is returned, and when it fails the result is null |
| Pairing.OpenRequestRoundTrip | index.js:228-237 | the invite's public key recovers the user data of a request `createAuth` made as written |
| Pairing.OpenRequestForeignKey | index.js:228-237 | a public key whose AEAD rejects yields null |
| Pairing.KeetPairing.constructor | index.js:154-157 | a new registry has no joined keys and no requests |
| Pairing.KeetPairing.Join | index.js:177-182 | the key is filed under its discovery key, or 'Key is already joined' and nothing changes |
| Pairing.KeetPairing.Leave | index.js:184-189 | the discovery key is removed, or 'Key is not joined' and nothing changes |
| Pairing.KeetPairing.HandleRequest | index.js:159-168 | a request for a joined discovery key becomes a fresh, undecided, unopened member request holding that key; any other is dropped |
| Pairing.KeetPairing.HandleResponse | index.js:170-175 | a response for an unknown id is ignored; otherwise the request filed there handles it exactly as `ClientRequest.HandleResponse` states (events, key, token, payload) and, when it accepts, its entry is removed |
| Pairing.KeetPairing.PairAsWritten | index.js:191-210 | as written, every pair makes a fresh request and files it under its id, replacing any request there |
| Pairing.KeetPairing.Pair | index.js:191-210 | as intended, a request already filed under the invite's id is returned unchanged; otherwise a fresh one is filed |
| Pairing.KeetPairing.DestroyRequest | index.js:204-206 | destroying a request clears its token and payload, keeps its key and records 'destroyed'; when its listener is pending, whatever is filed under its id is removed |
| Pairing.KeetPairing.Requests | index.js:212-214 | exactly the requests filed in the map, all of them live (not destroyed) |
| Pairing.MemberAnswers | index.js:109-168 | a joined member opening a request that `openAuth` as written accepts, and confirming, sees its user data and responds with the key's discovery key, the request's id and the reply sealed for its token |
| Pairing.BasicPairing | test/basic.js:7-33 | from invite to acceptance: the candidate's and the member's request both carry the invite's id, the member sees the user data, and the candidate accepts exactly the member's key, then is destroyed |
| Pairing.PairTwiceAsWritten | index.js:191-210 | as written, pairing twice with one invite orphans the first request, and destroying it unregisters the second |
| Pairing.PairTwice | index.js:191-210 | as intended, pairing twice with one invite returns the one pending request |

## Left out

- Cryptography is abstract: BLAKE2b, Ed25519 and XChaCha20-Poly1305 are the
  functions of `Primitives`, with only the functional laws above. Collision
  resistance, unforgeability and AEAD security are not modelled; the
  foreign-key lemmas take the AEAD's rejection as a hypothesis.
- Handshake.DomainSeparation: holds only under the hypothesis `Separated`, that
  the five namespaces hypercore-crypto derives from "keet-pairing" differ. That
  rests on BLAKE2b not colliding on five inputs, which the model assumes rather
  than proves; `ToySeparated` shows the hypothesis can hold.
- `crypto.randomBytes(32)` in `createInvite` is the `seed` parameter.
- `EventEmitter` is replaced by the `events` field of `ClientRequest`. Listeners
  run synchronously, and the registry's `once('destroyed')` listener is the
  `listening` set. `KeetPairing.DestroyRequest` is `destroy()` called on a request
  from `pair`. Destroying a request outside the registry is not modelled.
- `tiny-buffer-map` is a Dafny `map` keyed by byte sequences.
- `requests()` is a generator; `Requests` returns the set of values it yields.
  Their order is not modelled.
- `PairingRequest.from` with raw bytes, and the `InvitePayload` codec, are not
  modelled: lib/messages.js does not define `InvitePayload`, and the decoded
  request lacks the fields `from` reads. The encoder and decoder are parameters.
- `ClientRequest.constructor`: `createToken` concatenates the raw `userData`
  argument, which throws for a null one, so the model requires a buffer.
- `Pairing.KeetPairing.PairAsWritten` and `Pairing.PairTwiceAsWritten`: they
  assume `BufferMap.get(undefined)` returns undefined rather than throwing.
- JavaScript number semantics are not modelled: `uint` values are taken below
  2^64, and precision loss above 2^53 is ignored.
- Decoders do not reject trailing bytes.
- Messages.ResponsePayloadEncode: requires a key under status 0; there the
  source's `fixed32` encoder is handed null and throws a TypeError, which is not
  modelled.
- `PairingRequest.open` does not catch a throwing `InvitePayload` encoder; the
  encoder is a total function in the model.
- Status codes, `data`, persistence (`persist`/`from`), `verifyReceipt` and the
  request's `encode()` belong to the test suite's API, not to index.js, and are not
  modelled.

## Findings

| source | as written | input that shows it | evidently intended | confidence | as-written member | corrected member |
|---|---|---|---|---|---|---|
| index.js:309 | `createAuth` and `openAuth` (index.js:337) pass `{ userData, token }` to the AuthData codec, which writes a `session` field (lib/messages.js:200); the token is written as a null buffer, so the signature never covers it. The classes use this envelope (`CreateAuthAsWritten`, `OpenAuthAsWritten`) | any user data u and tokens t ≠ t': a signature over u made for t verifies for t'; anyone holding the invite's public key can reseal an intercepted request under a token of their choice | sign AuthData with the token in its `session` field (`SignData`, `CreateAuth`, `OpenAuth`, with `AuthRoundTrip`), so that a signature binds the token | high, not executed | Handshake.AsWrittenTokenSwap | Handshake.SignDataBindsToken |
| index.js:194 | `pair` looks up an existing request under `invite.id`, a field a decoded invite never has (lib/messages.js:26-31), so the lookup always misses | pair twice with one invite: two requests share an id, the first stays registered for cleanup, and destroying it unregisters the second | look up the id the request gets (index.js:34), so that a second `pair` returns the pending request | medium (assumes the map lookup of undefined returns undefined), not executed | Pairing.PairTwiceAsWritten | Pairing.PairTwice |
