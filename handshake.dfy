/**
 * The pure part of index.js: the domain-separated derivations, the sealed
 * envelopes in both directions, the signatures and `createInvite`.
 */
module Handshake {
  import opened Wrappers
  import opened Compact
  import opened Sodium
  import Messages

  // ---------------------------------------------------------------------------
  // Namespaces: crypto.namespace('keet-pairing', 5), destructured in this order

  const NAME: string := "keet-pairing"
  const NS_SIGNATURE: nat := 0
  const NS_INVITE_ID: nat := 1
  const NS_TOKEN: nat := 2
  const NS_ENCRYPT: nat := 3
  const NS_NONCE: nat := 4

  /**
   * The five namespaces of "keet-pairing" differ. hypercore-crypto derives each by
   * hashing the name's hash together with the index, so distinct namespaces rest on
   * BLAKE2b not colliding on those five inputs; the model takes that as a hypothesis
   * of the one lemma that needs it rather than as a law of `Primitives`.
   */
  ghost predicate Separated(p: Primitives) {
    forall i: nat, j: nat :: i < j < 5 ==> p.namespace(NAME, i) != p.namespace(NAME, j)
  }

  /** The stand-in primitives separate the five namespaces, so `Separated` is satisfiable. */
  lemma ToySeparated()
    ensures Valid(Toy()) && Separated(Toy())
  {
    ToyIsValid();
    var p := Toy();
    forall i: nat, j: nat | i < j < 5
      ensures p.namespace(NAME, i) != p.namespace(NAME, j)
    {
      assert p.namespace(NAME, i)[0] == i;
    }
  }

  function Namespace(p: Primitives, index: nat): (ns: Bytes)
    requires Valid(p)
    requires index < 5
    ensures |ns| == 32
  {
    p.namespace(NAME, index)
  }

  /** Two derivations under different namespaces never hash the same bytes. */
  lemma DomainSeparation(p: Primitives, i: nat, j: nat, a: Bytes, b: Bytes)
    requires Valid(p) && Separated(p)
    requires i < 5 && j < 5 && i != j
    ensures Namespace(p, i) + a != Namespace(p, j) + b
  {
    assert (Namespace(p, i) + a)[..32] == Namespace(p, i);
    assert (Namespace(p, j) + b)[..32] == Namespace(p, j);
  }

  // ---------------------------------------------------------------------------
  // Derivations

  /** `hash(ns, buf, len)`: BLAKE2b over the namespace followed by the data, `len` bytes out (32 by default). */
  function Hash(p: Primitives, ns: Bytes, buf: Bytes, len: nat): (r: Bytes)
    requires Valid(p)
    ensures |r| == len
  {
    p.generichash(len, ns + buf)
  }

  /** The invite id: a 32-byte hash of the invitation's public key under its own namespace. */
  function InviteId(p: Primitives, publicKey: Bytes): (id: Bytes)
    requires Valid(p)
    ensures |id| == 32
  {
    Hash(p, Namespace(p, NS_INVITE_ID), publicKey, 32)
  }

  function CreateToken(p: Primitives, seed: Bytes, userData: Bytes): (token: Bytes)
    requires Valid(p)
    ensures |token| == NPUBBYTES
  {
    Hash(p, Namespace(p, NS_TOKEN), seed + userData, NPUBBYTES)
  }

  function DeriveKey(p: Primitives, publicKey: Bytes): (key: Bytes)
    requires Valid(p)
    ensures |key| == KEYBYTES
  {
    Hash(p, Namespace(p, NS_ENCRYPT), publicKey, KEYBYTES)
  }

  function GetNonce(p: Primitives, publicKey: Bytes, token: Bytes): (nonce: Bytes)
    requires Valid(p)
    ensures |nonce| == NPUBBYTES
  {
    Hash(p, Namespace(p, NS_NONCE), publicKey + token, NPUBBYTES)
  }

  /** `getKeyPair`: the seed's Ed25519 key pair (index.js derives it twice; once is the same). */
  function GetKeyPair(p: Primitives, seed: Bytes): (kp: KeyPair)
    requires Valid(p)
    ensures |kp.publicKey| == PUBLICKEYBYTES && |kp.secretKey| == SECRETKEYBYTES
  {
    p.seedKeypair(seed)
  }

  // ---------------------------------------------------------------------------
  // AEAD with the nonce as associated data

  function Encrypt(p: Primitives, data: Bytes, nonce: Bytes, secretKey: Bytes): (r: Bytes)
    requires Valid(p)
    ensures |r| == |data| + ABYTES
  {
    p.aeadEncrypt(data, nonce, nonce, secretKey)
  }

  /** `None` when decryption throws: the ciphertext is shorter than the tag, or does not authenticate. */
  function Decrypt(p: Primitives, data: Bytes, nonce: Bytes, secretKey: Bytes): (r: Option<Bytes>)
    requires Valid(p)
    ensures r.Some? ==> |r.value| + ABYTES == |data|
    ensures |data| < ABYTES ==> r.None?
  {
    if |data| < ABYTES then None else p.aeadDecrypt(data, nonce, nonce, secretKey)
  }

  lemma EncryptRoundTrip(p: Primitives, data: Bytes, nonce: Bytes, secretKey: Bytes)
    requires Valid(p)
    ensures Decrypt(p, Encrypt(p, data, nonce, secretKey), nonce, secretKey) == Some(data)
  {
  }

  // ---------------------------------------------------------------------------
  // Signatures over a 32-byte namespace prefix followed by the data

  function CreateSignature(p: Primitives, data: Bytes, secretKey: Bytes): (signature: Bytes)
    requires Valid(p)
    ensures |signature| == SIGNBYTES
  {
    p.signDetached(Namespace(p, NS_SIGNATURE) + data, secretKey)
  }

  function VerifySignature(p: Primitives, data: Bytes, signature: Bytes, publicKey: Bytes): bool
    requires Valid(p)
  {
    p.verifyDetached(signature, Namespace(p, NS_SIGNATURE) + data, publicKey)
  }

  lemma SignatureRoundTrip(p: Primitives, seed: Bytes, data: Bytes)
    requires Valid(p)
    ensures VerifySignature(p, data, CreateSignature(p, data, GetKeyPair(p, seed).secretKey),
                            GetKeyPair(p, seed).publicKey)
  {
  }

  // ---------------------------------------------------------------------------
  // The signed bytes

  /**
   * The bytes index.js actually signs and checks: it passes `{ userData, token }`
   * to the AuthData codec, which reads a `session` field; that field is undefined,
   * so the token is written as a null buffer and the signature never covers it.
   */
  function SignDataAsWritten(userData: Buffer, token: Blob): (r: Bytes)
    ensures Messages.AuthDataDecode(r, 0) == Success((Messages.AuthData(None, NormalizeBuffer(userData)), |r|))
  {
    var a := Messages.AuthData(None, userData);
    Messages.AuthDataRoundTrip(a, Messages.AuthDataEncode(a), 0);
    Messages.AuthDataEncode(a)
  }

  /** The signed bytes as intended: AuthData with the token in its `session` field. */
  function SignData(userData: Buffer, token: Blob): (r: Bytes)
    ensures Messages.AuthDataDecode(r, 0)
         == Success((Messages.AuthData(NormalizeBuffer(Some(token)), NormalizeBuffer(userData)), |r|))
  {
    var a := Messages.AuthData(Some(token), userData);
    Messages.AuthDataRoundTrip(a, Messages.AuthDataEncode(a), 0);
    Messages.AuthDataEncode(a)
  }

  /** The intended signed bytes determine the token (and the user data up to empty-is-null). */
  lemma SignDataBindsToken(userData: Buffer, token: Blob, userData': Buffer, token': Blob)
    requires token != [] && token' != []
    requires SignData(userData, token) == SignData(userData', token')
    ensures token == token'
    ensures NormalizeBuffer(userData) == NormalizeBuffer(userData')
  {
    var bytes := SignData(userData, token);
    Messages.AuthDataRoundTrip(Messages.AuthData(Some(token), userData), bytes, 0);
    Messages.AuthDataRoundTrip(Messages.AuthData(Some(token'), userData'), bytes, 0);
  }

  /** A null user data and an empty one sign alike. */
  lemma SignDataNormalize(userData: Buffer, token: Blob)
    ensures SignData(NormalizeBuffer(userData), token) == SignData(userData, token)
  {
    BufferEncodeNormalize(userData);
  }

  // ---------------------------------------------------------------------------
  // The request envelope: createAuth / openAuth

  /** `{ token, data }`: what the candidate sends, `data` being the sealed InviteData. */
  datatype AuthPayload = AuthPayload(token: Blob, data: Bytes)

  /** What `openAuth` returns. */
  datatype Opened = Opened(token: Blob, userData: Buffer)

  datatype AuthError =
    | DecryptionFailed           // 'Decryption failed.'
    | Malformed(CodecError)      // the decrypted bytes are not an InviteData
    | InvalidSignature           // 'Invalid signature'

  /** The InviteData `{ signature, userData }` sealed for `token` under the key derived from `publicKey`. */
  function Seal(p: Primitives, userData: Blob, signature: Bytes64, publicKey: Bytes, token: Blob): (r: AuthPayload)
    requires Valid(p)
    ensures r.token == token
    ensures |r.data| == Messages.InviteDataPreencode(Messages.InviteData(signature, Some(userData))) + ABYTES
  {
    var inviteData := Messages.InviteDataEncode(Messages.InviteData(signature, Some(userData)));
    AuthPayload(token, Encrypt(p, inviteData, GetNonce(p, publicKey, token), DeriveKey(p, publicKey)))
  }

  /** `createAuth` as index.js writes it: the signature covers the user data but not the token. */
  function CreateAuthAsWritten(p: Primitives, userData: Blob, token: Blob, invitationKeyPair: KeyPair): (r: AuthPayload)
    requires Valid(p)
    ensures r.token == token
    ensures |r.data| == SIGNBYTES + BufferPreencode(Some(userData)) + ABYTES
  {
    var signature := CreateSignature(p, SignDataAsWritten(Some(userData), token), invitationKeyPair.secretKey);
    Seal(p, userData, signature, invitationKeyPair.publicKey, token)
  }

  /** `createAuth` with the token signed: the corrected envelope. */
  function CreateAuth(p: Primitives, userData: Blob, token: Blob, invitationKeyPair: KeyPair): (r: AuthPayload)
    requires Valid(p)
    ensures r.token == token
    ensures |r.data| == SIGNBYTES + BufferPreencode(Some(userData)) + ABYTES
  {
    var signature := CreateSignature(p, SignData(Some(userData), token), invitationKeyPair.secretKey);
    Seal(p, userData, signature, invitationKeyPair.publicKey, token)
  }

  /**
   * Opens `payload` under the key and nonce derived from `invitationKey`, decodes the
   * InviteData and checks its signature over `signed(userData, token)`: it succeeds
   * exactly when all three steps do, with the decoded user data, and fails with the
   * error of the first step that does not.
   */
  function OpenWith(p: Primitives, payload: AuthPayload, invitationKey: Bytes,
                    signed: (Buffer, Blob) -> Bytes): (r: Result<Opened, AuthError>)
    requires Valid(p)
    ensures r.Success? ==> r.value.token == payload.token
    ensures r == Failure(DecryptionFailed) <==>
              Decrypt(p, payload.data, GetNonce(p, invitationKey, payload.token), DeriveKey(p, invitationKey)).None?
    ensures var plain := Decrypt(p, payload.data, GetNonce(p, invitationKey, payload.token), DeriveKey(p, invitationKey));
            (r.Failure? && r.error.Malformed?) <==>
              plain.Some? && Messages.InviteDataDecode(plain.value, 0).Failure?
    ensures var plain := Decrypt(p, payload.data, GetNonce(p, invitationKey, payload.token), DeriveKey(p, invitationKey));
            r.Success? ==>
              && plain.Some? && Messages.InviteDataDecode(plain.value, 0).Success?
              && var d := Messages.InviteDataDecode(plain.value, 0).value.0;
                 && r.value.userData == d.userData
                 && VerifySignature(p, signed(d.userData, payload.token), d.signature, invitationKey)
    ensures var plain := Decrypt(p, payload.data, GetNonce(p, invitationKey, payload.token), DeriveKey(p, invitationKey));
            r == Failure(InvalidSignature) <==>
              && plain.Some? && Messages.InviteDataDecode(plain.value, 0).Success?
              && var d := Messages.InviteDataDecode(plain.value, 0).value.0;
                 !VerifySignature(p, signed(d.userData, payload.token), d.signature, invitationKey)
  {
    var plaintext := Decrypt(p, payload.data, GetNonce(p, invitationKey, payload.token), DeriveKey(p, invitationKey));
    if plaintext.None? then Failure(DecryptionFailed)
    else
      var decoded := Messages.InviteDataDecode(plaintext.value, 0);
      if decoded.Failure? then Failure(Malformed(decoded.error))
      else
        var inviteData := decoded.value.0;
        if !VerifySignature(p, signed(inviteData.userData, payload.token), inviteData.signature, invitationKey)
        then Failure(InvalidSignature)
        else Success(Opened(payload.token, inviteData.userData))
  }

  /** `openAuth` as index.js writes it: the signature is checked over bytes without the token. */
  function OpenAuthAsWritten(p: Primitives, payload: AuthPayload, invitationKey: Bytes): (r: Result<Opened, AuthError>)
    requires Valid(p)
    ensures r.Success? ==> r.value.token == payload.token
    ensures r == Failure(DecryptionFailed) <==>
              Decrypt(p, payload.data, GetNonce(p, invitationKey, payload.token), DeriveKey(p, invitationKey)).None?
    ensures var plain := Decrypt(p, payload.data, GetNonce(p, invitationKey, payload.token), DeriveKey(p, invitationKey));
            r.Success? ==>
              && plain.Some? && Messages.InviteDataDecode(plain.value, 0).Success?
              && var d := Messages.InviteDataDecode(plain.value, 0).value.0;
                 && r.value.userData == d.userData
                 && VerifySignature(p, SignDataAsWritten(d.userData, payload.token), d.signature, invitationKey)
    ensures var plain := Decrypt(p, payload.data, GetNonce(p, invitationKey, payload.token), DeriveKey(p, invitationKey));
            r == Failure(InvalidSignature) <==>
              && plain.Some? && Messages.InviteDataDecode(plain.value, 0).Success?
              && var d := Messages.InviteDataDecode(plain.value, 0).value.0;
                 !VerifySignature(p, SignDataAsWritten(d.userData, payload.token), d.signature, invitationKey)
  {
    OpenWith(p, payload, invitationKey, SignDataAsWritten)
  }

  /** `openAuth` with the token signed: the corrected envelope. */
  function OpenAuth(p: Primitives, payload: AuthPayload, invitationKey: Bytes): (r: Result<Opened, AuthError>)
    requires Valid(p)
    ensures r.Success? ==> r.value.token == payload.token
    ensures r == Failure(DecryptionFailed) <==>
              Decrypt(p, payload.data, GetNonce(p, invitationKey, payload.token), DeriveKey(p, invitationKey)).None?
    ensures var plain := Decrypt(p, payload.data, GetNonce(p, invitationKey, payload.token), DeriveKey(p, invitationKey));
            r.Success? ==>
              && plain.Some? && Messages.InviteDataDecode(plain.value, 0).Success?
              && var d := Messages.InviteDataDecode(plain.value, 0).value.0;
                 && r.value.userData == d.userData
                 && VerifySignature(p, SignData(d.userData, payload.token), d.signature, invitationKey)
    ensures var plain := Decrypt(p, payload.data, GetNonce(p, invitationKey, payload.token), DeriveKey(p, invitationKey));
            r == Failure(InvalidSignature) <==>
              && plain.Some? && Messages.InviteDataDecode(plain.value, 0).Success?
              && var d := Messages.InviteDataDecode(plain.value, 0).value.0;
                 !VerifySignature(p, SignData(d.userData, payload.token), d.signature, invitationKey)
  {
    OpenWith(p, payload, invitationKey, SignData)
  }

  /**
   * What the corrected open accepts: a signature by the invitation key over bytes
   * whose AuthData session is the payload's own token, so a signature made for one
   * token does not pass for another unless it verifies over different bytes.
   */
  lemma OpenAuthChecksToken(p: Primitives, payload: AuthPayload, invitationKey: Bytes)
    requires Valid(p)
    requires payload.token != []
    requires OpenAuth(p, payload, invitationKey).Success?
    ensures var plain := Decrypt(p, payload.data, GetNonce(p, invitationKey, payload.token), DeriveKey(p, invitationKey));
            var d := Messages.InviteDataDecode(plain.value, 0).value.0;
            var bytes := SignData(d.userData, payload.token);
            && VerifySignature(p, bytes, d.signature, invitationKey)
            && Messages.AuthDataDecode(bytes, 0).Success?
            && Messages.AuthDataDecode(bytes, 0).value.0.session == Some(payload.token)
  {
  }

  /**
   * What the as-written open accepts: a signature by the invitation key over bytes
   * whose AuthData session is null, whatever the payload's token.
   */
  lemma OpenAuthAsWrittenIgnoresToken(p: Primitives, payload: AuthPayload, invitationKey: Bytes)
    requires Valid(p)
    requires OpenAuthAsWritten(p, payload, invitationKey).Success?
    ensures var plain := Decrypt(p, payload.data, GetNonce(p, invitationKey, payload.token), DeriveKey(p, invitationKey));
            var d := Messages.InviteDataDecode(plain.value, 0).value.0;
            var bytes := SignDataAsWritten(d.userData, payload.token);
            && VerifySignature(p, bytes, d.signature, invitationKey)
            && Messages.AuthDataDecode(bytes, 0).Success?
            && Messages.AuthDataDecode(bytes, 0).value.0.session.None?
  {
  }

  /**
   * An InviteData signed over `signedBytes` and sealed for `token` opens, under the
   * signer's public key, to `token` and the user data, whenever `signed` rebuilds
   * `signedBytes` from what the opener decodes.
   */
  lemma OpenSealed(p: Primitives, seed: Bytes, userData: Blob, token: Blob, signedBytes: Bytes,
                   signed: (Buffer, Blob) -> Bytes)
    requires Valid(p)
    requires signed(NormalizeBuffer(Some(userData)), token) == signedBytes
    ensures var kp := GetKeyPair(p, seed);
            var signature := CreateSignature(p, signedBytes, kp.secretKey);
            OpenWith(p, Seal(p, userData, signature, kp.publicKey, token), kp.publicKey, signed)
            == Success(Opened(token, NormalizeBuffer(Some(userData))))
  {
    var kp := GetKeyPair(p, seed);
    var signature := CreateSignature(p, signedBytes, kp.secretKey);
    var inviteData := Messages.InviteData(signature, Some(userData));
    var plaintext := Messages.InviteDataEncode(inviteData);
    EncryptRoundTrip(p, plaintext, GetNonce(p, kp.publicKey, token), DeriveKey(p, kp.publicKey));
    Messages.InviteDataRoundTrip(inviteData, plaintext, 0);
    SignatureRoundTrip(p, seed, signedBytes);
  }

  /**
   * As written, `openAuth(createAuth(u, t, kp), kp.publicKey)` gives back `t` and `u`
   * (null when `u` is empty).
   */
  lemma AuthRoundTripAsWritten(p: Primitives, seed: Bytes, userData: Blob, token: Blob)
    requires Valid(p)
    ensures OpenAuthAsWritten(p, CreateAuthAsWritten(p, userData, token, GetKeyPair(p, seed)), GetKeyPair(p, seed).publicKey)
         == Success(Opened(token, NormalizeBuffer(Some(userData))))
  {
    AsWrittenTokenSwap(p, seed, userData, token, token);
  }

  /** The same round trip for the corrected pair, whose signature covers the token. */
  lemma AuthRoundTrip(p: Primitives, seed: Bytes, userData: Blob, token: Blob)
    requires Valid(p)
    ensures OpenAuth(p, CreateAuth(p, userData, token, GetKeyPair(p, seed)), GetKeyPair(p, seed).publicKey)
         == Success(Opened(token, NormalizeBuffer(Some(userData))))
  {
    SignDataNormalize(Some(userData), token);
    OpenSealed(p, seed, userData, token, SignData(Some(userData), token), SignData);
  }

  /**
   * Opening under a public key other than the signer's fails with 'Decryption failed.'
   * whenever the AEAD rejects what was sealed under the signer's key and nonce when
   * tried under the other key's, whatever the signature inside.
   */
  lemma SealForeignKey(p: Primitives, publicKey: Bytes, userData: Blob, signature: Bytes64, token: Blob,
                       other: Bytes, signed: (Buffer, Blob) -> Bytes)
    requires Valid(p)
    requires Rejects(p, GetNonce(p, publicKey, token), DeriveKey(p, publicKey), GetNonce(p, other, token), DeriveKey(p, other))
    ensures OpenWith(p, Seal(p, userData, signature, publicKey, token), other, signed) == Failure(DecryptionFailed)
  {
    var plaintext := Messages.InviteDataEncode(Messages.InviteData(signature, Some(userData)));
    assert p.aeadDecrypt(Encrypt(p, plaintext, GetNonce(p, publicKey, token), DeriveKey(p, publicKey)),
                         GetNonce(p, other, token), GetNonce(p, other, token), DeriveKey(p, other)) == None;
  }

  /** As written, a request opened under another public key whose AEAD rejects fails with 'Decryption failed.' */
  lemma OpenAuthAsWrittenForeignKey(p: Primitives, seed: Bytes, userData: Blob, token: Blob, other: Bytes)
    requires Valid(p)
    requires Rejects(p, GetNonce(p, GetKeyPair(p, seed).publicKey, token), DeriveKey(p, GetKeyPair(p, seed).publicKey),
                     GetNonce(p, other, token), DeriveKey(p, other))
    ensures OpenAuthAsWritten(p, CreateAuthAsWritten(p, userData, token, GetKeyPair(p, seed)), other) == Failure(DecryptionFailed)
  {
    var kp := GetKeyPair(p, seed);
    var signature := CreateSignature(p, SignDataAsWritten(Some(userData), token), kp.secretKey);
    SealForeignKey(p, kp.publicKey, userData, signature, token, other, SignDataAsWritten);
  }

  /** The same for the corrected pair. */
  lemma OpenAuthForeignKey(p: Primitives, seed: Bytes, userData: Blob, token: Blob, other: Bytes)
    requires Valid(p)
    requires Rejects(p, GetNonce(p, GetKeyPair(p, seed).publicKey, token), DeriveKey(p, GetKeyPair(p, seed).publicKey),
                     GetNonce(p, other, token), DeriveKey(p, other))
    ensures OpenAuth(p, CreateAuth(p, userData, token, GetKeyPair(p, seed)), other) == Failure(DecryptionFailed)
  {
    var kp := GetKeyPair(p, seed);
    var signature := CreateSignature(p, SignData(Some(userData), token), kp.secretKey);
    SealForeignKey(p, kp.publicKey, userData, signature, token, other, SignData);
  }

  /**
   * As written, anyone who can open a request (anyone holding the invite's public key)
   * can reseal its signature and user data under a token of their choosing, and the
   * as-written `openAuth` accepts the result with that token: the signed bytes do not
   * depend on the token at all.
   */
  lemma AsWrittenTokenSwap(p: Primitives, seed: Bytes, userData: Blob, token: Blob, token': Blob)
    requires Valid(p)
    ensures SignDataAsWritten(Some(userData), token) == SignDataAsWritten(Some(userData), token')
    ensures var kp := GetKeyPair(p, seed);
            var signature := CreateSignature(p, SignDataAsWritten(Some(userData), token), kp.secretKey);
            OpenAuthAsWritten(p, Seal(p, userData, signature, kp.publicKey, token'), kp.publicKey)
            == Success(Opened(token', NormalizeBuffer(Some(userData))))
  {
    BufferEncodeNormalize(Some(userData));
    assert SignDataAsWritten(NormalizeBuffer(Some(userData)), token') == SignDataAsWritten(Some(userData), token);
    OpenSealed(p, seed, userData, token', SignDataAsWritten(Some(userData), token), SignDataAsWritten);
  }

  // ---------------------------------------------------------------------------
  // The response envelope: createReply / openReply, under the session key `publicKey || token`

  function SessionKey(invitationKey: Bytes, token: Bytes): (r: Bytes)
    ensures |r| == |invitationKey| + |token|
    ensures r[..|invitationKey|] == invitationKey && r[|invitationKey|..] == token
  {
    invitationKey + token
  }

  function CreateReply(p: Primitives, payload: Bytes, token: Bytes, invitationKey: Bytes): (r: Bytes)
    requires Valid(p)
    ensures |r| == |payload| + ABYTES
  {
    var sessionKey := SessionKey(invitationKey, token);
    Encrypt(p, payload, GetNonce(p, sessionKey, token), DeriveKey(p, sessionKey))
  }

  /** `None` when `openReply` throws. */
  function OpenReply(p: Primitives, data: Bytes, token: Bytes, invitationKey: Bytes): (r: Option<Bytes>)
    requires Valid(p)
    ensures r.Some? ==> |r.value| + ABYTES == |data|
  {
    var sessionKey := SessionKey(invitationKey, token);
    Decrypt(p, data, GetNonce(p, sessionKey, token), DeriveKey(p, sessionKey))
  }

  lemma ReplyRoundTrip(p: Primitives, payload: Bytes, token: Bytes, invitationKey: Bytes)
    requires Valid(p)
    ensures OpenReply(p, CreateReply(p, payload, token, invitationKey), token, invitationKey) == Some(payload)
  {
    var sessionKey := SessionKey(invitationKey, token);
    EncryptRoundTrip(p, payload, GetNonce(p, sessionKey, token), DeriveKey(p, sessionKey));
  }

  // ---------------------------------------------------------------------------
  // createInvite, with the random seed as a parameter

  datatype CreatedInvite = CreatedInvite(id: Bytes32, invite: Bytes, publicKey: Bytes)

  function CreateInvite(p: Primitives, key: Bytes, seed: Bytes32): (r: CreatedInvite)
    requires Valid(p)
    ensures |r.publicKey| == PUBLICKEYBYTES
  {
    var discoveryKey: Bytes32 := p.discoveryKey(key);
    var keyPair := GetKeyPair(p, seed);
    CreatedInvite(
      InviteId(p, keyPair.publicKey),
      Messages.InviteEncode(Messages.Invite(seed, Some(discoveryKey), 0, false)),
      keyPair.publicKey)
  }

  /** The invite carries the seed and the key's discovery key; its id is the seed key pair's invite id. */
  lemma CreateInviteDecodes(p: Primitives, key: Bytes, seed: Bytes32)
    requires Valid(p)
    ensures var r := CreateInvite(p, key, seed);
            && Messages.InviteDecode(r.invite, 0).Success?
            && Messages.InviteDecode(r.invite, 0).value.0 == Messages.Invite(seed, Some(p.discoveryKey(key)), 0, false)
            && r.id == InviteId(p, GetKeyPair(p, seed).publicKey)
            && r.publicKey == GetKeyPair(p, seed).publicKey
  {
    var invite := Messages.Invite(seed, Some(p.discoveryKey(key)), 0, false);
    Messages.InviteRoundTrip(invite, Messages.InviteEncode(invite), 0);
  }
}
