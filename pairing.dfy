/**
 * The stateful part of index.js: the candidate's `ClientRequest`, the member's
 * `PairingRequest` and the `KeetPairing` registry that routes requests and
 * responses between them.  Emitted events are recorded in an `events` field;
 * the registry's `once('destroyed')` listeners are the set `listening`.
 */
module Pairing {
  import opened Wrappers
  import opened Compact
  import opened Sodium
  import opened Handshake
  import Messages

  datatype RejectReason =
    | CouldNotDecryptReply   // 'Could not decrypt reply.'
    | DiscoveryKeyMismatch   // 'Invite response does not match discoveryKey'
    | DiscoveryKeyMissing    // the invite had no discovery key, so the comparison throws

  datatype Event = Accepted(key: Bytes) | Rejected(reason: RejectReason) | Destroyed

  /**
   * What the candidate makes of a response payload: the reply is opened under the
   * session key `publicKey || token`, and the key it carries is accepted only when its
   * discovery key is the invite's.  A missing token (after destroy) or a missing
   * payload (a denial) makes the decryption throw.
   */
  function OpenResponse(p: Primitives, discoveryKey: Option<Bytes>, token: Option<Bytes>,
                        publicKey: Bytes, payload: Option<Bytes>): (r: Result<Bytes, RejectReason>)
    requires Valid(p)
    ensures r.Success? ==> discoveryKey == Some(p.discoveryKey(r.value))
    ensures (token.None? || payload.None?) ==> r == Failure(CouldNotDecryptReply)
    ensures token.Some? && payload.Some? ==>
              var plain := OpenReply(p, payload.value, token.value, publicKey);
              && (r.Success? <==> plain.Some? && discoveryKey == Some(p.discoveryKey(plain.value)))
              && (r.Success? ==> r.value == plain.value)
              && (r == Failure(CouldNotDecryptReply) <==> plain.None?)
              && (r == Failure(DiscoveryKeyMissing) <==> plain.Some? && discoveryKey.None?)
  {
    if token.None? || payload.None? then Failure(CouldNotDecryptReply)
    else
      var plain := OpenReply(p, payload.value, token.value, publicKey);
      if plain.None? then Failure(CouldNotDecryptReply)
      else if discoveryKey.None? then Failure(DiscoveryKeyMissing)
      else if p.discoveryKey(plain.value) != discoveryKey.value then Failure(DiscoveryKeyMismatch)
      else Success(plain.value)
  }

  /** A reply sealed for the candidate's token and carrying the invited key is accepted with that key. */
  lemma OpenResponseAcceptsReply(p: Primitives, key: Bytes, token: Bytes, publicKey: Bytes)
    requires Valid(p)
    ensures OpenResponse(p, Some(p.discoveryKey(key)), Some(token), publicKey,
                         Some(CreateReply(p, key, token, publicKey))) == Success(key)
  {
    ReplyRoundTrip(p, key, token, publicKey);
  }

  /** A reply carrying any key whose discovery key differs from the invite's is rejected. */
  lemma OpenResponseRejectsOtherKey(p: Primitives, discoveryKey: Bytes, other: Bytes, token: Bytes, publicKey: Bytes)
    requires Valid(p)
    requires p.discoveryKey(other) != discoveryKey
    ensures OpenResponse(p, Some(discoveryKey), Some(token), publicKey,
                         Some(CreateReply(p, other, token, publicKey))) == Failure(DiscoveryKeyMismatch)
  {
    ReplyRoundTrip(p, other, token, publicKey);
  }

  // ---------------------------------------------------------------------------

  /** The candidate's side of one pairing attempt. */
  class ClientRequest {
    const crypto: Primitives
    const discoveryKey: Option<Bytes32>
    const seed: Bytes32
    const keyPair: KeyPair
    const userData: Blob
    const id: Bytes32
    /** The values `token` and `payload` hold until the request is destroyed. */
    ghost const sealedToken: Blob
    ghost const sealedPayload: AuthPayload
    var token: Option<Bytes>
    var payload: Option<AuthPayload>
    var key: Option<Bytes>
    var events: seq<Event>

    /**
     * The key pair, id and token derived from the seed and user data.  That
     * `sealedPayload` is the auth envelope made from them is stated by the
     * constructor and by `KeetPairing.Pair`, not here, so that the invariant stays
     * cheap to re-establish.
     */
    ghost predicate Derived() {
      && Sodium.Valid(crypto)
      && keyPair == GetKeyPair(crypto, seed)
      && id == InviteId(crypto, keyPair.publicKey)
      && sealedToken == CreateToken(crypto, seed, userData)
    }

    /** A token and payload that exist exactly until the request is destroyed. */
    ghost predicate Valid()
      reads this
    {
      && Derived()
      && (token.Some? <==> Destroyed !in events)
      && (payload.Some? <==> token.Some?)
      && (token.Some? ==> token.value == sealedToken && payload.value == sealedPayload)
    }

    constructor (crypto: Primitives, discoveryKey: Option<Bytes32>, seed: Bytes32, userData: Blob)
      requires Sodium.Valid(crypto)
      ensures Valid()
      ensures this.crypto == crypto && this.discoveryKey == discoveryKey && this.seed == seed
      ensures this.userData == userData
      ensures keyPair == GetKeyPair(crypto, seed) && id == InviteId(crypto, keyPair.publicKey)
      ensures sealedToken == CreateToken(crypto, seed, userData) && token == Some(sealedToken)
      ensures sealedPayload == CreateAuthAsWritten(crypto, userData, sealedToken, keyPair) && payload == Some(sealedPayload)
      ensures key.None? && events == []
    {
      this.crypto := crypto;
      this.discoveryKey := discoveryKey;
      this.seed := seed;
      var keyPair := GetKeyPair(crypto, seed);
      this.keyPair := keyPair;
      this.userData := userData;
      this.id := InviteId(crypto, keyPair.publicKey);
      var token: Blob := CreateToken(crypto, seed, userData);
      var payload := CreateAuthAsWritten(crypto, userData, token, keyPair);
      this.sealedToken := token;
      this.sealedPayload := payload;
      this.token := Some(token);
      this.payload := Some(payload);
      this.key := None;
      this.events := [];
    }

    /**
     * What handling `response` did to the request: it is accepted exactly when the reply
     * opens to a key with the invite's discovery key, and then the key is kept, 'accepted'
     * and 'destroyed' are emitted and the secrets cleared; otherwise 'rejected' is emitted
     * with the reason, the secrets stay, and the key is kept, cleared or set to the
     * decrypted bytes as `_handleResponse` and `_openResponse` leave it.
     */
    twostate predicate Handled(response: Option<Bytes>, accepted: bool)
      requires Sodium.Valid(crypto)
      reads this
    {
      var outcome := OpenResponse(crypto, discoveryKey, old(token), keyPair.publicKey, response);
      && (accepted <==> outcome.Success?)
      && (accepted ==>
            && key == Some(outcome.value)
            && events == old(events) + [Accepted(outcome.value), Destroyed]
            && token.None? && payload.None?)
      && (!accepted ==>
            && events == old(events) + [Rejected(outcome.error)]
            && token == old(token) && payload == old(payload)
            && (outcome.error == CouldNotDecryptReply ==> key == old(key))
            && (outcome.error == DiscoveryKeyMismatch ==> key.None?)
            && (outcome.error == DiscoveryKeyMissing ==>
                  key == OpenReply(crypto, response.value, old(token).value, keyPair.publicKey)))
    }

    /** `_handleResponse`: accept the key the member sent, or record why not. */
    method HandleResponse(response: Option<Bytes>) returns (accepted: bool)
      requires Valid()
      modifies this
      ensures Valid()
      ensures Handled(response, accepted)
    {
      if token.None? || response.None? {
        events := events + [Rejected(CouldNotDecryptReply)];
        return false;
      }
      var plain := OpenReply(crypto, response.value, token.value, keyPair.publicKey);
      if plain.None? {
        events := events + [Rejected(CouldNotDecryptReply)];
        return false;
      }
      key := plain;
      if discoveryKey.None? {
        events := events + [Rejected(DiscoveryKeyMissing)];
        return false;
      }
      if crypto.discoveryKey(plain.value) != discoveryKey.value {
        key := None;
        events := events + [Rejected(DiscoveryKeyMismatch)];
        return false;
      }
      events := events + [Accepted(plain.value)];
      Destroy();
      accepted := true;
    }

    /** `destroy`: forget the token and the payload and emit 'destroyed' (again, if called twice). */
    method Destroy()
      requires Valid()
      modifies this
      ensures Valid()
      ensures token.None? && payload.None?
      ensures key == old(key) && events == old(events) + [Destroyed]
    {
      token := None;
      payload := None;
      events := events + [Destroyed];
    }
  }

  // ---------------------------------------------------------------------------

  datatype Response = Response(discoveryKey: Bytes, id: Bytes, payload: Option<Bytes>)

  datatype OpenOutcome =
    | OpenedWith(userData: Buffer)   // `open` returns the user data (null when it was empty)
    | Refused                        // `openAuth` threw, `open` returns null
    | ThrewMissingKey                // `createReply` was handed a null key and threw

  /** The member's side of one incoming request. */
  class PairingRequest {
    const crypto: Primitives
    /** The InvitePayload encoder, used to produce the receipt. */
    const encodeReceipt: AuthPayload -> Bytes
    const discoveryKey: Bytes
    const id: Bytes
    const payload: AuthPayload
    var key: Option<Bytes>
    var confirmed: bool
    var denied: bool
    var userData: Buffer
    var token: Option<Bytes>
    var receipt: Option<Bytes>
    var reply: Option<Bytes>
    var response: Option<Response>
    /** The public key of the last successful `open`. */
    ghost var openedWith: Option<Bytes>

    /**
     * At most one decision, the response exists exactly once it is taken and carries the
     * request's discovery key and id (and no reply on a denial); token, user data and
     * reply are the ones opening the payload under `openedWith` yields.
     */
    ghost predicate Valid()
      reads this
    {
      && Sodium.Valid(crypto)
      && !(confirmed && denied)
      && (response.Some? <==> confirmed || denied)
      && (response.Some? ==> response.value.discoveryKey == discoveryKey && response.value.id == id)
      && (denied ==> response.value.payload.None?)
      && (token.Some? ==> openedWith.Some? && OpenAuthAsWritten(crypto, payload, openedWith.value) == Success(Opened(payload.token, userData))
                          && token == Some(payload.token) && receipt == Some(encodeReceipt(payload)))
      && (reply.Some? ==> token.Some? && key.Some? && reply == Some(CreateReply(crypto, key.value, token.value, openedWith.value)))
    }

    constructor (crypto: Primitives, encodeReceipt: AuthPayload -> Bytes,
                 discoveryKey: Bytes, id: Bytes, payload: AuthPayload)
      requires Sodium.Valid(crypto)
      ensures Valid()
      ensures this.crypto == crypto && this.encodeReceipt == encodeReceipt
      ensures this.discoveryKey == discoveryKey && this.id == id && this.payload == payload
      ensures key.None? && !confirmed && !denied
      ensures userData.None? && token.None? && receipt.None? && reply.None? && response.None?
    {
      this.crypto := crypto;
      this.encodeReceipt := encodeReceipt;
      this.discoveryKey := discoveryKey;
      this.id := id;
      this.payload := payload;
      key := None;
      confirmed := false;
      denied := false;
      userData := None;
      token := None;
      receipt := None;
      reply := None;
      response := None;
      openedWith := None;
    }

    /**
     * `open`: authenticate the payload with the invite's public key; on success keep
     * the user data and token, write the receipt and seal the reply to the candidate.
     */
    method Open(publicKey: Bytes) returns (r: OpenOutcome)
      requires Valid()
      modifies this
      ensures Valid()
      ensures key == old(key) && confirmed == old(confirmed) && denied == old(denied) && response == old(response)
      ensures var result := OpenAuthAsWritten(crypto, payload, publicKey);
              && (result.Failure? ==> r == Refused && unchanged(this))
              && (result.Success? ==>
                    && userData == result.value.userData && token == Some(payload.token)
                    && receipt == Some(encodeReceipt(payload))
                    && (key.Some? ==> r == OpenedWith(userData) && reply == Some(CreateReply(crypto, key.value, payload.token, publicKey)))
                    && (key.None? ==> r == ThrewMissingKey && reply == old(reply)))
    {
      var result := OpenAuthAsWritten(crypto, payload, publicKey);
      if result.Failure? {
        return Refused;
      }
      userData := result.value.userData;
      token := Some(result.value.token);
      openedWith := Some(publicKey);
      receipt := Some(encodeReceipt(payload));
      if key.None? {
        return ThrewMissingKey;
      }
      reply := Some(CreateReply(crypto, key.value, result.value.token, publicKey));
      r := OpenedWith(userData);
    }

    /** `confirm`: the first decision wins; the response carries the sealed reply (null if none was made). */
    method Confirm()
      requires Valid()
      modifies this
      ensures Valid()
      ensures old(confirmed || denied) ==> unchanged(this)
      ensures !old(confirmed || denied) ==>
                && confirmed && !denied
                && response == Some(Response(discoveryKey, id, reply))
                && key == old(key) && userData == old(userData) && token == old(token)
                && receipt == old(receipt) && reply == old(reply)
    {
      if confirmed || denied {
        return;
      }
      confirmed := true;
      Respond();
    }

    /** `deny`: the first decision wins; the response carries no payload. */
    method Deny()
      requires Valid()
      modifies this
      ensures Valid()
      ensures old(confirmed || denied) ==> unchanged(this)
      ensures !old(confirmed || denied) ==>
                && denied && !confirmed
                && response == Some(Response(discoveryKey, id, None))
                && key == old(key) && userData == old(userData) && token == old(token)
                && receipt == old(receipt) && reply == old(reply)
    {
      if confirmed || denied {
        return;
      }
      denied := true;
      Respond();
    }

    /** `_respond`: snapshot the decision into `response`. */
    method Respond()
      requires confirmed != denied
      modifies this`response
      ensures response == Some(Response(discoveryKey, id, if confirmed then reply else None))
    {
      response := Some(Response(discoveryKey, id, if confirmed then reply else None));
    }
  }

  // ---------------------------------------------------------------------------

  datatype PairingError =
    | KeyAlreadyJoined     // 'Key is already joined'
    | KeyNotJoined         // 'Key is not joined'
    | InvalidInvitation    // 'Invalid invitation'

  /** `decodeInvite`: any decoding error becomes 'Invalid invitation'. */
  function DecodeInvite(raw: Bytes): (r: Result<Messages.Invite, PairingError>)
    ensures r.Failure? ==> r.error == InvalidInvitation
    ensures r.Success? <==> Messages.InviteDecode(raw, 0).Success?
  {
    var decoded := Messages.InviteDecode(raw, 0);
    if decoded.Failure? then Failure(InvalidInvitation) else Success(decoded.value.0)
  }

  /** An invite made by `createInvite` decodes to its seed and the key's discovery key. */
  lemma DecodeCreatedInvite(p: Primitives, key: Bytes, seed: Bytes32)
    requires Valid(p)
    ensures DecodeInvite(CreateInvite(p, key, seed).invite)
         == Success(Messages.Invite(seed, Some(p.discoveryKey(key)), 0, false))
  {
    CreateInviteDecodes(p, key, seed);
  }

  /**
   * `openRequest`: decode the InvitePayload (a decoding error propagates) and return the
   * user data, or null when `openAuth` throws.
   */
  function OpenRequest(p: Primitives, decodePayload: Bytes -> Result<AuthPayload, CodecError>,
                       request: Bytes, publicKey: Bytes): (r: Result<Buffer, CodecError>)
    requires Valid(p)
    ensures r.Failure? <==> decodePayload(request).Failure?
    ensures r.Success? && r.value.Some? ==>
              OpenAuthAsWritten(p, decodePayload(request).value, publicKey).Success?
    ensures r.Success? && OpenAuthAsWritten(p, decodePayload(request).value, publicKey).Success? ==>
              r.value == OpenAuthAsWritten(p, decodePayload(request).value, publicKey).value.userData
    ensures r.Success? && OpenAuthAsWritten(p, decodePayload(request).value, publicKey).Failure? ==>
              r.value.None?
  {
    var payload :- decodePayload(request);
    var result := OpenAuthAsWritten(p, payload, publicKey);
    if result.Failure? then Success(None) else Success(result.value.userData)
  }

  /** The invite's public key recovers the user data of a request made from the invite. */
  lemma OpenRequestRoundTrip(p: Primitives, decodePayload: Bytes -> Result<AuthPayload, CodecError>,
                             request: Bytes, seed: Bytes, userData: Blob, token: Blob)
    requires Valid(p)
    requires decodePayload(request) == Success(CreateAuthAsWritten(p, userData, token, GetKeyPair(p, seed)))
    ensures OpenRequest(p, decodePayload, request, GetKeyPair(p, seed).publicKey)
         == Success(NormalizeBuffer(Some(userData)))
  {
    AuthRoundTripAsWritten(p, seed, userData, token);
  }

  /** Under a key whose envelope the AEAD rejects, `openRequest` yields null. */
  lemma OpenRequestForeignKey(p: Primitives, decodePayload: Bytes -> Result<AuthPayload, CodecError>,
                              request: Bytes, seed: Bytes, userData: Blob, token: Blob, other: Bytes)
    requires Valid(p)
    requires decodePayload(request) == Success(CreateAuthAsWritten(p, userData, token, GetKeyPair(p, seed)))
    requires Rejects(p, GetNonce(p, GetKeyPair(p, seed).publicKey, token), DeriveKey(p, GetKeyPair(p, seed).publicKey),
                     GetNonce(p, other, token), DeriveKey(p, other))
    ensures OpenRequest(p, decodePayload, request, other) == Success(None)
  {
    OpenAuthAsWrittenForeignKey(p, seed, userData, token, other);
  }

  /** The registry of one peer: the keys it has joined and the requests it has made. */
  class KeetPairing {
    const crypto: Primitives
    const encodeReceipt: AuthPayload -> Bytes
    var requestsByInviteId: map<Bytes, ClientRequest>
    var joinedKeysByDKey: map<Bytes, Bytes>
    /** The requests whose `once('destroyed')` cleanup listener has not fired yet. */
    var listening: set<ClientRequest>

    /**
     * Every registered request is filed under its own id, is still listened to and
     * not destroyed; every joined key is filed under its discovery key.
     */
    ghost predicate Valid()
      reads this, listening
    {
      && Sodium.Valid(crypto)
      && (forall id | id in requestsByInviteId ::
            requestsByInviteId[id] in listening && requestsByInviteId[id].id == id)
      && (forall r | r in listening :: r.Valid() && r.crypto == crypto && r.token.Some?)
      && (forall dk | dk in joinedKeysByDKey :: dk == crypto.discoveryKey(joinedKeysByDKey[dk]))
    }

    constructor (crypto: Primitives, encodeReceipt: AuthPayload -> Bytes)
      requires Sodium.Valid(crypto)
      ensures Valid()
      ensures this.crypto == crypto && this.encodeReceipt == encodeReceipt
      ensures requestsByInviteId == map[] && joinedKeysByDKey == map[] && listening == {}
    {
      this.crypto := crypto;
      this.encodeReceipt := encodeReceipt;
      requestsByInviteId := map[];
      joinedKeysByDKey := map[];
      listening := {};
    }

    /** `join`: file the key under its discovery key, unless one is already there. */
    method Join(key: Bytes) returns (r: Result<(), PairingError>)
      requires Valid()
      modifies this`joinedKeysByDKey
      ensures Valid()
      ensures var dk := crypto.discoveryKey(key);
              && (dk in old(joinedKeysByDKey) ==>
                    r == Failure(KeyAlreadyJoined) && joinedKeysByDKey == old(joinedKeysByDKey))
              && (dk !in old(joinedKeysByDKey) ==>
                    r.Success? && joinedKeysByDKey == old(joinedKeysByDKey)[dk := key])
    {
      var dk := crypto.discoveryKey(key);
      if dk in joinedKeysByDKey {
        return Failure(KeyAlreadyJoined);
      }
      joinedKeysByDKey := joinedKeysByDKey[dk := key];
      r := Success(());
    }

    /** `leave`: remove the key's discovery key, which must be there. */
    method Leave(key: Bytes) returns (r: Result<(), PairingError>)
      requires Valid()
      modifies this`joinedKeysByDKey
      ensures Valid()
      ensures var dk := crypto.discoveryKey(key);
              && (dk !in old(joinedKeysByDKey) ==>
                    r == Failure(KeyNotJoined) && joinedKeysByDKey == old(joinedKeysByDKey))
              && (dk in old(joinedKeysByDKey) ==>
                    r.Success? && joinedKeysByDKey == old(joinedKeysByDKey) - {dk})
    {
      var dk := crypto.discoveryKey(key);
      if dk !in joinedKeysByDKey {
        return Failure(KeyNotJoined);
      }
      joinedKeysByDKey := joinedKeysByDKey - {dk};
      r := Success(());
    }

    /**
     * `handleRequest`: a request for a joined discovery key comes back as a fresh
     * PairingRequest holding the joined key; any other is dropped (null).
     */
    method HandleRequest(discoveryKey: Bytes, id: Bytes, payload: AuthPayload) returns (req: PairingRequest?)
      requires Valid()
      ensures req == null <==> discoveryKey !in joinedKeysByDKey
      ensures req != null ==>
                && fresh(req) && req.Valid()
                && req.crypto == crypto && req.encodeReceipt == encodeReceipt
                && req.discoveryKey == discoveryKey && req.id == id && req.payload == payload
                && req.key == Some(joinedKeysByDKey[discoveryKey])
                && !req.confirmed && !req.denied
                && req.userData.None? && req.token.None? && req.receipt.None?
                && req.reply.None? && req.response.None?
    {
      req := new PairingRequest(crypto, encodeReceipt, discoveryKey, id, payload);
      if discoveryKey !in joinedKeysByDKey {
        return null;
      }
      req.key := Some(joinedKeysByDKey[discoveryKey]);
    }

    /**
     * `handleResponse`: route the payload to the request filed under `id`; an accepted
     * request is destroyed and its listener removes the entry.
     */
    method HandleResponse(id: Bytes, payload: Option<Bytes>)
      requires Valid()
      modifies this`requestsByInviteId, this`listening
      modifies if id in requestsByInviteId then {requestsByInviteId[id]} else {}
      ensures Valid()
      ensures id !in old(requestsByInviteId) ==>
                requestsByInviteId == old(requestsByInviteId) && listening == old(listening)
      ensures id in old(requestsByInviteId) ==>
                var r := old(requestsByInviteId[id]);
                var outcome := OpenResponse(crypto, r.discoveryKey, old(r.token), r.keyPair.publicKey, payload);
                && r.Handled(payload, outcome.Success?)
                && (outcome.Success? ==>
                      && requestsByInviteId == old(requestsByInviteId) - {id}
                      && listening == old(listening) - {r})
                && (outcome.Failure? ==>
                      && requestsByInviteId == old(requestsByInviteId)
                      && listening == old(listening))
    {
      if id !in requestsByInviteId {
        return;
      }
      var r := requestsByInviteId[id];
      var accepted := r.HandleResponse(payload);
      if accepted {
        requestsByInviteId := requestsByInviteId - {r.id};
        listening := listening - {r};
      }
    }

    /**
     * `pair` as index.js writes it: the existing-request lookup uses `invite.id`, which a
     * decoded invite never has, so it always misses; every call makes a new request
     * and files it under its id, replacing any request already there.
     */
    method PairAsWritten(raw: Bytes, userData: Blob) returns (r: Result<ClientRequest, PairingError>)
      requires Valid()
      modifies this`requestsByInviteId, this`listening
      ensures Valid()
      ensures DecodeInvite(raw).Failure? ==>
                && r == Failure(InvalidInvitation)
                && requestsByInviteId == old(requestsByInviteId) && listening == old(listening)
      ensures DecodeInvite(raw).Success? ==>
                var invite := DecodeInvite(raw).value;
                && r.Success? && fresh(r.value)
                && r.value.discoveryKey == invite.discoveryKey && r.value.seed == invite.seed
                && r.value.userData == userData && r.value.events == [] && r.value.key.None?
                && r.value.id == InviteId(crypto, GetKeyPair(crypto, invite.seed).publicKey)
                && r.value.payload == Some(r.value.sealedPayload)
                && r.value.sealedPayload == CreateAuthAsWritten(crypto, userData, r.value.sealedToken, r.value.keyPair)
                && requestsByInviteId == old(requestsByInviteId)[r.value.id := r.value]
                && listening == old(listening) + {r.value}
    {
      var invite :- DecodeInvite(raw);
      var request := new ClientRequest(crypto, invite.discoveryKey, invite.seed, userData);
      requestsByInviteId := requestsByInviteId[request.id := request];
      listening := listening + {request};
      r := Success(request);
    }

    /**
     * `pair` as intended: a request already filed under the invite's id is returned
     * as it is; otherwise a new one is made and filed.
     */
    method Pair(raw: Bytes, userData: Blob) returns (r: Result<ClientRequest, PairingError>)
      requires Valid()
      modifies this`requestsByInviteId, this`listening
      ensures Valid()
      ensures DecodeInvite(raw).Failure? ==>
                && r == Failure(InvalidInvitation)
                && requestsByInviteId == old(requestsByInviteId) && listening == old(listening)
      ensures DecodeInvite(raw).Success? ==>
                var invite := DecodeInvite(raw).value;
                var id := InviteId(crypto, GetKeyPair(crypto, invite.seed).publicKey);
                && r.Success? && r.value.id == id
                && requestsByInviteId == old(requestsByInviteId)[id := r.value]
                && (id in old(requestsByInviteId) ==>
                      r.value == old(requestsByInviteId[id]) && listening == old(listening))
                && (id !in old(requestsByInviteId) ==>
                      && fresh(r.value)
                      && r.value.discoveryKey == invite.discoveryKey && r.value.seed == invite.seed
                      && r.value.userData == userData && r.value.events == [] && r.value.key.None?
                      && r.value.payload == Some(r.value.sealedPayload)
                      && r.value.sealedPayload == CreateAuthAsWritten(crypto, userData, r.value.sealedToken, r.value.keyPair)
                      && listening == old(listening) + {r.value})
    {
      var invite :- DecodeInvite(raw);
      var id := InviteId(crypto, GetKeyPair(crypto, invite.seed).publicKey);
      if id in requestsByInviteId {
        assert requestsByInviteId[id := requestsByInviteId[id]] == requestsByInviteId;
        return Success(requestsByInviteId[id]);
      }
      var request := new ClientRequest(crypto, invite.discoveryKey, invite.seed, userData);
      requestsByInviteId := requestsByInviteId[request.id := request];
      listening := listening + {request};
      r := Success(request);
    }

    /**
     * `destroy` called on a request this registry made: the request forgets its
     * token, and a pending listener deletes whatever is filed under the request's id.
     */
    method DestroyRequest(request: ClientRequest)
      requires Valid() && request.Valid()
      modifies this`requestsByInviteId, this`listening, request
      ensures Valid()
      ensures request.token.None? && request.payload.None?
      ensures request.key == old(request.key)
      ensures request.events == old(request.events) + [Destroyed]
      ensures request in old(listening) ==>
                requestsByInviteId == old(requestsByInviteId) - {request.id}
                && listening == old(listening) - {request}
      ensures request !in old(listening) ==>
                requestsByInviteId == old(requestsByInviteId) && listening == old(listening)
    {
      request.Destroy();
      if request in listening {
        requestsByInviteId := requestsByInviteId - {request.id};
        listening := listening - {request};
      }
    }

    /** `requests`: the registered requests, none of them destroyed. */
    function Requests(): (rs: set<ClientRequest>)
      requires Valid()
      reads this, listening
      ensures forall q | q in rs :: q in listening && q.Valid() && Destroyed !in q.events
      ensures forall id | id in requestsByInviteId :: requestsByInviteId[id] in rs
      ensures forall q | q in rs :: exists id | id in requestsByInviteId :: requestsByInviteId[id] == q
    {
      requestsByInviteId.Values
    }
  }

  // ---------------------------------------------------------------------------
  // Whole exchanges between two registries

  /**
   * The member's half of a pairing: a registry that has joined `key` takes the request
   * for the key's discovery key, opens it with the invite's public key and confirms.
   */
  method MemberAnswers(crypto: Primitives, encodeReceipt: AuthPayload -> Bytes,
                       key: Bytes, publicKey: Bytes, id: Bytes, payload: AuthPayload)
    returns (response: Response, seen: OpenOutcome)
    requires Valid(crypto)
    requires OpenAuthAsWritten(crypto, payload, publicKey).Success?
    ensures seen == OpenedWith(OpenAuthAsWritten(crypto, payload, publicKey).value.userData)
    ensures response == Response(crypto.discoveryKey(key), id, Some(CreateReply(crypto, key, payload.token, publicKey)))
  {
    var dk := crypto.discoveryKey(key);
    var member := new KeetPairing(crypto, encodeReceipt);
    var joined := member.Join(key);
    var req := member.HandleRequest(dk, id, payload);
    seen := req.Open(publicKey);
    req.Confirm();
    response := req.response.value;
  }

  /**
   * One pairing from invite to acceptance: the member creates an invite for its key,
   * the candidate pairs with the invite, the member opens the request with the
   * invite's public key and confirms, and the candidate accepts the member's key.
   */
  method BasicPairing(crypto: Primitives, encodeReceipt: AuthPayload -> Bytes,
                      key: Bytes, seed: Bytes32, userData: Blob)
    returns (candidate: ClientRequest, memberId: Bytes, seen: OpenOutcome)
    requires Valid(crypto)
    ensures candidate.id == memberId == CreateInvite(crypto, key, seed).id
    ensures seen == OpenedWith(NormalizeBuffer(Some(userData)))
    ensures candidate.events == [Accepted(key), Destroyed]
    ensures candidate.key == Some(key)
  {
    var created := CreateInvite(crypto, key, seed);
    DecodeCreatedInvite(crypto, key, seed);
    var client := new KeetPairing(crypto, encodeReceipt);
    var paired := client.Pair(created.invite, userData);
    candidate := paired.value;
    var token := candidate.sealedToken;
    assert candidate.keyPair.publicKey == created.publicKey;
    assert candidate.discoveryKey == Some(crypto.discoveryKey(key));

    AuthRoundTripAsWritten(crypto, seed, userData, token);
    var response;
    response, seen := MemberAnswers(crypto, encodeReceipt, key, created.publicKey, candidate.id, candidate.payload.value);

    OpenResponseAcceptsReply(crypto, key, token, created.publicKey);
    memberId := response.id;
    client.HandleResponse(candidate.id, response.payload);
  }

  /**
   * As written, pairing twice with one invite makes two requests under the same id; the
   * first stays listened to, and destroying it removes the second from the registry.
   */
  method PairTwiceAsWritten(crypto: Primitives, encodeReceipt: AuthPayload -> Bytes,
                            key: Bytes, seed: Bytes32, userData: Blob)
    returns (first: ClientRequest, second: ClientRequest, registry: KeetPairing)
    requires Valid(crypto)
    ensures first != second && first.id == second.id
    ensures registry.Valid() && second in registry.listening
    ensures second.id !in registry.requestsByInviteId
  {
    var created := CreateInvite(crypto, key, seed);
    DecodeCreatedInvite(crypto, key, seed);
    registry := new KeetPairing(crypto, encodeReceipt);
    var r1 := registry.PairAsWritten(created.invite, userData);
    first := r1.value;
    var r2 := registry.PairAsWritten(created.invite, userData);
    second := r2.value;
    registry.DestroyRequest(first);
  }

  /** As intended, pairing twice with one invite returns the one pending request. */
  method PairTwice(crypto: Primitives, encodeReceipt: AuthPayload -> Bytes,
                   key: Bytes, seed: Bytes32, userData: Blob)
    returns (first: ClientRequest, second: ClientRequest, registry: KeetPairing)
    requires Valid(crypto)
    ensures first == second
    ensures registry.Valid() && registry.requestsByInviteId == map[first.id := first]
  {
    var created := CreateInvite(crypto, key, seed);
    DecodeCreatedInvite(crypto, key, seed);
    registry := new KeetPairing(crypto, encodeReceipt);
    var r1 := registry.Pair(created.invite, userData);
    first := r1.value;
    var r2 := registry.Pair(created.invite, userData);
    second := r2.value;
  }
}
