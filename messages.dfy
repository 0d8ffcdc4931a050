/**
 * The nine wire schemas of lib/messages.js, each as its `preencode` (how far it moves
 * `state.end`), its `encode` (the bytes it writes) and its `decode` (what it reads
 * at `start`, and where it leaves `state.start`), with the round trips and the
 * agreement of `preencode` with `encode` proved for each.
 */
module Messages {
  import opened Wrappers
  import opened Compact

  /** JavaScript's `(flags & mask) !== 0` for a single-bit mask 1, 2 or 4. */
  predicate Bit(flags: nat, mask: nat)
    requires mask == 1 || mask == 2 || mask == 4
  {
    (flags / mask) % 2 == 1
  }

  // ---------------------------------------------------------------------------
  // Invite

  /**
   * `expires` is in milliseconds, 0 when absent (JavaScript treats 0 and a missing
   * value alike); `sensitive` is only carried as a flag bit.
   */
  datatype Invite = Invite(seed: Bytes32, discoveryKey: Option<Bytes32>, expires: nat, sensitive: bool)

  /** The flags varint: bit 0 discoveryKey, bit 1 expires, bit 2 sensitive (the bits are disjoint, so `|` is `+`). */
  function InviteFlags(i: Invite): nat {
    (if i.discoveryKey.Some? then 1 else 0) + (if i.expires != 0 then 2 else 0) + (if i.sensitive then 4 else 0)
  }

  lemma InviteFlagLayout(i: Invite)
    ensures InviteFlags(i) <= 7
    ensures Bit(InviteFlags(i), 1) <==> i.discoveryKey.Some?
    ensures Bit(InviteFlags(i), 2) <==> i.expires != 0
    ensures Bit(InviteFlags(i), 4) <==> i.sensitive
  {
  }

  /** `Math.floor(expires / 1000)`: the expiry is stored in seconds. */
  function ExpiresSeconds(expires: nat): nat {
    expires / 1000
  }

  /** One byte each for version and flags, the seed, then the optional fields. */
  function InvitePreencode(i: Invite): nat {
    1 + 1 + 32 + (if i.discoveryKey.Some? then 32 else 0) + (if i.expires != 0 then 4 else 0)
  }

  function InviteEncode(i: Invite): (r: Bytes)
    ensures |r| == InvitePreencode(i)
  {
    InviteFlagLayout(i);
    UintEncode(1) + UintEncode(InviteFlags(i)) + i.seed
    + (if i.discoveryKey.Some? then i.discoveryKey.value else [])
    + (if i.expires != 0 then Uint32Encode(ExpiresSeconds(i.expires)) else [])
  }

  function InviteDecode(buf: Bytes, start: nat): (r: Result<(Invite, nat), CodecError>)
    ensures r == Failure(UnknownInviteVersion) <==>
              UintDecode(buf, start).Success? && UintDecode(buf, start).value.0 != 1
    ensures r.Success? ==> start < r.value.1 <= |buf|
  {
    var version :- UintDecode(buf, start);
    if version.0 != 1 then Failure(UnknownInviteVersion)
    else
      var flags :- UintDecode(buf, version.1);
      var seed :- Fixed32Decode(buf, flags.1);
      var discoveryKey: (Option<Bytes32>, nat) :-
        if Bit(flags.0, 1) then
          var key :- Fixed32Decode(buf, seed.1);
          Success((Some(key.0), key.1))
        else Success((None, seed.1));
      var expires: (nat, nat) :-
        if Bit(flags.0, 2) then
          var seconds :- Uint32Decode(buf, discoveryKey.1);
          Success((seconds.0 * 1000, seconds.1))
        else Success((0, discoveryKey.1));
      Success((Invite(seed.0, discoveryKey.0, expires.0, Bit(flags.0, 4)), expires.1))
  }

  /** What an encoded invite reads back as: the expiry rounded down to whole seconds (of which the low 32 bits are kept), or 0 when absent. */
  function InviteDecoded(i: Invite): Invite {
    i.(expires := if i.expires != 0 then ExpiresSeconds(i.expires) % TWO_32 * 1000 else 0)
  }

  lemma InviteRoundTrip(i: Invite, buf: Bytes, start: nat)
    requires At(buf, start, InviteEncode(i))
    ensures InviteDecode(buf, start) == Success((InviteDecoded(i), start + |InviteEncode(i)|))
  {
    InviteFlagLayout(i);
    var version, flags := UintEncode(1), UintEncode(InviteFlags(i));
    var key := if i.discoveryKey.Some? then i.discoveryKey.value else [];
    var expires := if i.expires != 0 then Uint32Encode(ExpiresSeconds(i.expires)) else [];
    AtSplit(buf, start, version + flags + i.seed + key, expires);
    AtSplit(buf, start, version + flags + i.seed, key);
    AtSplit(buf, start, version + flags, i.seed);
    AtSplit(buf, start, version, flags);
    UintRoundTrip(1, buf, start);
    UintRoundTrip(InviteFlags(i), buf, start + 1);
    FixedRoundTrip(i.seed, buf, start + 2);
    if i.discoveryKey.Some? {
      FixedRoundTrip(key, buf, start + 34);
    }
    if i.expires != 0 {
      Uint32RoundTrip(ExpiresSeconds(i.expires), buf, start + 34 + |key|);
    }
  }

  /** Below 2^32 seconds the expiry survives the round trip as `floor(e / 1000) * 1000`. */
  lemma InviteExpiresRoundTrip(i: Invite)
    requires ExpiresSeconds(i.expires) < TWO_32
    ensures InviteDecode(InviteEncode(i), 0).Success?
    ensures InviteDecode(InviteEncode(i), 0).value.0.expires == i.expires / 1000 * 1000
  {
    InviteRoundTrip(i, InviteEncode(i), 0);
  }

  // ---------------------------------------------------------------------------
  // RequestPayload

  datatype RequestPayload = RequestPayload(session: Buffer, data: Buffer)

  function RequestPayloadPreencode(p: RequestPayload): nat {
    BufferPreencode(p.session) + BufferPreencode(p.data)
  }

  function RequestPayloadEncode(p: RequestPayload): (r: Bytes)
    ensures |r| == RequestPayloadPreencode(p)
  {
    BufferEncode(p.session) + BufferEncode(p.data)
  }

  function RequestPayloadDecode(buf: Bytes, start: nat): (r: Result<(RequestPayload, nat), CodecError>)
    ensures r.Success? ==> start < r.value.1 <= |buf|
  {
    var session :- BufferDecode(buf, start);
    var data :- BufferDecode(buf, session.1);
    Success((RequestPayload(session.0, data.0), data.1))
  }

  lemma RequestPayloadRoundTrip(p: RequestPayload, buf: Bytes, start: nat)
    requires At(buf, start, RequestPayloadEncode(p))
    ensures RequestPayloadDecode(buf, start)
         == Success((RequestPayload(NormalizeBuffer(p.session), NormalizeBuffer(p.data)),
                     start + |RequestPayloadEncode(p)|))
  {
    var next := start + |BufferEncode(p.session)|;
    AtSplit(buf, start, BufferEncode(p.session), BufferEncode(p.data));
    BufferRoundTrip(p.session, buf, start);
    BufferRoundTrip(p.data, buf, next);
    assert start + |RequestPayloadEncode(p)| == next + |BufferEncode(p.data)|;
  }

  // ---------------------------------------------------------------------------
  // FastForwardTo

  datatype FastForwardTo = FastForwardTo(key: Bytes32, length: Uint)

  /** A flags varint (always 1), the key, then the length varint. */
  function FastForwardToPreencode(m: FastForwardTo): nat {
    UintPreencode(1) + 32 + UintPreencode(m.length)
  }

  function FastForwardToEncode(m: FastForwardTo): (r: Bytes)
    ensures |r| == FastForwardToPreencode(m)
  {
    UintEncode(1) + m.key + UintEncode(m.length)
  }

  /** The leading flags varint is read and ignored. */
  function FastForwardToDecode(buf: Bytes, start: nat): (r: Result<(FastForwardTo, nat), CodecError>)
    ensures r.Success? ==> start < r.value.1 <= |buf|
  {
    var flags :- UintDecode(buf, start);
    var key :- Fixed32Decode(buf, flags.1);
    var length :- UintDecode(buf, key.1);
    Success((FastForwardTo(key.0, length.0), length.1))
  }

  lemma FastForwardToRoundTrip(m: FastForwardTo, buf: Bytes, start: nat)
    requires At(buf, start, FastForwardToEncode(m))
    ensures FastForwardToDecode(buf, start) == Success((m, start + |FastForwardToEncode(m)|))
  {
    AtSplit(buf, start, UintEncode(1) + m.key, UintEncode(m.length));
    AtSplit(buf, start, UintEncode(1), m.key);
    UintRoundTrip(1, buf, start);
    FixedRoundTrip(m.key, buf, start + 1);
    UintRoundTrip(m.length, buf, start + 33);
  }

  // ---------------------------------------------------------------------------
  // ResponsePayload

  /** `status` 0 is success; any other status cuts the record short. */
  datatype ResponsePayload = ResponsePayload(
    status: Uint,
    key: Option<Bytes32>,
    encryptionKey: Option<Bytes32>,
    fastForwardTo: Option<FastForwardTo>)

  /** `encode` writes `p.key` when the status is 0; a null key there would throw. */
  predicate ResponsePayloadEncodable(p: ResponsePayload) {
    p.status == 0 ==> p.key.Some?
  }

  function ResponseFlags(p: ResponsePayload): nat {
    (if p.encryptionKey.Some? then 1 else 0) + (if p.fastForwardTo.Some? then 2 else 0)
  }

  /** The status varint, and on status 0 one flags byte (reserved as for the value 3), the key and the optional fields. */
  function ResponsePayloadPreencode(p: ResponsePayload): nat {
    UintPreencode(p.status)
    + if p.status != 0 then 0
      else UintPreencode(3) + 32
           + (if p.encryptionKey.Some? then 32 else 0)
           + (if p.fastForwardTo.Some? then FastForwardToPreencode(p.fastForwardTo.value) else 0)
  }

  function ResponsePayloadEncode(p: ResponsePayload): (r: Bytes)
    requires ResponsePayloadEncodable(p)
    ensures |r| == ResponsePayloadPreencode(p)
    ensures p.status != 0 ==> r == UintEncode(p.status)
  {
    if p.status != 0 then UintEncode(p.status)
    else
      UintEncode(p.status) + UintEncode(ResponseFlags(p)) + p.key.value
      + (if p.encryptionKey.Some? then p.encryptionKey.value else [])
      + (if p.fastForwardTo.Some? then FastForwardToEncode(p.fastForwardTo.value) else [])
  }

  function ResponsePayloadDecode(buf: Bytes, start: nat): (r: Result<(ResponsePayload, nat), CodecError>)
    ensures r.Success? ==> start < r.value.1 <= |buf|
    ensures r.Success? && r.value.0.status != 0 ==>
              r.value.0.key.None? && r.value.0.encryptionKey.None? && r.value.0.fastForwardTo.None?
    ensures r.Success? && r.value.0.status == 0 ==> r.value.0.key.Some?
  {
    var status :- UintDecode(buf, start);
    if status.0 != 0 then Success((ResponsePayload(status.0, None, None, None), status.1))
    else
      var flags :- UintDecode(buf, status.1);
      var key :- Fixed32Decode(buf, flags.1);
      var encryptionKey: (Option<Bytes32>, nat) :-
        if Bit(flags.0, 1) then
          var k :- Fixed32Decode(buf, key.1);
          Success((Some(k.0), k.1))
        else Success((None, key.1));
      var fastForwardTo: (Option<FastForwardTo>, nat) :-
        if Bit(flags.0, 2) then
          var f :- FastForwardToDecode(buf, encryptionKey.1);
          Success((Some(f.0), f.1))
        else Success((None, encryptionKey.1));
      Success((ResponsePayload(0, Some(key.0), encryptionKey.0, fastForwardTo.0), fastForwardTo.1))
  }

  /** What an encoded response reads back as: a non-zero status drops every other field. */
  function ResponsePayloadDecoded(p: ResponsePayload): ResponsePayload {
    if p.status != 0 then ResponsePayload(p.status, None, None, None) else p
  }

  lemma ResponseFlagLayout(p: ResponsePayload)
    ensures ResponseFlags(p) <= 3
    ensures Bit(ResponseFlags(p), 1) <==> p.encryptionKey.Some?
    ensures Bit(ResponseFlags(p), 2) <==> p.fastForwardTo.Some?
  {
  }

  lemma ResponsePayloadRoundTrip(p: ResponsePayload, buf: Bytes, start: nat)
    requires ResponsePayloadEncodable(p)
    requires At(buf, start, ResponsePayloadEncode(p))
    ensures ResponsePayloadDecode(buf, start)
         == Success((ResponsePayloadDecoded(p), start + |ResponsePayloadEncode(p)|))
  {
    if p.status != 0 {
      UintRoundTrip(p.status, buf, start);
    } else {
      AcceptedResponseRoundTrip(p, buf, start);
    }
  }

  /** The optional `encryptionKey` field as written: its 32 bytes, or nothing. */
  function EncryptionKeyBytes(p: ResponsePayload): Bytes {
    if p.encryptionKey.Some? then p.encryptionKey.value else []
  }

  /** The optional `fastForwardTo` field as written, or nothing. */
  function FastForwardToBytes(p: ResponsePayload): Bytes {
    if p.fastForwardTo.Some? then FastForwardToEncode(p.fastForwardTo.value) else []
  }

  /** A status-0 response is its 34-byte header (status, flags, key) followed by the optional fields. */
  lemma AcceptedResponseLayout(p: ResponsePayload, buf: Bytes, start: nat)
    requires p.status == 0 && p.key.Some?
    requires At(buf, start, ResponsePayloadEncode(p))
    ensures At(buf, start, UintEncode(0) + UintEncode(ResponseFlags(p)) + p.key.value)
    ensures At(buf, start + 34, EncryptionKeyBytes(p))
    ensures At(buf, start + 34 + |EncryptionKeyBytes(p)|, FastForwardToBytes(p))
    ensures |ResponsePayloadEncode(p)| == 34 + |EncryptionKeyBytes(p)| + |FastForwardToBytes(p)|
  {
    ResponseFlagLayout(p);
    var header := UintEncode(0) + UintEncode(ResponseFlags(p)) + p.key.value;
    assert |header| == 34;
    assert ResponsePayloadEncode(p) == header + EncryptionKeyBytes(p) + FastForwardToBytes(p);
    AtSplit(buf, start, header + EncryptionKeyBytes(p), FastForwardToBytes(p));
    AtSplit(buf, start, header, EncryptionKeyBytes(p));
  }

  /** The header of a status-0 response reads back as status 0, its flags and its key. */
  lemma AcceptedResponseHeader(p: ResponsePayload, buf: Bytes, start: nat)
    requires p.key.Some?
    requires At(buf, start, UintEncode(0) + UintEncode(ResponseFlags(p)) + p.key.value)
    ensures UintDecode(buf, start) == Success((0, start + 1))
    ensures UintDecode(buf, start + 1) == Success((ResponseFlags(p), start + 2))
    ensures Fixed32Decode(buf, start + 2) == Success((p.key.value, start + 34))
  {
    ResponseFlagLayout(p);
    var status, flags := UintEncode(0), UintEncode(ResponseFlags(p));
    AtSplit(buf, start, status + flags, p.key.value);
    AtSplit(buf, start, status, flags);
    UintRoundTrip(0, buf, start);
    UintRoundTrip(ResponseFlags(p), buf, start + 1);
    FixedRoundTrip(p.key.value, buf, start + 2);
  }

  /** The status-0 half of ResponsePayloadRoundTrip: every field is read back in the order it was written. */
  lemma AcceptedResponseRoundTrip(p: ResponsePayload, buf: Bytes, start: nat)
    requires p.status == 0 && p.key.Some?
    requires At(buf, start, ResponsePayloadEncode(p))
    ensures ResponsePayloadDecode(buf, start) == Success((p, start + |ResponsePayloadEncode(p)|))
  {
    ResponseFlagLayout(p);
    AcceptedResponseLayout(p, buf, start);
    AcceptedResponseHeader(p, buf, start);
    var afterKey := start + 34 + |EncryptionKeyBytes(p)|;
    if p.encryptionKey.Some? {
      FixedRoundTrip(p.encryptionKey.value, buf, start + 34);
    }
    if p.fastForwardTo.Some? {
      FastForwardToRoundTrip(p.fastForwardTo.value, buf, afterKey);
    }
  }

  // ---------------------------------------------------------------------------
  // InviteRequest

  datatype InviteRequest = InviteRequest(inviteId: Bytes32, payload: RequestPayload)

  function InviteRequestPreencode(i: InviteRequest): nat {
    32 + RequestPayloadPreencode(i.payload)
  }

  function InviteRequestEncode(i: InviteRequest): (r: Bytes)
    ensures |r| == InviteRequestPreencode(i)
  {
    i.inviteId + RequestPayloadEncode(i.payload)
  }

  function InviteRequestDecode(buf: Bytes, start: nat): (r: Result<(InviteRequest, nat), CodecError>)
    ensures r.Success? ==> start + 32 < r.value.1 <= |buf|
  {
    var inviteId :- Fixed32Decode(buf, start);
    var payload :- RequestPayloadDecode(buf, inviteId.1);
    Success((InviteRequest(inviteId.0, payload.0), payload.1))
  }

  lemma InviteRequestRoundTrip(i: InviteRequest, buf: Bytes, start: nat)
    requires At(buf, start, InviteRequestEncode(i))
    ensures InviteRequestDecode(buf, start)
         == Success((InviteRequest(i.inviteId, RequestPayload(NormalizeBuffer(i.payload.session),
                                                              NormalizeBuffer(i.payload.data))),
                     start + |InviteRequestEncode(i)|))
  {
    AtSplit(buf, start, i.inviteId, RequestPayloadEncode(i.payload));
    FixedRoundTrip(i.inviteId, buf, start);
    RequestPayloadRoundTrip(i.payload, buf, start + 32);
  }

  // ---------------------------------------------------------------------------
  // InviteResponse

  datatype InviteResponse = InviteResponse(id: Bytes32, payload: Buffer)

  function InviteResponsePreencode(i: InviteResponse): nat {
    32 + BufferPreencode(i.payload)
  }

  function InviteResponseEncode(i: InviteResponse): (r: Bytes)
    ensures |r| == InviteResponsePreencode(i)
  {
    i.id + BufferEncode(i.payload)
  }

  function InviteResponseDecode(buf: Bytes, start: nat): (r: Result<(InviteResponse, nat), CodecError>)
    ensures r.Success? ==> start + 32 < r.value.1 <= |buf|
  {
    var id :- Fixed32Decode(buf, start);
    var payload :- BufferDecode(buf, id.1);
    Success((InviteResponse(id.0, payload.0), payload.1))
  }

  lemma InviteResponseRoundTrip(i: InviteResponse, buf: Bytes, start: nat)
    requires At(buf, start, InviteResponseEncode(i))
    ensures InviteResponseDecode(buf, start)
         == Success((InviteResponse(i.id, NormalizeBuffer(i.payload)), start + |InviteResponseEncode(i)|))
  {
    AtSplit(buf, start, i.id, BufferEncode(i.payload));
    FixedRoundTrip(i.id, buf, start);
    BufferRoundTrip(i.payload, buf, start + 32);
  }

  // ---------------------------------------------------------------------------
  // InviteData

  datatype InviteData = InviteData(signature: Bytes64, userData: Buffer)

  function InviteDataPreencode(i: InviteData): nat {
    64 + BufferPreencode(i.userData)
  }

  function InviteDataEncode(i: InviteData): (r: Bytes)
    ensures |r| == InviteDataPreencode(i)
  {
    i.signature + BufferEncode(i.userData)
  }

  function InviteDataDecode(buf: Bytes, start: nat): (r: Result<(InviteData, nat), CodecError>)
    ensures r.Success? ==> start + 64 < r.value.1 <= |buf|
  {
    var signature :- Fixed64Decode(buf, start);
    var userData :- BufferDecode(buf, signature.1);
    Success((InviteData(signature.0, userData.0), userData.1))
  }

  lemma InviteDataRoundTrip(i: InviteData, buf: Bytes, start: nat)
    requires At(buf, start, InviteDataEncode(i))
    ensures InviteDataDecode(buf, start)
         == Success((InviteData(i.signature, NormalizeBuffer(i.userData)), start + |InviteDataEncode(i)|))
  {
    AtSplit(buf, start, i.signature, BufferEncode(i.userData));
    FixedRoundTrip(i.signature, buf, start);
    BufferRoundTrip(i.userData, buf, start + 64);
  }

  // ---------------------------------------------------------------------------
  // InviteReceipt

  datatype InviteReceipt = InviteReceipt(session: Bytes32, signature: Bytes64, userData: Buffer)

  function InviteReceiptPreencode(i: InviteReceipt): nat {
    32 + 64 + BufferPreencode(i.userData)
  }

  function InviteReceiptEncode(i: InviteReceipt): (r: Bytes)
    ensures |r| == InviteReceiptPreencode(i)
  {
    i.session + i.signature + BufferEncode(i.userData)
  }

  function InviteReceiptDecode(buf: Bytes, start: nat): (r: Result<(InviteReceipt, nat), CodecError>)
    ensures r.Success? ==> start + 96 < r.value.1 <= |buf|
  {
    var session :- Fixed32Decode(buf, start);
    var signature :- Fixed64Decode(buf, session.1);
    var userData :- BufferDecode(buf, signature.1);
    Success((InviteReceipt(session.0, signature.0, userData.0), userData.1))
  }

  lemma InviteReceiptRoundTrip(i: InviteReceipt, buf: Bytes, start: nat)
    requires At(buf, start, InviteReceiptEncode(i))
    ensures InviteReceiptDecode(buf, start)
         == Success((InviteReceipt(i.session, i.signature, NormalizeBuffer(i.userData)),
                     start + |InviteReceiptEncode(i)|))
  {
    AtSplit(buf, start, i.session + i.signature, BufferEncode(i.userData));
    AtSplit(buf, start, i.session, i.signature);
    FixedRoundTrip(i.session, buf, start);
    FixedRoundTrip(i.signature, buf, start + 32);
    BufferRoundTrip(i.userData, buf, start + 96);
  }

  // ---------------------------------------------------------------------------
  // AuthData

  datatype AuthData = AuthData(session: Buffer, userData: Buffer)

  function AuthDataPreencode(a: AuthData): nat {
    BufferPreencode(a.session) + BufferPreencode(a.userData)
  }

  function AuthDataEncode(a: AuthData): (r: Bytes)
    ensures |r| == AuthDataPreencode(a)
  {
    BufferEncode(a.session) + BufferEncode(a.userData)
  }

  function AuthDataDecode(buf: Bytes, start: nat): (r: Result<(AuthData, nat), CodecError>)
    ensures r.Success? ==> start < r.value.1 <= |buf|
  {
    var session :- BufferDecode(buf, start);
    var userData :- BufferDecode(buf, session.1);
    Success((AuthData(session.0, userData.0), userData.1))
  }

  lemma AuthDataRoundTrip(a: AuthData, buf: Bytes, start: nat)
    requires At(buf, start, AuthDataEncode(a))
    ensures AuthDataDecode(buf, start)
         == Success((AuthData(NormalizeBuffer(a.session), NormalizeBuffer(a.userData)),
                     start + |AuthDataEncode(a)|))
  {
    var next := start + |BufferEncode(a.session)|;
    AtSplit(buf, start, BufferEncode(a.session), BufferEncode(a.userData));
    BufferRoundTrip(a.session, buf, start);
    BufferRoundTrip(a.userData, buf, next);
    assert start + |AuthDataEncode(a)| == next + |BufferEncode(a.userData)|;
  }
}
