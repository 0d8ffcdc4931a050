/**
 * The primitives index.js takes from sodium-universal and hypercore-crypto, kept
 * uninterpreted: each is a function value in `Primitives`, and `Valid` states the
 * only facts about them that the handshake relies on (output lengths, decryption
 * undoing encryption under the same key and nonce, verification accepting a
 * signature made with the matching key pair). `ToyIsValid` shows these facts can
 * all hold at once.
 */
module Sodium {
  import opened Wrappers
  import opened Compact

  const KEYBYTES: nat := 32        // crypto_aead_xchacha20poly1305_ietf_KEYBYTES
  const NPUBBYTES: nat := 24       // crypto_aead_xchacha20poly1305_ietf_NPUBBYTES
  const ABYTES: nat := 16          // crypto_aead_xchacha20poly1305_ietf_ABYTES
  const PUBLICKEYBYTES: nat := 32  // crypto_sign_PUBLICKEYBYTES
  const SECRETKEYBYTES: nat := 64  // crypto_sign_SECRETKEYBYTES
  const SIGNBYTES: nat := 64       // crypto_sign_BYTES

  datatype KeyPair = KeyPair(publicKey: Bytes, secretKey: Bytes)

  datatype Primitives = Primitives(
    /** crypto_generichash_batch: BLAKE2b (RFC 7693) of the given bytes, `len` bytes long. */
    generichash: (nat, Bytes) -> Bytes,
    /** crypto.namespace(name, count)[i]: the i-th 32-byte namespace derived from `name`. */
    namespace: (string, nat) -> Bytes,
    /** crypto.discoveryKey: the public identifier of a key. */
    discoveryKey: Bytes -> Bytes,
    /** crypto_sign_seed_keypair: the Ed25519 (RFC 8032) key pair of a seed. */
    seedKeypair: Bytes -> KeyPair,
    /** crypto_sign_detached(message, secretKey). */
    signDetached: (Bytes, Bytes) -> Bytes,
    /** crypto_sign_verify_detached(signature, message, publicKey). */
    verifyDetached: (Bytes, Bytes, Bytes) -> bool,
    /** crypto_aead_xchacha20poly1305_ietf_encrypt(message, ad, npub, key). */
    aeadEncrypt: (Bytes, Bytes, Bytes, Bytes) -> Bytes,
    /** crypto_aead_xchacha20poly1305_ietf_decrypt(ciphertext, ad, npub, key); `None` when it throws. */
    aeadDecrypt: (Bytes, Bytes, Bytes, Bytes) -> Option<Bytes>)

  ghost predicate HashLaws(p: Primitives) {
    && (forall len: nat, m: Bytes :: |p.generichash(len, m)| == len)
    && (forall name: string, i: nat :: |p.namespace(name, i)| == 32)
    && (forall key: Bytes :: |p.discoveryKey(key)| == 32)
  }

  ghost predicate SignatureLaws(p: Primitives) {
    && (forall seed: Bytes :: |p.seedKeypair(seed).publicKey| == PUBLICKEYBYTES
                              && |p.seedKeypair(seed).secretKey| == SECRETKEYBYTES)
    && (forall m: Bytes, sk: Bytes :: |p.signDetached(m, sk)| == SIGNBYTES)
    && (forall seed: Bytes, m: Bytes ::
          p.verifyDetached(p.signDetached(m, p.seedKeypair(seed).secretKey), m, p.seedKeypair(seed).publicKey))
  }

  ghost predicate AeadLaws(p: Primitives) {
    && (forall m: Bytes, ad: Bytes, n: Bytes, k: Bytes :: |p.aeadEncrypt(m, ad, n, k)| == |m| + ABYTES)
    && (forall m: Bytes, ad: Bytes, n: Bytes, k: Bytes ::
          p.aeadDecrypt(p.aeadEncrypt(m, ad, n, k), ad, n, k) == Some(m))
    && (forall c: Bytes, ad: Bytes, n: Bytes, k: Bytes ::
          p.aeadDecrypt(c, ad, n, k).Some? ==> |p.aeadDecrypt(c, ad, n, k).value| + ABYTES == |c|)
  }

  ghost predicate Valid(p: Primitives) {
    HashLaws(p) && SignatureLaws(p) && AeadLaws(p)
  }

  /**
   * Decryption under (`nonce'`, `key'`) rejects everything sealed under (`nonce`, `key`)
   * with the nonce as associated data, as index.js seals. No cipher with fixed-size
   * tags can do this for every pair of keys at once, so it is not one of the laws
   * above: the lemmas that need it take it for the one pair they are about.
   */
  ghost predicate Rejects(p: Primitives, nonce: Bytes, key: Bytes, nonce': Bytes, key': Bytes) {
    forall m: Bytes :: p.aeadDecrypt(p.aeadEncrypt(m, nonce, nonce, key), nonce', nonce', key') == None
  }

  /** A stand-in that meets every law: its only purpose is to show `Valid` is satisfiable. */
  function Toy(): Primitives {
    Primitives(
      (len: nat, m: Bytes) => Zeros(len),
      (name: string, i: nat) => [i % 256] + Zeros(31),
      (key: Bytes) => Zeros(32),
      (seed: Bytes) => KeyPair(Zeros(32), Zeros(64)),
      (m: Bytes, sk: Bytes) => Zeros(64),
      (signature: Bytes, m: Bytes, pk: Bytes) => true,
      (m: Bytes, ad: Bytes, n: Bytes, k: Bytes) => m + Zeros(16),
      (c: Bytes, ad: Bytes, n: Bytes, k: Bytes) => if |c| >= 16 then Some(c[..|c| - 16]) else None)
  }

  lemma ToyIsValid()
    ensures Valid(Toy())
  {
    var p := Toy();
    forall m: Bytes, ad: Bytes, n: Bytes, k: Bytes
      ensures p.aeadDecrypt(p.aeadEncrypt(m, ad, n, k), ad, n, k) == Some(m)
    {
      assert (m + Zeros(16))[..|m|] == m;
    }
  }
}
