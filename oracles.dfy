/**
 * The cryptographic library as the challenge module sees it.
 *
 * The module never looks inside OpenSSL or the base64 encoder: it calls
 * them and branches on whether they succeeded. Each primitive is therefore
 * a field of the `Crypto` record, a function the caller supplies, and a
 * primitive that can fail returns an `Option` (None is the library's
 * failure return: a NULL pointer, or a status other than 1).
 */
module Oracles {

  datatype Option<T> = None | Some(value: T)

  newtype byte = x: int | 0 <= x < 256

  /** An RSA public key from an oper block (`oper_p->rsa_pubkey`). */
  datatype RsaKey = RsaKey(material: seq<byte>)

  /** An X25519 public key from an oper block (`oper_p->x25519_pubkey`). */
  datatype X25519Key = X25519Key(raw: seq<byte>)

  /**
   * A freshly generated ephemeral key pair (`EVP_PKEY *pkey`), as an
   * opaque handle: the module reaches its public bytes and the shared
   * secret only through the `rawPublic` and `derive` oracles.
   */
  datatype Ephemeral = Ephemeral(handle: nat)

  /**
   * The outcome of every library call the generators make during one
   * challenge request. The random draw and the key generation are
   * nondeterministic, so they are values fixed for the call; the rest are
   * functions of their arguments.
   */
  datatype Crypto = Crypto(
    // rb_get_random(buf, n): the bytes drawn, or None when the RNG fails
    random: nat -> Option<seq<byte>>,
    // SHA1_Init / SHA1_Update / SHA1_Final over a buffer
    sha1: seq<byte> -> seq<byte>,
    // RSA_public_encrypt with OAEP padding: None when it returns a negative value
    rsaEncrypt: (RsaKey, seq<byte>) -> Option<seq<byte>>,
    // EVP_PKEY_CTX_new_id, EVP_PKEY_keygen_init, EVP_PKEY_keygen
    keygen: Option<Ephemeral>,
    // EVP_PKEY_CTX_new, derive_init, derive_set_peer and both EVP_PKEY_derive calls
    derive: (Ephemeral, X25519Key) -> Option<seq<byte>>,
    // both EVP_PKEY_get_raw_public_key calls
    rawPublic: Ephemeral -> Option<seq<byte>>,
    // HMAC(md, key, token): None when it returns NULL
    hmac: (seq<byte>, string) -> Option<seq<byte>>,
    // rb_base64_encode
    base64: seq<byte> -> string
  )
}
