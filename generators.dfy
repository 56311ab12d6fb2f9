/**
 * The two challenge generators, `generate_challenge` (RSA) and
 * `generate_challenge_gen` (X25519 key agreement).
 *
 * Both report their results by writing through two out-pointers,
 * `*r_challenge` (the text to send) and `*r_response` (the expected
 * response to store). The model passes in the value each pointee holds
 * before the call and returns the value it holds afterwards, so "not
 * written" reads as "returned unchanged".
 */
module Generators {
  import opened Oracles

  /** Length of the random secret the RSA generator encrypts. */
  const CHALLENGE_SECRET_LENGTH: nat := 128

  /** The label the X25519 generator authenticates with HMAC. */
  const X25519_TOKEN: string := "solanum-challenge v1-x25519-sha256"

  /** The generator's return value and the two pointees after the call. */
  datatype Writes = Writes(success: bool, challenge: Option<string>, response: Option<string>)

  /**
   * What `generate_challenge` does, given the pointees before the call.
   * It stores both outputs exactly when it succeeds. On failure it never
   * writes the challenge text; the response is first written and then
   * reset to NULL when only the encryption failed, and is left alone when
   * the key is missing or the RNG failed.
   */
  function RsaWrites(rsa: Option<RsaKey>, crypto: Crypto, challengeIn: Option<string>, responseIn: Option<string>): (w: Writes)
    ensures w.success <==>
              rsa.Some? && crypto.random(CHALLENGE_SECRET_LENGTH).Some? &&
              crypto.rsaEncrypt(rsa.value, crypto.random(CHALLENGE_SECRET_LENGTH).value).Some?
    ensures w.success ==>
              var secret := crypto.random(CHALLENGE_SECRET_LENGTH).value;
              w.response == Some(crypto.base64(crypto.sha1(secret))) &&
              w.challenge == Some(crypto.base64(crypto.rsaEncrypt(rsa.value, secret).value))
    ensures !w.success ==> w.challenge == challengeIn
    ensures !w.success ==>
              w.response == if rsa.Some? && crypto.random(CHALLENGE_SECRET_LENGTH).Some? then None else responseIn
  {
    if rsa.None? then Writes(false, challengeIn, responseIn)
    else
      match crypto.random(CHALLENGE_SECRET_LENGTH)
      case None => Writes(false, challengeIn, responseIn)
      case Some(secret) =>
        var response := Some(crypto.base64(crypto.sha1(secret)));
        match crypto.rsaEncrypt(rsa.value, secret)
        case Some(encrypted) => Writes(true, Some(crypto.base64(encrypted)), response)
        case None => Writes(false, challengeIn, None)
  }

  /**
   * What `generate_challenge_gen` does, given the pointees before the call.
   * Either every library step succeeds and both outputs are written (the
   * base64 of the ephemeral public key, and the base64 of the HMAC of the
   * token under the shared secret), or nothing is written at all.
   */
  function GenWrites(token: string, pub: X25519Key, crypto: Crypto, challengeIn: Option<string>, responseIn: Option<string>): (w: Writes)
    ensures w.success <==>
              crypto.keygen.Some? &&
              crypto.derive(crypto.keygen.value, pub).Some? &&
              crypto.rawPublic(crypto.keygen.value).Some? &&
              crypto.hmac(crypto.derive(crypto.keygen.value, pub).value, token).Some?
    ensures w.success ==>
              var pkey := crypto.keygen.value;
              var shared := crypto.derive(pkey, pub).value;
              w.challenge == Some(crypto.base64(crypto.rawPublic(pkey).value)) &&
              w.response == Some(crypto.base64(crypto.hmac(shared, token).value))
    ensures !w.success ==> w.challenge == challengeIn && w.response == responseIn
  {
    match crypto.keygen
    case None => Writes(false, challengeIn, responseIn)
    case Some(pkey) =>
      match crypto.derive(pkey, pub)
      case None => Writes(false, challengeIn, responseIn)
      case Some(shared) =>
        match crypto.rawPublic(pkey)
        case None => Writes(false, challengeIn, responseIn)
        case Some(epub) =>
          match crypto.hmac(shared, token)
          case None => Writes(false, challengeIn, responseIn)
          case Some(d) => Writes(true, Some(crypto.base64(epub)), Some(crypto.base64(d)))
  }

  /** `generate_challenge`: the RSA generator, step by step. */
  method GenerateChallenge(rChallenge: Option<string>, rResponse: Option<string>, rsa: Option<RsaKey>, crypto: Crypto)
    returns (success: bool, challenge: Option<string>, response: Option<string>)
    ensures Writes(success, challenge, response) == RsaWrites(rsa, crypto, rChallenge, rResponse)
  {
    challenge, response := rChallenge, rResponse;
    if rsa.None? {
      return false, challenge, response;
    }
    var secret := crypto.random(CHALLENGE_SECRET_LENGTH);
    if secret.Some? {
      response := Some(crypto.base64(crypto.sha1(secret.value)));
      var encrypted := crypto.rsaEncrypt(rsa.value, secret.value);
      if encrypted.Some? {
        challenge := Some(crypto.base64(encrypted.value));
        return true, challenge, response;
      }
      // encryption failed: the response pointee is freed and reset to NULL
      response := None;
    }
    // the library errors are only logged
    success := false;
  }

  /** `generate_challenge_gen`: the key-agreement generator, step by step. */
  method GenerateChallengeGen(token: string, pub: X25519Key, crypto: Crypto, rChallenge: Option<string>, rResponse: Option<string>)
    returns (success: bool, challenge: Option<string>, response: Option<string>)
    ensures Writes(success, challenge, response) == GenWrites(token, pub, crypto, rChallenge, rResponse)
  {
    challenge, response := rChallenge, rResponse;
    success := false;
    var pkey := crypto.keygen;
    if pkey.None? { return; }
    var shared := crypto.derive(pkey.value, pub);
    if shared.None? { return; }
    var epub := crypto.rawPublic(pkey.value);
    if epub.None? { return; }
    var d := crypto.hmac(shared.value, token);
    if d.None? { return; }
    success := true;
    challenge := Some(crypto.base64(epub.value));
    response := Some(crypto.base64(d.value));
  }
}
