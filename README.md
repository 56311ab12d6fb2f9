# CHALLENGE: challenge-response operator authentication

A model of solanum's `m_challenge` module. The module lets a connected
client become an IRC operator without ever sending the oper password.

- The client names an oper block: `CHALLENGE <name>`.
- The server checks that the client may use that block. It generates a
  one-time challenge from the block's public key and sends it as
  base64 text, split into protocol lines. It stores the expected
  response, the issue time and the claimed oper name on the client.
- The client computes the response with its private key and sends it
  back: `CHALLENGE +<response>`.
- The server accepts the response only if all of these hold:
  - a challenge is pending;
  - it is at most 180 seconds old;
  - the response equals the stored one exactly;
  - looking up the oper block again still finds it.

  Whatever the outcome, the pending challenge is consumed.

There are two key schemes:
- **RSA**: a random 128-byte secret is encrypted with OAEP. The
  expected response is the base64 of its SHA-1 digest.
- **X25519**: the server makes an ephemeral key pair and agrees a shared
  secret with the oper's public key. The expected response is the base64
  of the HMAC-SHA-256 of the fixed token
  `solanum-challenge v1-x25519-sha256` under that secret. The challenge
  text is the ephemeral public key.

When an oper block has both keys, X25519 is used.

Layout, one module per file:

- `oracles.dfy` (`Oracles`): the cryptographic library as a record of
  functions (`Crypto`). The module only sees each primitive's result and
  whether it succeeded.
- `generators.dfy` (`Generators`): `generate_challenge` and
  `generate_challenge_gen`. These C functions return their outputs
  through two out-pointers. The model passes in the value each pointee
  holds before the call and returns the value it holds afterwards.
  `RsaWrites` and `GenWrites` specify what is written and when. The
  methods follow the source step by step and are proved equal to them.
- `fragment.dfy` (`Fragment`): the `for(;;)` loop that sends the challenge
  text in lines of at most `w - 1` characters. `w` stands for
  `CHALLENGE_WIDTH`, which is built from header constants and is a
  parameter `w > 1` here. `SplitChallenge` is the loop. `Chunks` is its
  reference definition. `Concat` is its inverse.
- `challenge.dfy` (`Challenge`): the client's pending-challenge fields.
  - `Step` is the specification of one command, as a function.
  - The `Client` class holds the fields the source changes in place
    (`challenge`, `chal_time`, `opername`, the oper flag).
  - `CleanupChallenge` and `MChallenge` are imperative methods.
    `MChallenge`'s contract ties the new state and the reply to `Step`.
- `properties.dfy` (`Properties`): lemmas over `Step` for what the
  command promises. They carry over to `MChallenge` through its contract.

The environment is passed in as values:
- `find_oper_conf`, already applied to the client's user name and hosts,
  is a function from an oper name to an optional oper block;
- `IsSecureClient` and the client's certificate fingerprint are fixed
  attributes of the connection (`Peer`);
- `rb_strcasecmp(a, b) == 0` is a function `certfpMatch`;
- `ConfigFileEntry.oper_secure_only` is a boolean;
- the clock is `now`.

Behaviour of the code worth noting, which the model follows as written:
- A response exactly 180 seconds after issue is still accepted. The
  code expires only when `now - chal_time > 180`
  (modules/m_challenge.c:143).
- On verification, the code re-checks only `find_oper_conf`
  (modules/m_challenge.c:177-196). It does not re-check the TLS
  requirement or the certificate fingerprint of the oper block.
- The response is compared with plain `strcmp`, not in constant time.
- A response with no pending challenge is ignored without a reply.
- An expired response gets the same error reply as a wrong one.
- Low-order X25519 peer keys are not rejected explicitly. The model's
  `derive` oracle may succeed or fail on any key.

## Model

| member | source | states |
|---|---|---|
| `Generators.RsaWrites` | modules/m_challenge.c:361-399 | The RSA generator succeeds exactly when the key is present, the RNG fills the 128-byte secret and OAEP encryption succeeds. On success the response is base64(SHA-1(secret)) and the challenge is base64(ciphertext). On failure the challenge pointee is never written. The response pointee is reset to NULL when only encryption failed, and is untouched when the key or the RNG failed. |
| `Generators.GenerateChallenge` | modules/m_challenge.c:361-399 | The step-by-step RSA generator returns the success flag and writes exactly the pointee values that `RsaWrites` describes. |
| `Generators.GenWrites` | modules/m_challenge.c:310-359 | The X25519 generator succeeds exactly when key generation, shared-secret derivation, raw public key extraction and the HMAC all succeed. On success the challenge is base64(ephemeral public key) and the response is base64(HMAC(shared secret, token)). On failure neither pointee is written. |
| `Generators.GenerateChallengeGen` | modules/m_challenge.c:310-359 | The step-by-step X25519 generator returns the success flag and writes exactly the pointee values that `GenWrites` describes. |
| `Fragment.Strlcpy` | modules/m_challenge.c:283 | The copy holds fewer than `size` characters and is a prefix of the source. It is the whole source when the source fits, and exactly the first `size - 1` characters otherwise. The count returned is the source's full length. |
| `Fragment.ChunksShape` | modules/m_challenge.c:281-290 | At least one line is sent. Every line holds at most `w - 1` characters. All but the last hold exactly `w - 1`. The last line is empty only when the text is empty. |
| `Fragment.ChunksConcat` | modules/m_challenge.c:281-290 | The lines concatenated in order equal the challenge text. |
| `Fragment.ChunksUnique` | modules/m_challenge.c:281-290 | Any cut of the text into full lines of `w - 1` characters followed by a shorter, non-empty last line is exactly `Chunks`. |
| `Fragment.SplitChallenge` | modules/m_challenge.c:279-290 | The `for(;;)` loop, with the `chal` pointer as an index, sends exactly `Chunks(text, w)`. So it sends at least one line, no line is longer than `w - 1`, and the lines concatenate to the text. |
| `Challenge.IssueGate` | modules/m_challenge.c:210-266 | The issue branch passes its checks exactly when: an oper block is found; it has an RSA or an X25519 key; its TLS requirement is met; and a configured fingerprint is matched by the client's, compared case-insensitively. |
| `Challenge.Step` | modules/m_challenge.c:108-298 | One command keeps the invariant that a pending challenge names its oper block. The client becomes an operator only through a grant. |
| `Challenge.Client.CleanupChallenge` | modules/m_challenge.c:91-102 | On a local client it clears the expected response, the oper name and the issue time and changes nothing else. On a client without local data it changes nothing. |
| `Challenge.Client.MChallenge` | modules/m_challenge.c:108-298 | The command as run, changing the client in place, produces exactly the new state and reply of `Step` and keeps the invariant. |
| `Properties.EarlyExitsChangeNothing` | modules/m_challenge.c:117-141 | A secure-only refusal, an already-oper client, or a response with nothing pending leaves the state unchanged and grants nothing. |
| `Properties.SingleShot` | modules/m_challenge.c:137-205 | Once a response reaches a pending challenge, the outcome is expired, mismatch, host mismatch or granted. In every case the expected response, the issue time and the oper name are cleared. |
| `Properties.NoSecondAnswer` | modules/m_challenge.c:137-141 | After a response has been answered, any further response grants nothing and changes nothing. |
| `Properties.StrictExpiry` | modules/m_challenge.c:143-157 | A pending challenge is reported expired exactly when `now - chal_time > 180`. |
| `Properties.ExpiryBoundary` | modules/m_challenge.c:143 | At exactly `chal_time + 180`, a correct response whose oper block is still found is granted. |
| `Properties.GrantConditions` | modules/m_challenge.c:159-200 | A grant happens exactly when all of these hold: the early checks pass; the argument starts with `+`; the rest equals the stored response; the challenge has not expired; a fresh lookup of the stored oper name finds a block. The grant is under that block, with the challenge state already cleared. Nothing else makes the client an operator. |
| `Properties.IssueSupersedes` | modules/m_challenge.c:208-231 | An issue request that does not send a challenge leaves the client's challenge state cleared. One that does leaves only the new expected response pending. |
| `Properties.OldResponseRejected` | modules/m_challenge.c:208-297 | After an issue request, a response is granted only if that request sent a challenge and the response equals the new expected response. |
| `Properties.IssueGates` | modules/m_challenge.c:213-276 | A challenge becomes pending exactly when the four issue checks pass and the chosen generator succeeds. The stored response comes from the X25519 generator whenever that key is configured, and from the RSA generator otherwise. |
| `Properties.GenerationOutcome` | modules/m_challenge.c:277-297 | A failed generation leaves no expected response, issue time 0 and no oper name. A successful one stores the response, the current time and the oper block's name. |
| `Properties.ChallengeLines` | modules/m_challenge.c:277-292 | A sent challenge reaches the client as at least one line. No line is longer than `w - 1`, and the lines concatenate to the generator's challenge text. |
| `Properties.IssueThenAnswer` | modules/m_challenge.c:177-200 | Answering a sent challenge with its own expected response within 180 seconds is granted if a fresh lookup of the stored oper name finds a block. If the block has been removed in the meantime, it is refused with the host-mismatch reply. |

## Left out

- The cryptography: OpenSSL's RNG, SHA-1, RSA-OAEP, X25519 key generation
  and derivation, and HMAC-SHA-256 (RFC 2104), and base64 (section 4 of
  RFC 4648). They are foreign library calls, so they are fields of the
  `Crypto` record. Properties that depend on what they compute cannot be
  stated here: for example, decrypting the challenge gives back the
  secret, or an external party that derives the same shared secret gets
  the same HMAC.
- `rb_base64_encode` returning NULL on allocation failure: the encoder is
  a total function here.
- In `generate_challenge_gen`, each setup call that can fail is folded
  into the oracle it prepares. Context creation, init and keygen become
  `keygen`. Context creation, init, set-peer, both derive calls and the
  allocation become `derive`. Both raw-public-key calls and the allocation
  become `rawPublic`. Failing at any of them is the same goto `done`.
- The `id` and `md` parameters of `generate_challenge_gen`: the only call
  passes `EVP_PKEY_X25519` and `EVP_sha256()`, and the oracles stand for
  those primitives.
- The length of the random secret: the model records that 128 bytes are
  requested, but does not constrain what the `random` oracle returns.
- `report_openssl_errors`, `sendto_one`, `sendto_one_notice`,
  `sendto_one_numeric`, `sendto_realops_snomask`, `ilog` and
  `send_oper_motd`. These are I/O with no effect on the client's
  challenge state. The reply is the `Outcome` value, and the sent
  challenge lines are `ChallengeSent(lines)`.
  `ConfigFileEntry.failed_oper_notice` only switches some of those
  notices, so it is left out.
- `oper_up` is external (s_user.c is not part of this model). The model
  only sets the oper flag, after the challenge state has been cleared.
  Whatever else it does to the client, including to `opername`, is not
  modelled.
- `find_oper_conf`'s matching of user, hosts and name is external (it is
  given as a function).
- Module registration (`DECLARE_MODULE_AV2`, `challenge_msgtab`) and the
  stub built without OpenSSL (lines 56-70). The message table sends
  CHALLENGE to `m_challenge` only for local clients with at least one
  parameter. `MChallenge` therefore requires a local client.
- Memory management (`rb_free`, `rb_malloc`, `rb_strdup`) and the
  header-derived buffer sizes. Strings are `seq<char>`, and C's NUL
  terminator is not modelled.
- `time_t` overflow in `now - chal_time`: times are unbounded integers.
- Concurrency: the ircd is single-threaded, so each command runs to
  completion.
