/**
 * What the CHALLENGE command promises, stated over `Step` and therefore,
 * through the contract of `Client.MChallenge`, over the command as run.
 */
module Properties {
  import opened Oracles
  import opened Generators
  import opened Fragment
  import opened Challenge

  /**
   * A client refused because it is not on a secure connection, one that
   * is already an operator, and a response with nothing pending: all of
   * them leave the state as it was and are granted nothing.
   */
  lemma EarlyExitsChangeNothing(peer: Peer, s: ClientState, arg: string, env: Env, crypto: Crypto, w: nat)
    requires w > 1 && Inv(s)
    requires ExitsEarly(peer, s, env) || (IsResponse(arg) && s.challenge.None?)
    ensures Step(peer, s, arg, env, crypto, w).state == s
    ensures Step(peer, s, arg, env, crypto, w).outcome in {SecureOnlyRefused, AlreadyOper, NotExpecting}
  {
  }

  /**
   * Single shot: once a response reaches a pending challenge, every
   * outcome (expired, mismatched, host mismatch, granted) clears the
   * expected response, the issue time and the claimed oper name.
   */
  lemma SingleShot(peer: Peer, s: ClientState, arg: string, env: Env, crypto: Crypto, w: nat)
    requires w > 1 && Inv(s)
    requires !ExitsEarly(peer, s, env) && IsResponse(arg) && s.challenge.Some?
    ensures var t := Step(peer, s, arg, env, crypto, w);
            t.state == Cleared(s).(isOper := t.outcome.Granted?) &&
            (t.outcome.Expired? || t.outcome.Mismatch? || t.outcome.HostMismatch? || t.outcome.Granted?)
  {
  }

  /** A second response after the first one, whatever it is and whenever it comes, grants nothing and changes nothing. */
  lemma NoSecondAnswer(peer: Peer, s: ClientState, arg: string, env: Env, crypto: Crypto, w: nat,
                       arg2: string, env2: Env, crypto2: Crypto)
    requires w > 1 && Inv(s)
    requires !ExitsEarly(peer, s, env) && IsResponse(arg) && s.challenge.Some?
    requires IsResponse(arg2)
    ensures var s1 := Step(peer, s, arg, env, crypto, w).state;
            var t2 := Step(peer, s1, arg2, env2, crypto2, w);
            t2.state == s1 && t2.outcome in {SecureOnlyRefused, AlreadyOper, NotExpecting}
  {
  }

  /** Strict expiry: a pending challenge is expired exactly when more than 180 seconds have passed. */
  lemma StrictExpiry(peer: Peer, s: ClientState, arg: string, env: Env, crypto: Crypto, w: nat)
    requires w > 1 && Inv(s)
    requires !ExitsEarly(peer, s, env) && IsResponse(arg) && s.challenge.Some?
    ensures Step(peer, s, arg, env, crypto, w).outcome == Expired <==> env.now - s.chalTime > CHALLENGE_EXPIRES
  {
  }

  /** At exactly 180 seconds after issue a correct response from a still-matching client is granted. */
  lemma ExpiryBoundary(peer: Peer, s: ClientState, response: string, env: Env, crypto: Crypto, w: nat)
    requires w > 1 && Inv(s)
    requires !ExitsEarly(peer, s, env) && s.challenge == Some(response)
    requires env.now == s.chalTime + 180
    requires env.findOperConf(s.opername.value).Some?
    ensures Step(peer, s, "+" + response, env, crypto, w).outcome == Granted(env.findOperConf(s.opername.value).value)
  {
  }

  /**
   * Elevation happens exactly when the client passed the early exits, the
   * argument less its `+` equals the stored expected response, the
   * challenge has not expired and a fresh lookup of the claimed oper name
   * finds an oper block; the grant is under that block, and the pending
   * challenge is gone.
   */
  lemma GrantConditions(peer: Peer, s: ClientState, arg: string, env: Env, crypto: Crypto, w: nat)
    requires w > 1 && Inv(s)
    ensures var t := Step(peer, s, arg, env, crypto, w);
            t.outcome.Granted? <==>
              !ExitsEarly(peer, s, env) && IsResponse(arg) &&
              s.challenge == Some(arg[1..]) &&
              env.now - s.chalTime <= CHALLENGE_EXPIRES &&
              env.findOperConf(s.opername.value).Some?
    ensures var t := Step(peer, s, arg, env, crypto, w);
            t.outcome.Granted? ==>
              t.outcome.conf == env.findOperConf(s.opername.value).value &&
              t.state == Cleared(s).(isOper := true)
    ensures var t := Step(peer, s, arg, env, crypto, w);
            !s.isOper && t.state.isOper ==> t.outcome.Granted?
  {
  }

  /**
   * Supersession: an issue request first discards the pending challenge,
   * so whatever it then fails on leaves nothing pending, and when it
   * succeeds only the new expected response is pending.
   */
  lemma IssueSupersedes(peer: Peer, s: ClientState, name: string, env: Env, crypto: Crypto, w: nat)
    requires w > 1 && Inv(s)
    requires !ExitsEarly(peer, s, env) && !IsResponse(name)
    ensures var t := Step(peer, s, name, env, crypto, w);
            (!t.outcome.ChallengeSent? ==> t.state == Cleared(s)) &&
            (t.outcome.ChallengeSent? ==>
               t.state.challenge == Generate(env.findOperConf(name).value, crypto).response)
  {
  }

  /**
   * After an issue request, a response is granted only if that request
   * sent a new challenge and the response is the new expected one: an
   * expected response from before the request is useless unless the
   * generator produced the same value again.
   */
  lemma OldResponseRejected(peer: Peer, s: ClientState, name: string, env: Env, crypto: Crypto, w: nat,
                            response: string, env2: Env, crypto2: Crypto)
    requires w > 1 && Inv(s)
    requires !ExitsEarly(peer, s, env) && !IsResponse(name)
    ensures var t1 := Step(peer, s, name, env, crypto, w);
            Inv(t1.state) &&
            (Step(peer, t1.state, "+" + response, env2, crypto2, w).outcome.Granted? ==>
               t1.outcome.ChallengeSent? && t1.state.challenge == Some(response))
  {
  }

  /**
   * Issue gates: a challenge becomes pending exactly when an oper block
   * is found, it has an RSA or X25519 key, its TLS requirement is met,
   * a configured fingerprint matches the client's, and the generator
   * succeeds. When both keys are configured the X25519 generator is used.
   */
  lemma IssueGates(peer: Peer, s: ClientState, name: string, env: Env, crypto: Crypto, w: nat)
    requires w > 1 && Inv(s)
    requires !ExitsEarly(peer, s, env) && !IsResponse(name)
    ensures var t := Step(peer, s, name, env, crypto, w);
            var conf := env.findOperConf(name);
            t.state.challenge.Some? <==>
              conf.Some? &&
              (conf.value.rsaPubkey.Some? || conf.value.x25519Pubkey.Some?) &&
              (conf.value.needSsl ==> peer.secure) &&
              (conf.value.certfp.Some? ==>
                 peer.certfp.Some? && env.certfpMatch(peer.certfp.value, conf.value.certfp.value)) &&
              Generate(conf.value, crypto).success
    ensures var t := Step(peer, s, name, env, crypto, w);
            var conf := env.findOperConf(name);
            t.state.challenge.Some? ==>
              t.state.challenge == (if conf.value.x25519Pubkey.Some?
                                    then GenWrites(X25519_TOKEN, conf.value.x25519Pubkey.value, crypto, None, None)
                                    else RsaWrites(conf.value.rsaPubkey, crypto, None, None)).response
  {
  }

  /**
   * A failed generation stores no expected response and leaves the issue
   * time and oper name unset; a successful one sets all three.
   */
  lemma GenerationOutcome(peer: Peer, s: ClientState, name: string, env: Env, crypto: Crypto, w: nat)
    requires w > 1 && Inv(s)
    requires !ExitsEarly(peer, s, env) && !IsResponse(name)
    ensures var t := Step(peer, s, name, env, crypto, w);
            t.outcome == GenerationFailed ==>
              t.state.challenge.None? && t.state.chalTime == 0 && t.state.opername.None?
    ensures var t := Step(peer, s, name, env, crypto, w);
            t.outcome.ChallengeSent? ==>
              t.state.challenge.Some? && t.state.chalTime == env.now &&
              t.state.opername == Some(env.findOperConf(name).value.name)
  {
  }

  /**
   * The challenge text reaches the client whole: at least one line, none
   * longer than `w - 1` characters, and in order they spell the text the
   * generator produced.
   */
  lemma ChallengeLines(peer: Peer, s: ClientState, name: string, env: Env, crypto: Crypto, w: nat)
    requires w > 1 && Inv(s)
    requires !ExitsEarly(peer, s, env) && !IsResponse(name)
    ensures var t := Step(peer, s, name, env, crypto, w);
            t.outcome.ChallengeSent? ==>
              var lines := t.outcome.lines;
              |lines| >= 1 &&
              (forall i :: 0 <= i < |lines| ==> |lines[i]| <= w - 1) &&
              Concat(lines) == Generate(env.findOperConf(name).value, crypto).challenge.value
  {
    var t := Step(peer, s, name, env, crypto, w);
    if t.outcome.ChallengeSent? {
      ChunksConcat(Generate(env.findOperConf(name).value, crypto).challenge.value, w);
      ChunksShape(Generate(env.findOperConf(name).value, crypto).challenge.value, w);
    }
  }

  /**
   * Issue then answer: after a challenge is sent, answering with its
   * expected response within 180 seconds grants the oper block that a
   * fresh lookup of the stored oper name (the name of the block found at
   * issue, not the argument as typed) finds, and is refused with a host mismatch when the lookup no
   * longer finds one (the authorization was revoked meanwhile).
   */
  lemma IssueThenAnswer(peer: Peer, s: ClientState, name: string, env: Env, crypto: Crypto, w: nat, env2: Env)
    requires w > 1 && Inv(s)
    requires !ExitsEarly(peer, s, env) && !IsResponse(name)
    requires Step(peer, s, name, env, crypto, w).outcome.ChallengeSent?
    requires env2.operSecureOnly ==> peer.secure
    requires env2.now - env.now <= CHALLENGE_EXPIRES
    ensures var s1 := Step(peer, s, name, env, crypto, w).state;
            var answer := "+" + s1.challenge.value;
            var t2 := Step(peer, s1, answer, env2, crypto, w);
            t2.state == Cleared(s1).(isOper := t2.outcome.Granted?) &&
            t2.outcome == match env2.findOperConf(Step(peer, s, name, env, crypto, w).state.opername.value)
                          case Some(conf) => Granted(conf)
                          case None => HostMismatch
  {
  }
}
