/**
 * The CHALLENGE command: the per-client challenge-response state machine
 * by which a connected client proves it holds the private key of an oper
 * block and is raised to IRC operator.
 *
 * Each local client carries a pending challenge: the expected response
 * (`localClient->challenge`), the time it was issued
 * (`localClient->chal_time`) and the oper name being claimed
 * (`user->opername`). `CHALLENGE <name>` issues a challenge for an oper
 * block; `CHALLENGE +<response>` answers the pending one.
 *
 * `Step` is the specification of one command as a function of the
 * client's state and its environment; `Client.MChallenge` is the command
 * as the source runs it, changing the client's fields in place, and is
 * proved to follow `Step`. The lemmas at the end state what the command
 * promises.
 */
module Challenge {
  import opened Oracles
  import opened Generators
  import opened Fragment

  /** Seconds a challenge stays answerable. */
  const CHALLENGE_EXPIRES: int := 180

  /** The fields of an oper block the command reads (`struct oper_conf`). */
  datatype OperConf = OperConf(
    name: string,
    rsaPubkey: Option<RsaKey>,
    x25519Pubkey: Option<X25519Key>,
    needSsl: bool,              // IsOperConfNeedSSL
    certfp: Option<string>      // the configured client certificate fingerprint
  )

  /** The connection's fixed attributes. */
  datatype Peer = Peer(
    secure: bool,               // IsSecureClient
    certfp: Option<string>      // source_p->certfp
  )

  /** Everything outside the client that the command consults. */
  datatype Env = Env(
    operSecureOnly: bool,                        // ConfigFileEntry.oper_secure_only
    now: int,                                    // rb_current_time()
    findOperConf: string -> Option<OperConf>,    // find_oper_conf for this client's user and hosts
    certfpMatch: (string, string) -> bool        // rb_strcasecmp(a, b) == 0
  )

  /** The client fields the command reads or writes. */
  datatype ClientState = ClientState(
    challenge: Option<string>,  // expected response of the pending challenge
    chalTime: int,              // when it was issued
    opername: Option<string>,   // the oper name being claimed
    isOper: bool                // IsOper
  )

  /** What the command replies, one case per exit of `m_challenge`. */
  datatype Outcome =
    | SecureOnlyRefused         // oper_secure_only and the connection is not secure
    | AlreadyOper               // RPL_YOUREOPER and the oper MOTD again
    | NotExpecting              // a response without a pending challenge: silently ignored
    | Expired                   // ERR_PASSWDMISMATCH, "EXPIRED CHALLENGE"
    | Mismatch                  // ERR_PASSWDMISMATCH, "FAILED CHALLENGE"
    | HostMismatch              // ERR_NOOPERHOST on verification: the oper block no longer matches
    | Granted(conf: OperConf)   // oper_up
    | NoOperHost                // ERR_NOOPERHOST on issue: no matching oper block
    | PkNotEnabled              // the oper block has neither key
    | TlsRequired               // the oper block needs TLS and the connection has none
    | CertfpMismatch            // the oper block's certificate fingerprint does not match
    | ChallengeSent(lines: seq<string>)  // the RPL_RSACHALLENGE2 lines, then RPL_ENDOFRSACHALLENGE2
    | GenerationFailed          // "Failed to generate challenge."

  datatype Transition = Transition(state: ClientState, outcome: Outcome)

  /** A pending challenge always names the oper block it is for. */
  ghost predicate Inv(s: ClientState)
  {
    s.challenge.Some? ==> s.opername.Some?
  }

  /** Whether the argument is an answer (`*parv[1] == '+'`). */
  predicate IsResponse(arg: string)
  {
    |arg| > 0 && arg[0] == '+'
  }

  /** The state after `cleanup_challenge` on a local client. */
  function Cleared(s: ClientState): ClientState
  {
    s.(challenge := None, chalTime := 0, opername := None)
  }

  /** The client is turned away before the argument is looked at. */
  predicate ExitsEarly(peer: Peer, s: ClientState, env: Env)
  {
    (env.operSecureOnly && !peer.secure) || s.isOper
  }

  /** The generator `m_challenge` picks for a conf: X25519 when that key is configured. */
  function Generate(conf: OperConf, crypto: Crypto): Writes
  {
    if conf.x25519Pubkey.Some? then GenWrites(X25519_TOKEN, conf.x25519Pubkey.value, crypto, None, None)
    else RsaWrites(conf.rsaPubkey, crypto, None, None)
  }

  /** The authorization checks of the issue branch, in the source's order. */
  function IssueGate(peer: Peer, conf: Option<OperConf>, env: Env): (r: Option<Outcome>)
    ensures r.None? <==>
              conf.Some? &&
              (conf.value.rsaPubkey.Some? || conf.value.x25519Pubkey.Some?) &&
              (conf.value.needSsl ==> peer.secure) &&
              (conf.value.certfp.Some? ==>
                 peer.certfp.Some? && env.certfpMatch(peer.certfp.value, conf.value.certfp.value))
  {
    if conf.None? then Some(NoOperHost)
    else if conf.value.rsaPubkey.None? && conf.value.x25519Pubkey.None? then Some(PkNotEnabled)
    else if conf.value.needSsl && !peer.secure then Some(TlsRequired)
    else if conf.value.certfp.Some? &&
            (peer.certfp.None? || !env.certfpMatch(peer.certfp.value, conf.value.certfp.value))
    then Some(CertfpMismatch)
    else None
  }

  /** `CHALLENGE +response`, once the early exits have passed. */
  function Verify(s: ClientState, response: string, env: Env): Transition
    requires Inv(s)
  {
    if s.challenge.None? then Transition(s, NotExpecting)
    else if env.now - s.chalTime > CHALLENGE_EXPIRES then Transition(Cleared(s), Expired)
    else if s.challenge.value != response then Transition(Cleared(s), Mismatch)
    else
      match env.findOperConf(s.opername.value)
      case None => Transition(Cleared(s), HostMismatch)
      case Some(conf) => Transition(Cleared(s).(isOper := true), Granted(conf))
  }

  /** `CHALLENGE name`, once the early exits have passed and the old state is cleared. */
  function Issue(peer: Peer, s: ClientState, name: string, env: Env, crypto: Crypto, w: nat): Transition
    requires w > 1 && s.challenge.None?
  {
    var conf := env.findOperConf(name);
    match IssueGate(peer, conf, env)
    case Some(refusal) => Transition(s, refusal)
    case None =>
      var g := Generate(conf.value, crypto);
      if g.success then
        Transition(s.(challenge := g.response, chalTime := env.now, opername := Some(conf.value.name)),
                   ChallengeSent(Chunks(g.challenge.value, w)))
      else
        Transition(s.(challenge := g.response), GenerationFailed)
  }

  /**
   * One CHALLENGE command from a local client whose line buffer holds `w`
   * bytes. A pending challenge keeps naming its oper block, and the client
   * becomes an operator only by a grant.
   */
  function Step(peer: Peer, s: ClientState, arg: string, env: Env, crypto: Crypto, w: nat): (t: Transition)
    requires w > 1 && Inv(s)
    ensures Inv(t.state)
    ensures t.state.isOper == (s.isOper || t.outcome.Granted?)
  {
    if env.operSecureOnly && !peer.secure then Transition(s, SecureOnlyRefused)
    else if s.isOper then Transition(s, AlreadyOper)
    else if IsResponse(arg) then Verify(s, arg[1..], env)
    else Issue(peer, Cleared(s), arg, env, crypto, w)
  }

  /** A client connection with its pending-challenge fields. */
  class Client {
    const local: bool           // localClient != NULL
    const peer: Peer
    var challenge: Option<string>
    var chalTime: int
    var opername: Option<string>
    var isOper: bool

    function State(): ClientState
      reads this
    {
      ClientState(challenge, chalTime, opername, isOper)
    }

    ghost predicate Valid()
      reads this
    {
      Inv(State())
    }

    /** A connection without a pending challenge, not yet an operator. */
    constructor (local: bool, peer: Peer)
      ensures this.local == local && this.peer == peer
      ensures Valid() && State() == ClientState(None, 0, None, false)
    {
      this.local := local;
      this.peer := peer;
      challenge, chalTime, opername, isOper := None, 0, None, false;
    }

    /** `cleanup_challenge`: forget the pending challenge of a local client. */
    method CleanupChallenge()
      modifies this
      ensures State() == if local then Cleared(old(State())) else old(State())
    {
      if !local {
        return;
      }
      challenge := None;
      opername := None;
      chalTime := 0;
    }

    /** `m_challenge`: one CHALLENGE command, changing the client in place. */
    method MChallenge(arg: string, env: Env, crypto: Crypto, w: nat) returns (outcome: Outcome)
      requires local && w > 1 && Valid()
      modifies this
      ensures Valid()
      ensures Transition(State(), outcome) == Step(peer, old(State()), arg, env, crypto, w)
    {
      if env.operSecureOnly && !peer.secure {
        return SecureOnlyRefused;
      }
      if isOper {
        return AlreadyOper;
      }

      if IsResponse(arg) {
        if challenge.None? {
          return NotExpecting;
        }
        if env.now - chalTime > CHALLENGE_EXPIRES {
          CleanupChallenge();
          return Expired;
        }
        var response := arg[1..];
        if challenge.value != response {
          CleanupChallenge();
          return Mismatch;
        }
        var conf := env.findOperConf(opername.value);
        if conf.None? {
          CleanupChallenge();
          return HostMismatch;
        }
        CleanupChallenge();
        // the client is raised to operator
        isOper := true;
        return Granted(conf.value);
      }

      CleanupChallenge();
      var conf := env.findOperConf(arg);
      if conf.None? {
        return NoOperHost;
      }
      var oper := conf.value;
      if oper.rsaPubkey.None? && oper.x25519Pubkey.None? {
        return PkNotEnabled;
      }
      if oper.needSsl && !peer.secure {
        return TlsRequired;
      }
      if oper.certfp.Some? {
        if peer.certfp.None? || !env.certfpMatch(peer.certfp.value, oper.certfp.value) {
          return CertfpMismatch;
        }
      }

      var chal: Option<string> := None;
      var generated: bool;
      if oper.x25519Pubkey.Some? {
        generated, chal, challenge := GenerateChallengeGen(X25519_TOKEN, oper.x25519Pubkey.value, crypto, chal, challenge);
      } else {
        generated, chal, challenge := GenerateChallenge(chal, challenge, oper.rsaPubkey, crypto);
      }
      if generated {
        chalTime := env.now;
        var lines := SplitChallenge(chal.value, w);
        opername := Some(oper.name);
        return ChallengeSent(lines);
      }
      return GenerationFailed;
    }
  }
}
