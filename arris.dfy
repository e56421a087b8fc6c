/**
 * The router driver for the Arris SBG6580 and the radio toggle it inherits.
 *
 * The HTTP session is modelled by the replies its server will give, in
 * order: each request takes the next reply, and a request made when none is
 * left fails with `NoResponse`, which stands for every transport failure. The
 * driver records what it does (requests and pauses) in a trace.
 *
 * Each operation is specified by a pure function from the router address and
 * the replies still to come to an `Exchange`: the outcome, the actions taken
 * and the replies left. The methods of the class are proved to perform
 * exactly that exchange on their object.
 */
module Arris {
  import opened Wrappers
  import opened Protocol
  import Nonce

  const DefaultUsername: string := "admin"
  const DefaultIp: string := "192.168.0.1"
  /** Seconds the radio stays off during a toggle when the caller gives none. */
  const DefaultWait: nat := 5

  /** Why a step of the driver failed; the checks of the driver are assertions. */
  datatype Fault =
    | NoResponse                     // the session got no reply
    | LoginRefused                   // the login reply still shows the login page
    | NonceMissing                   // the settings page has no nonce field
    | CommitShowsLogin               // the commit reply shows the login page
    | CommitShowsError(reply: string) // the commit reply reports an error; the text is the message

  /** The step of a toggle in which a fault arose. */
  datatype Phase = Disabling | Enabling

  datatype ToggleFault = ToggleFault(phase: Phase, cause: Fault)

  /** What the driver does, in order. */
  datatype Action = Send(request: Request) | Sleep(seconds: nat)

  /** The outcome of an operation, the actions it took and the replies it left. */
  datatype Exchange<E> = Exchange(outcome: Outcome<E>, actions: seq<Action>, rest: seq<string>)

  /** The replies left after `n` requests, one reply consumed per request while any remain. */
  function Drop(replies: seq<string>, n: nat): seq<string>
  {
    if n <= |replies| then replies[n..] else []
  }

  /** The login POST and its check. */
  function LoginExchange(ip: string, username: string, password: string, replies: seq<string>)
    : (x: Exchange<Fault>)
    ensures x.actions == [Send(LoginRequest(ip, username, password))]
    ensures x.outcome.Pass? <==> |replies| > 0 && LoginAccepted(replies[0])
    ensures x.outcome.Fail? ==> x.outcome.error == if |replies| == 0 then NoResponse else LoginRefused
    ensures x.rest == Drop(replies, 1)
  {
    var sent := [Send(LoginRequest(ip, username, password))];
    if |replies| == 0 then Exchange(Fail(NoResponse), sent, [])
    else if Contains(replies[0], "login") then Exchange(Fail(LoginRefused), sent, replies[1..])
    else Exchange(Pass, sent, replies[1..])
  }

  /** The two checks of the commit reply, the login marker first. */
  function CommitVerdict(reply: string): (o: Outcome<Fault>)
    ensures o.Pass? <==> CommitAccepted(reply)
    ensures o.Fail? ==> o.error == if Contains(reply, "login") then CommitShowsLogin else CommitShowsError(reply)
  {
    if Contains(reply, "login") then Fail(CommitShowsLogin)
    else if Contains(reply, "Error") then Fail(CommitShowsError(reply))
    else Pass
  }

  /**
   * Switching the radio: GET the settings page, extract the nonce, POST the
   * commit form, check the reply. The GET always comes first, and without a
   * nonce there is no POST.
   */
  function RadioExchange(ip: string, replies: seq<string>, enable: bool): (x: Exchange<Fault>)
    ensures 1 <= |x.actions| <= 2 && x.actions[0] == Send(RadioPageRequest(ip))
    ensures |x.actions| == 2 <==> |replies| > 0 && Nonce.ExtractNonce(replies[0]).Some?
    ensures |x.actions| == 2 ==>
      x.actions[1] == Send(CommitRequest(ip, Nonce.ExtractNonce(replies[0]).value, enable))
    ensures |replies| > 0 && Nonce.ExtractNonce(replies[0]).None? ==> x.outcome == Fail(NonceMissing)
    ensures x.outcome.Pass? <==>
      |replies| >= 2 && Nonce.ExtractNonce(replies[0]).Some? && CommitAccepted(replies[1])
    ensures |replies| >= 2 && Nonce.ExtractNonce(replies[0]).Some? ==>
      x.outcome == CommitVerdict(replies[1])
    ensures |replies| == 0 || (|replies| == 1 && Nonce.ExtractNonce(replies[0]).Some?) ==>
      x.outcome == Fail(NoResponse)
    ensures x.rest == Drop(replies, |x.actions|)
  {
    var get := Send(RadioPageRequest(ip));
    if |replies| == 0 then Exchange(Fail(NoResponse), [get], [])
    else match Nonce.ExtractNonce(replies[0])
      case None => Exchange(Fail(NonceMissing), [get], replies[1..])
      case Some(token) =>
        var post := Send(CommitRequest(ip, token, enable));
        if |replies| == 1 then Exchange(Fail(NoResponse), [get, post], [])
        else Exchange(CommitVerdict(replies[1]), [get, post], replies[2..])
  }

  /** A toggle that succeeds: both pages carry a nonce and both commits are accepted. */
  ghost predicate ToggleSucceeds(replies: seq<string>)
  {
    && |replies| >= 4
    && Nonce.ExtractNonce(replies[0]).Some? && CommitAccepted(replies[1])
    && Nonce.ExtractNonce(replies[2]).Some? && CommitAccepted(replies[3])
  }

  /**
   * `toggle_radio(wait)`: disable, pause, enable. A failed disable ends the
   * toggle before the pause; a failed enable leaves the radio switched off
   * after the pause, and the fault says which phase failed.
   */
  function ToggleExchange(ip: string, replies: seq<string>, wait: nat): (x: Exchange<ToggleFault>)
    ensures x.outcome.Fail? && x.outcome.error.phase == Disabling ==>
      x == Exchange(x.outcome, RadioExchange(ip, replies, false).actions, RadioExchange(ip, replies, false).rest)
  {
    var first := RadioExchange(ip, replies, false);
    match first.outcome
    case Fail(e) => Exchange(Fail(ToggleFault(Disabling, e)), first.actions, first.rest)
    case Pass =>
      var second := RadioExchange(ip, first.rest, true);
      var outcome := match second.outcome
        case Pass => Pass
        case Fail(e) => Fail(ToggleFault(Enabling, e));
      Exchange(outcome, first.actions + [Sleep(wait)] + second.actions, second.rest)
  }

  /** A toggle passes exactly when both switches pass, and it then does the five steps in order. */
  lemma ToggleSuccess(ip: string, replies: seq<string>, wait: nat)
    ensures var x := ToggleExchange(ip, replies, wait);
      x.outcome.Pass? <==> ToggleSucceeds(replies)
    ensures var x := ToggleExchange(ip, replies, wait);
      ToggleSucceeds(replies) ==>
        x.actions == [Send(RadioPageRequest(ip)),
                      Send(CommitRequest(ip, Nonce.ExtractNonce(replies[0]).value, false)),
                      Sleep(wait),
                      Send(RadioPageRequest(ip)),
                      Send(CommitRequest(ip, Nonce.ExtractNonce(replies[2]).value, true))]
        && x.rest == replies[4..]
  {
    var first := RadioExchange(ip, replies, false);
    if first.outcome.Pass? {
      assert first.rest == replies[2..];
      if |replies| >= 4 {
        assert replies[2..][0] == replies[2];
        assert replies[2..][1] == replies[3];
        assert replies[2..][2..] == replies[4..];
      }
    }
  }

  /** A failed disable ends the toggle: no pause, no second page fetch, and the fault names the disable phase. */
  lemma DisableFailureAborts(ip: string, replies: seq<string>, wait: nat)
    requires RadioExchange(ip, replies, false).outcome.Fail?
    ensures var x := ToggleExchange(ip, replies, wait);
      && x.outcome == Fail(ToggleFault(Disabling, RadioExchange(ip, replies, false).outcome.error))
      && x.actions == RadioExchange(ip, replies, false).actions
      && |x.actions| <= 2
      && forall i :: 0 <= i < |x.actions| ==> x.actions[i].Send?
  {
  }

  /**
   * A failed enable happens after the radio was switched off and the pause
   * was taken: the radio is left off, and the fault names the enable phase.
   */
  lemma EnableFailureLeavesRadioOff(ip: string, replies: seq<string>, wait: nat)
    requires RadioExchange(ip, replies, false).outcome.Pass?
    requires RadioExchange(ip, replies[2..], true).outcome.Fail?
    ensures var x := ToggleExchange(ip, replies, wait);
      && x.outcome == Fail(ToggleFault(Enabling, RadioExchange(ip, replies[2..], true).outcome.error))
      && |x.actions| >= 4
      && x.actions[1] == Send(CommitRequest(ip, Nonce.ExtractNonce(replies[0]).value, false))
      && x.actions[2] == Sleep(wait)
      && x.actions[3] == Send(RadioPageRequest(ip))
  {
    var first := RadioExchange(ip, replies, false);
    assert first.rest == replies[2..];
  }

  /** A settings page whose hidden nonce field carries `token`. */
  function SettingsPage(token: string): string
  {
    Nonce.Prefix + token + ">"
  }

  /**
   * A toggle against two freshly rendered settings pages, each commit
   * accepted, disables with the first page's token, pauses, and enables with
   * the second page's token.
   */
  lemma ToggleWithFreshTokens(ip: string, t1: string, t2: string, ok1: string, ok2: string, wait: nat)
    requires Nonce.IsWord(t1) && Nonce.IsWord(t2)
    requires CommitAccepted(ok1) && CommitAccepted(ok2)
    ensures ToggleExchange(ip, [SettingsPage(t1), ok1, SettingsPage(t2), ok2], wait)
         == Exchange(Pass,
                     [Send(RadioPageRequest(ip)), Send(CommitRequest(ip, t1, false)), Sleep(wait),
                      Send(RadioPageRequest(ip)), Send(CommitRequest(ip, t2, true))],
                     [])
  {
    var replies := [SettingsPage(t1), ok1, SettingsPage(t2), ok2];
    Nonce.RenderedNonce("", t1, "");
    Nonce.RenderedNonce("", t2, "");
    assert "" + Nonce.Prefix + t1 + ">" + "" == SettingsPage(t1);
    assert "" + Nonce.Prefix + t2 + ">" + "" == SettingsPage(t2);
    ToggleSuccess(ip, replies, wait);
  }

  /** A router reached through one HTTP session. */
  class ArrisSbg6580 {
    const ip: string
    /** The replies the session will still receive, in order. */
    var replies: seq<string>
    /** The requests and pauses of the driver so far, in order. */
    var trace: seq<Action>
    /** Whether the login of this session was accepted; only then is the object handed out. */
    ghost var loggedIn: bool

    /** A fresh session with the router at `ip`, before any request and before the login. */
    constructor (ip: string, replies: seq<string>)
      ensures this.ip == ip && this.replies == replies && trace == [] && !loggedIn
    {
      this.ip := ip;
      this.replies := replies;
      trace := [];
      loggedIn := false;
    }

    /** One request through the session: recorded, and answered by the next reply if there is one. */
    method Issue(request: Request) returns (reply: Option<string>)
      modifies this`trace, this`replies
      ensures trace == old(trace) + [Send(request)]
      ensures reply == if |old(replies)| == 0 then None else Some(old(replies)[0])
      ensures replies == Drop(old(replies), 1)
    {
      trace := trace + [Send(request)];
      if |replies| == 0 {
        reply := None;
      } else {
        reply := Some(replies[0]);
        replies := replies[1..];
      }
    }

    /** The login POST of the constructor and its check. */
    method Login(password: string, username: string := DefaultUsername) returns (outcome: Outcome<Fault>)
      modifies this
      ensures var x := LoginExchange(ip, username, password, old(replies));
        outcome == x.outcome && trace == old(trace) + x.actions && replies == x.rest
      ensures loggedIn == outcome.Pass?
    {
      var reply := Issue(LoginRequest(ip, username, password));
      match reply {
        case None =>
          outcome := Fail(NoResponse);
        case Some(text) =>
          outcome := if LoginAccepted(text) then Pass else Fail(LoginRefused);
      }
      loggedIn := outcome.Pass?;
    }

    /** `_radio(enable)`: GET the settings page, extract the nonce, POST the commit, check the reply. */
    method Radio(enable: bool := true) returns (outcome: Outcome<Fault>)
      requires loggedIn
      modifies this`trace, this`replies
      ensures var x := RadioExchange(ip, old(replies), enable);
        outcome == x.outcome && trace == old(trace) + x.actions && replies == x.rest
    {
      var page := Issue(RadioPageRequest(ip));
      if page.None? {
        return Fail(NoResponse);
      }
      var token := Nonce.ExtractNonce(page.value);
      if token.None? {
        return Fail(NonceMissing);
      }
      var reply := Issue(CommitRequest(ip, token.value, enable));
      if reply.None? {
        return Fail(NoResponse);
      }
      if Contains(reply.value, "login") {
        return Fail(CommitShowsLogin);
      }
      if Contains(reply.value, "Error") {
        return Fail(CommitShowsError(reply.value));
      }
      outcome := Pass;
    }

    /** `toggle_radio(wait)`: switch the radio off, pause, switch it on. */
    method ToggleRadio(wait: nat := DefaultWait) returns (outcome: Outcome<ToggleFault>)
      requires loggedIn
      modifies this`trace, this`replies
      ensures var x := ToggleExchange(ip, old(replies), wait);
        outcome == x.outcome && trace == old(trace) + x.actions && replies == x.rest
    {
      ghost var before, start := replies, trace;
      ghost var first := RadioExchange(ip, before, false);
      var off := Radio(false);
      if off.Fail? {
        outcome := Fail(ToggleFault(Disabling, off.error));
        assert ToggleExchange(ip, before, wait) == Exchange(outcome, first.actions, first.rest);
        return;
      }
      trace := trace + [Sleep(wait)];
      ghost var second := RadioExchange(ip, first.rest, true);
      var on := Radio(true);
      outcome := if on.Pass? then Pass else Fail(ToggleFault(Enabling, on.error));
      assert trace == start + (first.actions + [Sleep(wait)] + second.actions);
      assert ToggleExchange(ip, before, wait)
          == Exchange(outcome, first.actions + [Sleep(wait)] + second.actions, second.rest);
    }
  }

  /**
   * `ArrisSbg6580(password, username, ip)`: open a session and log in; a
   * refused login yields no router.
   */
  method Open(replies: seq<string>, password: string, username: string := DefaultUsername,
              ip: string := DefaultIp)
    returns (r: Result<ArrisSbg6580, Fault>)
    ensures var x := LoginExchange(ip, username, password, replies);
      && (r.Success? <==> x.outcome.Pass?)
      && (r.Failure? ==> x.outcome == Fail(r.error))
      && (r.Success? ==> fresh(r.value) && r.value.ip == ip && r.value.loggedIn
                         && r.value.trace == x.actions && r.value.replies == x.rest)
  {
    var router := new ArrisSbg6580(ip, replies);
    var login := router.Login(password, username);
    if login.Fail? {
      return Failure(login.error);
    }
    r := Success(router);
  }
}
