/**
 * The OAuth token state shared by the web handlers: the access token, the
 * refresh token and the instant the access token expires.  It is set by the
 * authorization callback and by the refresh step, and by nothing else.
 *
 * Time is an integer number of milliseconds; the provider's `expires_in` is
 * a number of seconds.
 */
module TokenLifecycle {
  import opened Wrappers

  const MillisPerSecond: nat := 1000

  /** The three token globals. A token the provider's reply lacked is `None`. */
  datatype TokenState = TokenState(accessToken: Option<string>, refreshToken: Option<string>, expiresAt: int)

  /** The JSON fields of a token-endpoint reply; each may be absent. */
  datatype TokenBody = TokenBody(accessToken: Option<string>, refreshToken: Option<string>, expiresIn: Option<nat>)

  /** A token-endpoint reply: its status code, and its body when the body is JSON. */
  datatype TokenReply = TokenReply(status: int, body: Option<TokenBody>)

  /**
   * What the refresh step did. `Raised` is a 200 reply whose body is not JSON,
   * lacks `expires_in`, or lacks the access token written to the `.env` file,
   * on which the step raises part-way.
   */
  datatype RefreshOutcome = NotDue | Refreshed | Rejected | Raised

  /**
   * What the callback did: stored the tokens, answered 400, or raised part-way
   * (a body that is not JSON, no `expires_in`, or a token missing when written to the `.env` file).
   */
  datatype CallbackOutcome = Stored | Rejected | Raised

  /** One call of the refresh step: forced or not, the clock, and the provider's reply. */
  datatype RefreshCall = RefreshCall(force: bool, now: int, reply: TokenReply)

  /** A refresh is attempted when forced or once the access token has expired. */
  predicate RefreshDue(force: bool, now: int, expiresAt: int)
  {
    force || now >= expiresAt
  }

  /** A 200 reply from which every assignment to the token state runs: JSON body with `expires_in`. */
  predicate Complete(reply: TokenReply)
  {
    reply.status == 200 && reply.body.Some? && reply.body.value.expiresIn.Some?
  }

  /**
   * A complete reply whose access token is present, so that writing it to the
   * `.env` file does not raise after the refresh step's assignments.
   */
  predicate RefreshSaved(reply: TokenReply)
  {
    Complete(reply) && reply.body.value.accessToken.Some?
  }

  /** A complete reply holding both tokens, so that the callback's `.env` writes do not raise. */
  predicate CallbackSaved(reply: TokenReply)
  {
    Complete(reply) && reply.body.value.accessToken.Some? && reply.body.value.refreshToken.Some?
  }

  function ExpiryAfter(now: int, expiresIn: nat): int
  {
    now + MillisPerSecond * expiresIn
  }

  function RefreshOutcomeOf(s: TokenState, force: bool, now: int, reply: TokenReply): RefreshOutcome
  {
    if !RefreshDue(force, now, s.expiresAt) then NotDue
    else if reply.status != 200 then RefreshOutcome.Rejected
    else if !RefreshSaved(reply) then RefreshOutcome.Raised
    else Refreshed
  }

  /**
   * The token state after the refresh step. Whatever the reply, the refresh
   * token is the one held before: a rotated refresh token in the reply is not read.
   */
  function AfterRefresh(s: TokenState, force: bool, now: int, reply: TokenReply): (r: TokenState)
    ensures r.refreshToken == s.refreshToken
  {
    if !RefreshDue(force, now, s.expiresAt) || reply.status != 200 || reply.body.None? then s
    else
      var body := reply.body.value;
      match body.expiresIn
      case None => s.(accessToken := body.accessToken)
      case Some(e) => s.(accessToken := body.accessToken, expiresAt := ExpiryAfter(now, e))
  }

  function CallbackOutcomeOf(reply: TokenReply): CallbackOutcome
  {
    if reply.status != 200 then CallbackOutcome.Rejected
    else if !CallbackSaved(reply) then CallbackOutcome.Raised
    else Stored
  }

  /** The token state after the authorization callback exchanged its code. */
  function AfterCallback(s: TokenState, now: int, reply: TokenReply): TokenState
  {
    if reply.status != 200 || reply.body.None? then s
    else
      var body := reply.body.value;
      match body.expiresIn
      case None => s.(accessToken := body.accessToken, refreshToken := body.refreshToken)
      case Some(e) => TokenState(body.accessToken, body.refreshToken, ExpiryAfter(now, e))
  }

  /** The token state after a sequence of refresh calls. */
  function RefreshAll(s: TokenState, calls: seq<RefreshCall>): TokenState
    decreases |calls|
  {
    if |calls| == 0 then s
    else RefreshAll(AfterRefresh(s, calls[0].force, calls[0].now, calls[0].reply), calls[1..])
  }

  /** The module-level token globals. */
  class TokenStore {
    var accessToken: Option<string>
    var refreshToken: Option<string>
    var expiresAt: int

    function State(): TokenState
      reads this
    {
      TokenState(accessToken, refreshToken, expiresAt)
    }

    /** The tokens loaded when the process starts. */
    constructor (initial: TokenState)
      ensures State() == initial
    {
      accessToken := initial.accessToken;
      refreshToken := initial.refreshToken;
      expiresAt := initial.expiresAt;
    }

    /** The refresh step: exchanges the refresh token when forced or expired. */
    method Refresh(force: bool, now: int, reply: TokenReply) returns (outcome: RefreshOutcome)
      modifies this
      ensures outcome == RefreshOutcomeOf(old(State()), force, now, reply)
      ensures State() == AfterRefresh(old(State()), force, now, reply)
    {
      if force || now >= expiresAt {
        if reply.status == 200 {
          if reply.body.None? {
            return RefreshOutcome.Raised;
          }
          var tokens := reply.body.value;
          accessToken := tokens.accessToken;
          if tokens.expiresIn.None? {
            return RefreshOutcome.Raised;
          }
          expiresAt := now + MillisPerSecond * tokens.expiresIn.value;
          if tokens.accessToken.None? {
            return RefreshOutcome.Raised;
          }
          outcome := Refreshed;
        } else {
          outcome := RefreshOutcome.Rejected;
        }
      } else {
        outcome := NotDue;
      }
    }

    /** The token assignments of the authorization callback. */
    method Callback(now: int, reply: TokenReply) returns (outcome: CallbackOutcome)
      modifies this
      ensures outcome == CallbackOutcomeOf(reply)
      ensures State() == AfterCallback(old(State()), now, reply)
    {
      if reply.status != 200 {
        return CallbackOutcome.Rejected;
      }
      if reply.body.None? {
        return CallbackOutcome.Raised;
      }
      var tokens := reply.body.value;
      accessToken := tokens.accessToken;
      refreshToken := tokens.refreshToken;
      if tokens.expiresIn.None? {
        return CallbackOutcome.Raised;
      }
      expiresAt := now + MillisPerSecond * tokens.expiresIn.value;
      if tokens.accessToken.None? || tokens.refreshToken.None? {
        return CallbackOutcome.Raised;
      }
      outcome := Stored;
    }
  }

  /** Not forced and not yet expired: nothing is attempted and nothing changes. */
  lemma NotDueLeavesState(s: TokenState, now: int, reply: TokenReply)
    requires now < s.expiresAt
    ensures RefreshOutcomeOf(s, false, now, reply) == NotDue
    ensures AfterRefresh(s, false, now, reply) == s
  {
  }

  /** A forced refresh is always attempted, whatever the expiry. */
  lemma ForcedRefreshAttempted(s: TokenState, now: int, reply: TokenReply)
    ensures RefreshOutcomeOf(s, true, now, reply) != NotDue
    ensures reply.status != 200 ==> RefreshOutcomeOf(s, true, now, reply) == RefreshOutcome.Rejected
  {
  }

  /** A non-200 reply changes none of the three fields, and a due call answered so is a rejection. */
  lemma RejectedRefreshLeavesState(s: TokenState, force: bool, now: int, reply: TokenReply)
    requires reply.status != 200
    ensures RefreshDue(force, now, s.expiresAt) ==> RefreshOutcomeOf(s, force, now, reply) == RefreshOutcome.Rejected
    ensures AfterRefresh(s, force, now, reply) == s
  {
  }

  /**
   * A due refresh answered 200 takes the new access token and sets the expiry
   * `expires_in` seconds after now; the refresh token stays, even when the reply rotates it.
   */
  lemma SuccessfulRefresh(s: TokenState, force: bool, now: int, reply: TokenReply)
    requires RefreshDue(force, now, s.expiresAt) && RefreshSaved(reply)
    ensures RefreshOutcomeOf(s, force, now, reply) == Refreshed
    ensures AfterRefresh(s, force, now, reply) ==
      TokenState(reply.body.value.accessToken, s.refreshToken, now + 1000 * reply.body.value.expiresIn.value)
  {
  }

  /** A due 200 reply whose body is not JSON raises before any assignment: nothing changes. */
  lemma RefreshWithoutBodyRaises(s: TokenState, force: bool, now: int)
    requires RefreshDue(force, now, s.expiresAt)
    ensures RefreshOutcomeOf(s, force, now, TokenReply(200, None)) == RefreshOutcome.Raised
    ensures AfterRefresh(s, force, now, TokenReply(200, None)) == s
  {
  }

  /**
   * A 200 reply without `expires_in` has already overwritten the access token
   * when the step raises; the expiry is left as it was.
   */
  lemma RefreshWithoutExpiryIsPartial(s: TokenState, force: bool, now: int, reply: TokenReply)
    requires RefreshDue(force, now, s.expiresAt)
    requires reply.status == 200 && reply.body.Some? && reply.body.value.expiresIn.None?
    ensures RefreshOutcomeOf(s, force, now, reply) == RefreshOutcome.Raised
    ensures AfterRefresh(s, force, now, reply) == s.(accessToken := reply.body.value.accessToken)
  {
  }

  /**
   * A complete 200 reply without `access_token` sets the access token to none
   * and the new expiry, then raises when the missing token is written to the `.env` file.
   */
  lemma RefreshWithoutAccessTokenRaises(s: TokenState, force: bool, now: int, reply: TokenReply)
    requires RefreshDue(force, now, s.expiresAt) && Complete(reply) && reply.body.value.accessToken.None?
    ensures RefreshOutcomeOf(s, force, now, reply) == RefreshOutcome.Raised
    ensures AfterRefresh(s, force, now, reply) ==
      TokenState(None, s.refreshToken, now + 1000 * reply.body.value.expiresIn.value)
  {
  }

  /** After a successful refresh, an unforced refresh does nothing until the new expiry. */
  lemma FreshTokenNotRefreshedAgain(s: TokenState, force: bool, now: int, reply: TokenReply, later: int, next: TokenReply)
    requires RefreshDue(force, now, s.expiresAt) && Complete(reply)
    requires later < now + 1000 * reply.body.value.expiresIn.value
    ensures var renewed := AfterRefresh(s, force, now, reply);
      RefreshOutcomeOf(renewed, false, later, next) == NotDue && AfterRefresh(renewed, false, later, next) == renewed
  {
  }

  /** A failed refresh is retried by the next unforced call, since the expiry it saw is unchanged. */
  lemma FailedRefreshRetried(s: TokenState, now: int, reply: TokenReply, later: int, next: TokenReply)
    requires RefreshDue(false, now, s.expiresAt) && reply.status != 200
    requires later >= now
    ensures RefreshOutcomeOf(AfterRefresh(s, false, now, reply), false, later, next) != NotDue
  {
  }

  /** No sequence of refreshes ever changes the refresh token. */
  lemma {:induction false} RefreshTokenSurvivesRefreshes(s: TokenState, calls: seq<RefreshCall>)
    ensures RefreshAll(s, calls).refreshToken == s.refreshToken
    decreases |calls|
  {
    if |calls| > 0 {
      RefreshTokenSurvivesRefreshes(AfterRefresh(s, calls[0].force, calls[0].now, calls[0].reply), calls[1..]);
    }
  }

  /** A sequence of refreshes whose replies all fail leaves the whole state as it was. */
  lemma {:induction false} FailedRefreshesLeaveState(s: TokenState, calls: seq<RefreshCall>)
    requires forall k :: 0 <= k < |calls| ==> calls[k].reply.status != 200
    ensures RefreshAll(s, calls) == s
    decreases |calls|
  {
    if |calls| > 0 {
      assert AfterRefresh(s, calls[0].force, calls[0].now, calls[0].reply) == s;
      FailedRefreshesLeaveState(s, calls[1..]);
    }
  }

  /** A 200 callback sets all three fields from the reply. */
  lemma CallbackStoresAll(s: TokenState, now: int, reply: TokenReply)
    requires CallbackSaved(reply)
    ensures CallbackOutcomeOf(reply) == Stored
    ensures AfterCallback(s, now, reply) ==
      TokenState(reply.body.value.accessToken, reply.body.value.refreshToken, now + 1000 * reply.body.value.expiresIn.value)
  {
  }

  /**
   * A 200 callback without `expires_in` has already stored both tokens when it
   * raises; the expiry is left as it was.
   */
  lemma CallbackWithoutExpiryIsPartial(s: TokenState, now: int, reply: TokenReply)
    requires reply.status == 200 && reply.body.Some? && reply.body.value.expiresIn.None?
    ensures CallbackOutcomeOf(reply) == CallbackOutcome.Raised
    ensures AfterCallback(s, now, reply) ==
      TokenState(reply.body.value.accessToken, reply.body.value.refreshToken, s.expiresAt)
  {
  }

  /**
   * A complete 200 callback lacking a token still sets all three fields, then
   * raises when the missing token is written to the `.env` file.
   */
  lemma CallbackWithoutTokenRaises(s: TokenState, now: int, reply: TokenReply)
    requires Complete(reply) && !CallbackSaved(reply)
    ensures CallbackOutcomeOf(reply) == CallbackOutcome.Raised
    ensures AfterCallback(s, now, reply) ==
      TokenState(reply.body.value.accessToken, reply.body.value.refreshToken, now + 1000 * reply.body.value.expiresIn.value)
  {
  }

  /** A 200 callback whose body is not JSON raises before any assignment: nothing changes. */
  lemma CallbackWithoutBodyRaises(s: TokenState, now: int)
    ensures CallbackOutcomeOf(TokenReply(200, None)) == CallbackOutcome.Raised
    ensures AfterCallback(s, now, TokenReply(200, None)) == s
  {
  }

  /** A non-200 callback changes nothing. */
  lemma RejectedCallbackLeavesState(s: TokenState, now: int, reply: TokenReply)
    requires reply.status != 200
    ensures CallbackOutcomeOf(reply) == CallbackOutcome.Rejected
    ensures AfterCallback(s, now, reply) == s
  {
  }

  /**
   * After a 200 callback with a JSON body (whether or not it then raises), any
   * run of refreshes still holds the refresh token the callback stored.
   */
  lemma CallbackRefreshTokenPersists(s: TokenState, now: int, reply: TokenReply, calls: seq<RefreshCall>)
    requires reply.status == 200 && reply.body.Some?
    ensures RefreshAll(AfterCallback(s, now, reply), calls).refreshToken == reply.body.value.refreshToken
  {
    RefreshTokenSurvivesRefreshes(AfterCallback(s, now, reply), calls);
  }
}
