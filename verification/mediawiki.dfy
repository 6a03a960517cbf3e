/**
 * The MediaWiki session: a state machine over the remote API's single logged-in flag.
 * The remote API itself is an oracle: each call's outcome is a parameter, and the calls
 * actually made are recorded in order in `calls`.
 */
module MediaWiki {
  import opened Wrappers
  import opened Model

  /** The failure kinds the session reports; `IOError` is an `IOException` that escapes unwrapped. */
  datatype Failure = NotLoggedIn | FailedLogin | FailedUpload | FailedLogout | IOError

  /** One call into the remote API. */
  datatype ApiCall = ApiLogin(user: User) | ApiUpload(file: File) | ApiLogout

  /** What the remote API does with a login request: an `IOException`, or an answer that logs in or not. */
  datatype LoginReply = LoginIOError | LoginAnswered(accepted: bool)

  /** The environment's answers for one `upload` invocation. */
  datatype UploadOracle = UploadOracle(login: LoginReply, fileOpens: bool, apiUploadOk: bool)

  /** The observable effect of a session operation: its outcome, the API calls it made, and the flag afterwards. */
  datatype SessionStep = SessionStep(result: Outcome<Failure>, calls: seq<ApiCall>, loggedIn: bool)

  /** Outcome and new flag of one login request. */
  function LoginSpec(loggedIn: bool, user: User, reply: LoginReply): (s: SessionStep)
    ensures s.calls == [ApiLogin(user)]
    ensures s.result == Pass <==> reply == LoginAnswered(true)
    ensures s.result == Pass ==> s.loggedIn
    ensures s.result == Fail(NotLoggedIn) <==> reply == LoginAnswered(false)
    ensures s.result == Fail(NotLoggedIn) ==> !s.loggedIn
    ensures s.result == Fail(FailedLogin) <==> reply == LoginIOError
    ensures reply == LoginIOError ==> s.loggedIn == loggedIn
  {
    match reply
    case LoginIOError => SessionStep(Fail(FailedLogin), [ApiLogin(user)], loggedIn)
    case LoginAnswered(accepted) =>
      SessionStep(if accepted then Pass else Fail(NotLoggedIn), [ApiLogin(user)], accepted)
  }

  /** The transfer done once logged in: open the file, then one API upload call. */
  function TransferSpec(file: File, o: UploadOracle): (s: SessionStep)
    ensures s.loggedIn
    ensures s.calls == [] <==> !o.fileOpens
    ensures s.calls != [] ==> s.calls == [ApiUpload(file)]
    ensures s.result == Pass <==> o.fileOpens && o.apiUploadOk
    ensures s.result == Fail(IOError) <==> !o.fileOpens
  {
    if !o.fileOpens then SessionStep(Fail(IOError), [], true)
    else SessionStep(if o.apiUploadOk then Pass else Fail(Failure.FailedUpload), [ApiUpload(file)], true)
  }

  /**
   * The whole effect of `upload`, written without recursion: when logged out, one login and then
   * the transfer; when logged in, the transfer alone.
   */
  function UploadSpec(loggedIn: bool, user: User, file: File, o: UploadOracle): (s: SessionStep)
    ensures ApiLogout !in s.calls
    ensures s.result != Fail(FailedLogout)
  {
    if loggedIn then TransferSpec(file, o)
    else
      var l := LoginSpec(loggedIn, user, o.login);
      if l.result.Fail? then l
      else
        var t := TransferSpec(file, o);
        SessionStep(t.result, l.calls + t.calls, t.loggedIn)
  }

  /**
   * What one `upload` does on the wire and how it ends: no login when already logged in, the file
   * is sent exactly when it opens and the session is (or gets) logged in, an API refusal is the
   * only `FailedUpload`, and success leaves the session logged in with the upload as last call.
   */
  lemma UploadShape(loggedIn: bool, user: User, file: File, o: UploadOracle)
    ensures var s := UploadSpec(loggedIn, user, file, o);
      && (loggedIn ==> ApiLogin(user) !in s.calls)
      && (s.calls == [] || s.calls == [ApiUpload(file)] || s.calls == [ApiLogin(user)]
          || s.calls == [ApiLogin(user), ApiUpload(file)])
      && (s.result == Pass ==> s.loggedIn && |s.calls| > 0 && s.calls[|s.calls| - 1] == ApiUpload(file))
      && (ApiUpload(file) in s.calls <==> o.fileOpens && (loggedIn || o.login == LoginAnswered(true)))
      && (s.result == Fail(Failure.FailedUpload) <==>
            o.fileOpens && !o.apiUploadOk && (loggedIn || o.login == LoginAnswered(true)))
      && (s.result == Fail(IOError) <==> !o.fileOpens && (loggedIn || o.login == LoginAnswered(true)))
      && (!loggedIn && o.login == LoginIOError ==> s.result == Fail(FailedLogin) && !s.loggedIn)
      && (!loggedIn && o.login == LoginAnswered(false) ==> s.result == Fail(NotLoggedIn) && !s.loggedIn)
  {
  }

  /** Effect of `logout`: nothing when logged out, otherwise one API logout call. */
  function LogoutSpec(loggedIn: bool, ioOk: bool): (s: SessionStep)
    ensures !loggedIn ==> s == SessionStep(Pass, [], false)
    ensures loggedIn ==> s.calls == [ApiLogout]
    ensures s.result == Pass <==> !loggedIn || ioOk
    ensures s.result.Fail? ==> s.result.error == FailedLogout && s.loggedIn
    ensures s.result == Pass ==> !s.loggedIn
  {
    if !loggedIn then SessionStep(Pass, [], false)
    else if ioOk then SessionStep(Pass, [ApiLogout], false)
    else SessionStep(Fail(FailedLogout), [ApiLogout], true)
  }

  /** Number of login calls in an API call log. */
  function Logins(calls: seq<ApiCall>): nat
  {
    if calls == [] then 0 else (if calls[0].ApiLogin? then 1 else 0) + Logins(calls[1..])
  }

  /** Number of upload calls in an API call log. */
  function Uploads(calls: seq<ApiCall>): nat
  {
    if calls == [] then 0 else (if calls[0].ApiUpload? then 1 else 0) + Uploads(calls[1..])
  }

  /**
   * The re-login bound: one `upload` makes at most one login and at most one API upload call,
   * and the upload call always comes after any login.
   */
  lemma UploadCallBounds(loggedIn: bool, user: User, file: File, o: UploadOracle)
    ensures var s := UploadSpec(loggedIn, user, file, o);
      Logins(s.calls) <= 1 && Uploads(s.calls) <= 1 && (loggedIn ==> Logins(s.calls) == 0)
      && forall i, j :: 0 <= i < j < |s.calls| ==> !(s.calls[i].ApiUpload? && s.calls[j].ApiLogin?)
  {
    var s := UploadSpec(loggedIn, user, file, o);
    UploadShape(loggedIn, user, file, o);
    if s.calls == [ApiLogin(user), ApiUpload(file)] {
      assert s.calls[1..] == [ApiUpload(file)] && s.calls[1..][1..] == [];
      assert Uploads(s.calls[1..]) == 1 && Logins(s.calls[1..]) == 0;
    } else if s.calls != [] {
      assert s.calls[1..] == [];
    }
  }

  /** The session to one wiki, over the remote API's logged-in flag. */
  class MediaWikiImpl {
    const wiki: Wiki
    /** The remote API's own logged-in flag. */
    var loggedIn: bool
    /** Every remote API call made through this session, in order. */
    var calls: seq<ApiCall>

    constructor (wiki: Wiki)
      ensures this.wiki == wiki && !loggedIn && calls == []
    {
      this.wiki := wiki;
      loggedIn := false;
      calls := [];
    }

    /** Logs in with the wiki's user; a rejected login is `NotLoggedIn`, an `IOException` is `FailedLogin`. */
    method Login(reply: LoginReply) returns (r: Outcome<Failure>)
      modifies this`loggedIn, this`calls
      ensures var s := LoginSpec(old(loggedIn), wiki.user, reply);
        r == s.result && loggedIn == s.loggedIn && calls == old(calls) + s.calls
    {
      calls := calls + [ApiLogin(wiki.user)];
      match reply {
        case LoginIOError =>
          r := Fail(FailedLogin);
        case LoginAnswered(accepted) =>
          loggedIn := accepted;
          if !loggedIn {
            r := Fail(NotLoggedIn);
          } else {
            r := Pass;
          }
      }
    }

    /** The remote API's logged-in flag, as it stands. */
    function IsLoggedIn(): (b: bool)
      reads this
      ensures b <==> loggedIn
    {
      loggedIn
    }

    /**
     * Uploads `picture`. When logged out, logs in once and calls itself again; the recursion is one
     * level deep because a login that returns normally leaves the session logged in.
     */
    method Upload(picture: Picture, o: UploadOracle) returns (r: Outcome<Failure>)
      modifies this`loggedIn, this`calls
      decreases if loggedIn then 0 else 1
      ensures var s := UploadSpec(old(loggedIn), wiki.user, picture.file, o);
        r == s.result && loggedIn == s.loggedIn && calls == old(calls) + s.calls
    {
      if loggedIn {
        if !o.fileOpens {
          r := Fail(IOError);
          return;
        }
        calls := calls + [ApiUpload(picture.file)];
        if o.apiUploadOk {
          r := Pass;
        } else {
          r := Fail(Failure.FailedUpload);
        }
      } else {
        r := Login(o.login);
        if r.Fail? {
          return;
        }
        r := Upload(picture, o);
      }
    }

    /** Logs out; a no-op when logged out, and an `IOException` from the API becomes `FailedLogout`. */
    method Logout(ioOk: bool) returns (r: Outcome<Failure>)
      modifies this`loggedIn, this`calls
      ensures var s := LogoutSpec(old(loggedIn), ioOk);
        r == s.result && loggedIn == s.loggedIn && calls == old(calls) + s.calls
    {
      if loggedIn {
        calls := calls + [ApiLogout];
        if ioOk {
          loggedIn := false;
          r := Pass;
        } else {
          r := Fail(FailedLogout);
        }
      } else {
        r := Pass;
      }
    }
  }
}
