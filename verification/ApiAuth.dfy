/** The authentication routes and the guard in front of every write, over the session store and
    the stored credentials. */
module ApiAuth {
  import opened PasswordHash
  import opened PasswordRuns
  import opened SessionHistory
  import opened Sessions
  import Cookies
  import LoginThrottle

  const COOKIE := "tibackup_sid"

  datatype Verdict = Pass | Unauthorized | Forbidden

  datatype Status = Ok | BadRequest | InvalidCredentials | SetupDone | SetupRequired | TooManyRequests

  /** What the guard must answer, from the history of the store alone. */
  ghost function GuardVerdict(h: seq<Event>, ttl: int, token: string, csrf: string, now: int): Verdict {
    if !Live(h, ttl, token, now) then Unauthorized
    else if Minted(h, token) == "" || csrf != Minted(h, token) then Forbidden
    else Pass
  }

  function OutcomeOf(c: Crypto, s: Credentials, pw: string): LoginThrottle.Outcome {
    if s.passhash == "" then LoginThrottle.NoPassword
    else if Verifies(c, pw, s.salt, s.passhash) then LoginThrottle.Right
    else LoginThrottle.Wrong
  }

  /** From a gate that lets the client in: its failures go up by one (from zero if it was locked before),
      or the fifth one locks it for 300 seconds; no other client's gate changes. */
  ghost predicate OneMoreFailure(g: LoginThrottle.Gates, logins: LoginThrottle.Gates, client: string, now: int) {
    var fails := if client in g && g[client].lockedUntil == 0 then g[client].fails else 0;
    logins == g[client := if fails >= 4 then LoginThrottle.LoginGate(0, now + 300) else LoginThrottle.LoginGate(fails + 1, 0)]
  }

  class ApiRouter {
    const crypto: Crypto
    const store: SessionStore
    var passhash: string
    var salt: string

    constructor (crypto: Crypto, store: SessionStore, passhash: string, salt: string)
      ensures this.crypto == crypto && this.store == store
      ensures Stored() == Credentials(passhash, salt)
    {
      this.crypto, this.store, this.passhash, this.salt := crypto, store, passhash, salt;
    }

    function Stored(): Credentials
      reads this
    {
      Credentials(passhash, salt)
    }

    /** The session check followed by the CSRF check, as every write handler runs them. */
    method Guard(cookieHeader: string, csrfHeader: string, now: int) returns (verdict: Verdict)
      requires store.Valid() && NotBefore(now, store.history)
      modifies store`sessions, store`history
      ensures var token := Cookies.ValueIn(cookieHeader, COOKIE);
              && verdict == GuardVerdict(old(store.history), store.ttl, token, csrfHeader, now)
              && store.history == old(store.history) + [Validate(now, token)]
              && store.sessions == AfterValidate(old(store.sessions), store.ttl, token, now)
      ensures store.Valid()
    {
      var token := Cookies.CookieValue(cookieHeader, COOKIE);
      AcceptsIffLive(store.sessions, store.ttl, store.history, token, now);
      var authed := store.Validate(token, now);
      if !authed {
        return Unauthorized;
      }
      var want := store.GetCsrf(token);
      if want == "" || csrfHeader != want {
        return Forbidden;
      }
      return Pass;
    }

    method Setup(pw: string, raw: bytes, now: int, token: string, csrf: string) returns (status: Status)
      requires store.Valid() && NotBefore(now, store.history)
      modifies `passhash, `salt, store`sessions, store`history
      ensures store.Valid()
      ensures Stored() == After(crypto, old(Stored()), PasswordRuns.Setup(pw, raw))
      ensures status == if old(passhash) != "" then SetupDone
                        else if |pw| < MIN_LENGTH then BadRequest else Ok
      ensures store.history == old(store.history) + if status == Ok then [Create(now, token, csrf)] else []
      ensures status == Ok <==> SetupSucceeds(old(Stored()), PasswordRuns.Setup(pw, raw))
    {
      if passhash != "" {
        return SetupDone;
      }
      if |pw| < MIN_LENGTH {
        return BadRequest;
      }
      salt := ToHex(raw);
      passhash := Hash(crypto, pw, salt, DEFAULT_ITERATIONS);
      store.CreateSession(now, token, csrf);
      return Ok;
    }

    /** `asked` is the clock when the request starts, `checked` after the credential check. */
    method Login(client: string, pw: string, raw: bytes, asked: int, checked: int, token: string, csrf: string)
      returns (status: Status)
      requires store.Valid() && NotBefore(asked, store.history) && asked <= checked
      modifies `passhash, `salt, store`sessions, store`history, store`logins
      ensures store.Valid()
      ensures var request := LoginThrottle.Request(client, asked, checked, OutcomeOf(crypto, old(Stored()), pw));
              store.logins == LoginThrottle.AfterLogin(old(store.logins), request)
      ensures status == if !LoginThrottle.Allowed(old(store.logins), client, asked) then TooManyRequests
                        else if old(passhash) == "" then SetupRequired
                        else if !Verifies(crypto, pw, old(salt), old(passhash)) then InvalidCredentials
                        else Ok
      ensures var event := PasswordRuns.Login(LoginThrottle.Allowed(old(store.logins), client, asked), pw, raw);
              && Stored() == After(crypto, old(Stored()), event)
              && (status == Ok <==> LoginSucceeds(crypto, old(Stored()), event))
      ensures store.history == old(store.history) + if status == Ok then [Create(checked, token, csrf)] else []
    {
      var allowed := store.LoginAllowed(client, asked);
      if !allowed {
        return TooManyRequests;
      }
      if passhash == "" {
        return SetupRequired;
      }
      var verified := Verify(crypto, pw, salt, passhash);
      if !verified {
        store.LoginFailed(client, checked);
        return InvalidCredentials;
      }
      store.LoginSucceeded(client);
      if NeedsUpgrade(passhash) {
        salt := ToHex(raw);
        passhash := Hash(crypto, pw, salt, DEFAULT_ITERATIONS);
      }
      store.CreateSession(checked, token, csrf);
      return Ok;
    }

    method Logout(cookieHeader: string, csrfHeader: string, now: int) returns (verdict: Verdict)
      requires store.Valid() && NotBefore(now, store.history)
      modifies store`sessions, store`history
      ensures store.Valid()
      ensures var token := Cookies.ValueIn(cookieHeader, COOKIE);
              && verdict == GuardVerdict(old(store.history), store.ttl, token, csrfHeader, now)
              && store.history == old(store.history) + [Validate(now, token)]
                                  + if verdict == Pass then [Drop(now, token)] else []
    {
      verdict := Guard(cookieHeader, csrfHeader, now);
      if verdict == Pass {
        var token := Cookies.CookieValue(cookieHeader, COOKIE);
        store.DropSession(token, now);
      }
    }
  }

  // ---- What the guard lets through -----------------------------------------------------------

  /** For a well-formed Cookie header, by the session its first session cookie names: a write is
      unauthorized exactly when that is not live by history, and otherwise passes exactly when the
      header carries the nonempty CSRF token minted with it, and is forbidden if not. */
  lemma WritePassesIff(h: seq<Event>, ttl: int, cookies: seq<Cookies.Pair>, csrf: string, now: int)
    requires forall i | 0 <= i < |cookies| :: Cookies.WellFormed(cookies[i])
    ensures var token := Cookies.FirstValue(cookies, COOKIE);
            var verdict := GuardVerdict(h, ttl, Cookies.ValueIn(Cookies.Render(cookies), COOKIE), csrf, now);
            && (verdict == Unauthorized <==> !Live(h, ttl, token, now))
            && (verdict == Pass <==> Live(h, ttl, token, now) && csrf == Minted(h, token) != "")
            && (verdict == Forbidden <==> Live(h, ttl, token, now) && (csrf != Minted(h, token) || csrf == ""))
  {
    Cookies.ReadsFirstCookie(cookies, COOKIE);
  }

  /** What a login does to the gates, by what the password check says: refused, nothing; before setup, an
      elapsed lock is forgotten; a wrong password, one more failure or the lock; a right one clears the
      client's gate. */
  lemma LoginMovesGate(c: Crypto, s: Credentials, g: LoginThrottle.Gates, client: string, pw: string, asked: int, checked: int)
    requires 0 <= asked <= checked
    ensures var after := LoginThrottle.AfterLogin(g, LoginThrottle.Request(client, asked, checked, OutcomeOf(c, s, pw)));
            if client in g && g[client].lockedUntil > asked then after == g
            else if s.passhash == "" then after == if client in g && g[client].lockedUntil != 0 then g - {client} else g
            else if Verifies(c, pw, s.salt, s.passhash) then after == g - {client}
            else OneMoreFailure(g, after, client, checked)
  {
    if client in g && g[client].lockedUntil <= asked && OutcomeOf(c, s, pw) == LoginThrottle.Wrong {
      assert LoginThrottle.GateOf(LoginThrottle.AfterAllowed(g, client, asked), client).lockedUntil <= 0;
    }
  }

  /** After a logout that passed, no request with that token passes again until it is minted anew. */
  lemma LogoutIsFinal(h: seq<Event>, ttl: int, token: string, now: int, later: seq<Event>, at: int, csrf: string)
    requires var out := h + [Drop(now, token)];
             && Ordered(out + later) && NotBefore(at, out + later) && NeverCreated(later, token)
    ensures GuardVerdict(h + [Drop(now, token)] + later, ttl, token, csrf, at) == Unauthorized
  {
    var out := h + [Drop(now, token)];
    var all := out + later;
    assert out[..|out| - 1] == h && out[|out| - 1] == Drop(now, token);
    assert Touches(out, token) == [];
    assert all[|h|] == Drop(now, token);
    assert forall i | 0 <= i < |out| :: all[i] == out[i];
    forall i | 0 <= i < |later|
      ensures now <= later[i].now
    {
      assert all[|out| + i] == later[i];
    }
    DeadStaysDead(out, ttl, token, now, later, at);
  }
}
