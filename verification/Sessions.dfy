/** The in-memory session store: one table of sessions, one table of login gates. */
module Sessions {
  import opened SessionHistory
  import opened LoginThrottle

  /** Every method is one critical section of the store's mutex, so calls are atomic. The clock is
      read once per call and passed in; fresh random tokens are passed in too. */
  class SessionStore {
    var sessions: map<string, Session>
    var logins: map<string, LoginGate>
    const ttl: int

    ghost var history: seq<Event>

    /** The table answers for the history of calls. */
    ghost predicate Valid()
      reads this
    {
      Ordered(history) && Agrees(sessions, ttl, history) && CountsBelowMax(logins)
    }

    constructor (ttlSeconds: int)
      ensures Valid() && ttl == ttlSeconds
      ensures sessions == map[] && logins == map[] && history == []
    {
      ttl := ttlSeconds;
      sessions, logins, history := map[], map[], [];
    }

    method PurgeExpired(now: int)
      modifies `sessions
      ensures sessions == Purge(old(sessions), ttl, now)
    {
      var rest := sessions.Keys;
      while rest != {}
        invariant rest <= sessions.Keys <= old(sessions).Keys
        invariant forall t | t in sessions :: sessions[t] == old(sessions)[t]
        invariant forall t | t in old(sessions) && t !in rest ::
                    t in sessions <==> now - old(sessions)[t].lastSeen <= ttl
        decreases rest
      {
        var t :| t in rest;
        if now - sessions[t].lastSeen > ttl {
          sessions := sessions - {t};
        }
        rest := rest - {t};
      }
    }

    method CreateSession(now: int, token: string, csrf: string)
      requires Valid() && NotBefore(now, history)
      modifies `sessions, `history
      ensures Valid() && history == old(history) + [Create(now, token, csrf)]
      ensures sessions == Step(old(sessions), ttl, Create(now, token, csrf), true)
    {
      PurgeExpired(now);
      sessions := sessions[token := Session(csrf, now)];
      StepAgrees(old(sessions), ttl, history, Create(now, token, csrf), true);
      history := history + [Create(now, token, csrf)];
    }

    method Validate(token: string, now: int) returns (ok: bool)
      requires Valid() && NotBefore(now, history)
      modifies `sessions, `history
      ensures Valid() && history == old(history) + [SessionHistory.Validate(now, token)]
      ensures ok <==> Live(old(history), ttl, token, now)
      ensures sessions == AfterValidate(old(sessions), ttl, token, now)
    {
      AcceptsIffLive(sessions, ttl, history, token, now);
      StepAgrees(sessions, ttl, history, SessionHistory.Validate(now, token), true);
      history := history + [SessionHistory.Validate(now, token)];
      if token == "" || token !in sessions {
        return false;
      }
      if now - sessions[token].lastSeen > ttl {
        sessions := sessions - {token};
        return false;
      }
      sessions := sessions[token := sessions[token].(lastSeen := now)];   // sliding expiry
      return true;
    }

    method GetCsrf(token: string) returns (csrf: string)
      ensures csrf == CsrfFor(sessions, token)
    {
      if token !in sessions {
        return "";
      }
      return sessions[token].csrf;
    }

    method DropSession(token: string, ghost now: int)
      requires Valid() && NotBefore(now, history)
      modifies `sessions, `history
      ensures Valid() && history == old(history) + [Drop(now, token)]
      ensures sessions == old(sessions) - {token}
    {
      StepAgrees(sessions, ttl, history, Drop(now, token), true);
      history := history + [Drop(now, token)];
      sessions := sessions - {token};
    }

    method LoginAllowed(client: string, now: int) returns (allowed: bool)
      requires Valid()
      modifies `logins
      ensures Valid()
      ensures allowed <==> Allowed(old(logins), client, now)
      ensures logins == AfterAllowed(old(logins), client, now)
    {
      if client !in logins {
        return true;
      }
      if logins[client].lockedUntil > now {
        return false;
      }
      if logins[client].lockedUntil != 0 {
        logins := logins - {client};   // lock elapsed: forget the client
      }
      return true;
    }

    method LoginFailed(client: string, now: int)
      requires Valid()
      modifies `logins
      ensures Valid()
      ensures logins == AfterFailed(old(logins), client, now)
    {
      if client !in logins {
        logins := logins[client := LoginGate(0, 0)];
      }
      var gate := logins[client];
      if gate.lockedUntil > now {
        return;
      }
      gate := gate.(fails := gate.fails + 1);
      if gate.fails >= MAX_FAILS {
        gate := LoginGate(0, now + LOCK_SECONDS);
      }
      logins := logins[client := gate];
    }

    method LoginSucceeded(client: string)
      requires Valid()
      modifies `logins
      ensures Valid()
      ensures logins == AfterSucceeded(old(logins), client)
    {
      logins := logins - {client};
    }
  }
}
