/** What a session token is worth, told by the history of calls alone, and the proof that the
    store's table of sessions answers exactly that. */
module SessionHistory {

  datatype Session = Session(csrf: string, lastSeen: int)

  type Sessions = map<string, Session>

  datatype Event =
    | Create(now: int, token: string, csrf: string)
    | Validate(now: int, token: string)
    | Drop(now: int, token: string)

  // ---- Meaning: the history --------------------------------------------------------------

  /** When the token was created and then presented, since its last creation; nothing once dropped. */
  function Touches(h: seq<Event>, t: string): seq<int> {
    if h == [] then []
    else
      var earlier := Touches(h[..|h| - 1], t);
      match h[|h| - 1]
      case Create(now, u, _) => if u == t then [now] else earlier
      case Validate(now, u) => if u == t && earlier != [] then earlier + [now] else earlier
      case Drop(_, u) => if u == t then [] else earlier
  }

  /** The CSRF token minted with the last creation of `t`. */
  function Minted(h: seq<Event>, t: string): string {
    if h == [] then ""
    else
      match h[|h| - 1]
      case Create(_, u, csrf) => if u == t then csrf else Minted(h[..|h| - 1], t)
      case _ => Minted(h[..|h| - 1], t)
  }

  ghost predicate GapsWithin(times: seq<int>, ttl: int) {
    forall i | 0 < i < |times| :: times[i] - times[i - 1] <= ttl
  }

  /** The token was created, not dropped since, and never left alone for more than `ttl`. */
  ghost predicate Live(h: seq<Event>, ttl: int, t: string, now: int) {
    t != "" && Touches(h, t) != [] && GapsWithin(Touches(h, t) + [now], ttl)
  }

  ghost predicate Ordered(h: seq<Event>) {
    forall i, j | 0 <= i < j < |h| :: h[i].now <= h[j].now
  }

  ghost predicate NotBefore(now: int, h: seq<Event>) {
    forall i | 0 <= i < |h| :: h[i].now <= now
  }

  // ---- Mechanism: the table --------------------------------------------------------------

  function Purge(m: Sessions, ttl: int, now: int): Sessions {
    map t | t in m && now - m[t].lastSeen <= ttl :: m[t]
  }

  predicate Accepts(m: Sessions, ttl: int, t: string, now: int) {
    t != "" && t in m && now - m[t].lastSeen <= ttl
  }

  function AfterValidate(m: Sessions, ttl: int, t: string, now: int): Sessions {
    if t == "" || t !in m then m
    else if now - m[t].lastSeen > ttl then m - {t}
    else m[t := m[t].(lastSeen := now)]
  }

  /** One call on the table. `purging` false is a store that never purges when it creates. */
  function Step(m: Sessions, ttl: int, e: Event, purging: bool): Sessions {
    match e
    case Create(now, t, csrf) => (if purging then Purge(m, ttl, now) else m)[t := Session(csrf, now)]
    case Validate(now, t) => AfterValidate(m, ttl, t, now)
    case Drop(_, t) => m - {t}
  }

  function Replay(m: Sessions, ttl: int, h: seq<Event>, purging: bool): Sessions {
    if h == [] then m
    else Step(Replay(m, ttl, h[..|h| - 1], purging), ttl, h[|h| - 1], purging)
  }

  // ---- The table refines the history -----------------------------------------------------

  /** A row says when the token was last touched; a missing row means the token is dead for good. */
  ghost predicate RowAgrees(m: Sessions, ttl: int, h: seq<Event>, t: string) {
    var ts := Touches(h, t);
    if t in m then
      && ts != []
      && GapsWithin(ts, ttl)
      && m[t] == Session(Minted(h, t), ts[|ts| - 1])
    else
      || ts == []
      || !GapsWithin(ts, ttl)
      || (h != [] && h[|h| - 1].now - ts[|ts| - 1] > ttl)
  }

  ghost predicate Agrees(m: Sessions, ttl: int, h: seq<Event>) {
    forall t | t != "" :: RowAgrees(m, ttl, h, t)
  }

  lemma {:induction false} TouchesInHistory(h: seq<Event>, t: string, now: int)
    requires NotBefore(now, h)
    ensures forall x | x in Touches(h, t) :: x <= now
  {
    if h == [] {
    } else {
      TouchesInHistory(h[..|h| - 1], t, now);
    }
  }

  lemma GapsSnoc(ts: seq<int>, x: int, ttl: int)
    requires ts != []
    ensures GapsWithin(ts + [x], ttl) <==> GapsWithin(ts, ttl) && x - ts[|ts| - 1] <= ttl
  {
    var all := ts + [x];
    assert all[|all| - 1] == x && all[|all| - 2] == ts[|ts| - 1];
    assert forall i | 0 <= i < |ts| :: all[i] == ts[i];
  }

  lemma RowStep(m: Sessions, ttl: int, h: seq<Event>, e: Event, purging: bool, t: string)
    requires t != "" && RowAgrees(m, ttl, h, t)
    requires NotBefore(e.now, h)
    ensures RowAgrees(Step(m, ttl, e, purging), ttl, h + [e], t)
  {
    var ts := Touches(h, t);
    TouchesSnoc(h, e, t);
    if ts != [] && e.Validate? && e.token == t {
      GapsSnoc(ts, e.now, ttl);
    }
  }

  lemma TouchesSnoc(h: seq<Event>, e: Event, t: string)
    ensures Touches(h + [e], t)
         == if e.token != t then Touches(h, t)
            else if e.Create? then [e.now]
            else if e.Validate? && Touches(h, t) != [] then Touches(h, t) + [e.now]
            else []
    ensures Minted(h + [e], t) == if e.Create? && e.token == t then e.csrf else Minted(h, t)
  {
    assert (h + [e])[..|h|] == h;
  }

  lemma StepAgrees(m: Sessions, ttl: int, h: seq<Event>, e: Event, purging: bool)
    requires Agrees(m, ttl, h) && NotBefore(e.now, h)
    ensures Agrees(Step(m, ttl, e, purging), ttl, h + [e])
  {
    forall t | t != ""
      ensures RowAgrees(Step(m, ttl, e, purging), ttl, h + [e], t)
    {
      RowStep(m, ttl, h, e, purging, t);
    }
  }

  /** In a table that agrees with its history, the lookup decides liveness. */
  lemma AcceptsIffLive(m: Sessions, ttl: int, h: seq<Event>, t: string, now: int)
    requires Agrees(m, ttl, h) && NotBefore(now, h)
    ensures Accepts(m, ttl, t, now) <==> Live(h, ttl, t, now)
    ensures Accepts(m, ttl, t, now) ==> m[t].csrf == Minted(h, t)
  {
    if t != "" {
      assert RowAgrees(m, ttl, h, t);
      if Touches(h, t) != [] {
        GapsSnoc(Touches(h, t), now, ttl);
      }
    }
  }

  lemma {:induction false} ReplayAgrees(ttl: int, h: seq<Event>, purging: bool)
    requires Ordered(h)
    ensures Agrees(Replay(map[], ttl, h, purging), ttl, h)
  {
    if h == [] {
    } else {
      var before := h[..|h| - 1];
      ReplayAgrees(ttl, before, purging);
      StepAgrees(Replay(map[], ttl, before, purging), ttl, before, h[|h| - 1], purging);
      assert before + [h[|h| - 1]] == h;
    }
  }

  /** Whatever was called, in clock order: the table accepts a token exactly when it is live. */
  lemma TableDecidesLiveness(ttl: int, h: seq<Event>, purging: bool, t: string, now: int)
    requires Ordered(h) && NotBefore(now, h)
    ensures Accepts(Replay(map[], ttl, h, purging), ttl, t, now) <==> Live(h, ttl, t, now)
  {
    ReplayAgrees(ttl, h, purging);
    AcceptsIffLive(Replay(map[], ttl, h, purging), ttl, h, t, now);
  }

  /** Right after a session is created the table holds that token and, of all others, exactly the live ones. */
  lemma OnlyLiveRowsAfterCreate(ttl: int, h: seq<Event>, now: int, token: string, csrf: string, t: string)
    requires t != "" && Ordered(h + [Create(now, token, csrf)])
    ensures var all := h + [Create(now, token, csrf)];
            t in Replay(map[], ttl, all, true) <==> t == token || Live(all, ttl, t, now)
  {
    var all := h + [Create(now, token, csrf)];
    assert all[..|all| - 1] == h && all[|all| - 1] == Create(now, token, csrf);
    forall i | 0 <= i < |all|
      ensures all[i].now <= now
    {
      assert i < |all| - 1 ==> all[i].now <= all[|all| - 1].now;
    }
    TableDecidesLiveness(ttl, all, true, t, now);
  }

  /** The answers `validate` gives along a run. */
  function Answers(ttl: int, h: seq<Event>, purging: bool): seq<bool> {
    if h == [] then []
    else
      var before := h[..|h| - 1];
      var e := h[|h| - 1];
      Answers(ttl, before, purging)
      + if e.Validate? then [Accepts(Replay(map[], ttl, before, purging), ttl, e.token, e.now)] else []
  }

  /** Purging is invisible: a store that purges and one that never does give the same answers. */
  lemma {:induction false} PurgingIsInvisible(ttl: int, h: seq<Event>)
    requires Ordered(h)
    ensures Answers(ttl, h, true) == Answers(ttl, h, false)
  {
    if h == [] {
    } else {
      var before, e := h[..|h| - 1], h[|h| - 1];
      PurgingIsInvisible(ttl, before);
      if e.Validate? {
        TableDecidesLiveness(ttl, before, true, e.token, e.now);
        TableDecidesLiveness(ttl, before, false, e.token, e.now);
      }
    }
  }

  ghost predicate NeverCreated(h: seq<Event>, t: string) {
    forall i | 0 <= i < |h| :: h[i].Create? ==> h[i].token != t
  }

  /** A token that is dead stays dead, whatever is called later, unless it is minted again. */
  lemma {:induction false} DeadStaysDead(h: seq<Event>, ttl: int, t: string, now: int, later: seq<Event>, at: int)
    requires Ordered(h + later) && NotBefore(at, h + later) && NotBefore(now, h)
    requires now <= at && forall i | 0 <= i < |later| :: now <= later[i].now
    requires NeverCreated(later, t)
    requires !Live(h, ttl, t, now)
    ensures !Live(h + later, ttl, t, at)
  {
    if later == [] {
      assert h + later == h;
      if Touches(h, t) != [] {
        GapsSnoc(Touches(h, t), now, ttl);
        GapsSnoc(Touches(h, t), at, ttl);
      }
    } else {
      var init, e := later[..|later| - 1], later[|later| - 1];
      assert (h + later)[..|h + later| - 1] == h + init;
      assert (h + later)[|h + later| - 1] == e;
      assert forall i | 0 <= i < |h + init| :: (h + later)[i] == (h + init)[i];
      DeadStaysDead(h, ttl, t, now, init, e.now);
      var ts := Touches(h + init, t);
      if ts != [] {
        TouchesInHistory(h + init, t, e.now);
        GapsSnoc(ts, e.now, ttl);
        GapsSnoc(ts, at, ttl);
        GapsSnoc(ts + [e.now], at, ttl);
      }
    }
  }

  /** From any table at all: what a purge removes, no later call could have made acceptable. */
  lemma {:induction false} PurgedIsNeverAccepted(m: Sessions, ttl: int, now: int, t: string, later: seq<Event>, at: int)
    requires t in m && t !in Purge(m, ttl, now)
    requires Ordered(later) && NotBefore(at, later)
    requires now <= at && forall i | 0 <= i < |later| :: now <= later[i].now
    requires NeverCreated(later, t)
    ensures var after := Replay(m, ttl, later, false);
            !Accepts(after, ttl, t, at) && (t in after ==> after[t] == m[t])
  {
    if later == [] {
    } else {
      var init, e := later[..|later| - 1], later[|later| - 1];
      PurgedIsNeverAccepted(m, ttl, now, t, init, e.now);
    }
  }

  /** The CSRF lookup by itself: it reads the row and no clock. */
  function CsrfFor(m: Sessions, t: string): string {
    if t in m then m[t].csrf else ""
  }

  /** The lookup alone gives the minted token of a live session and nothing otherwise exactly when
      the row is not an expired one still waiting to be deleted. */
  lemma CsrfForIsEmptyUnlessLiveIff(m: Sessions, ttl: int, h: seq<Event>, t: string, now: int)
    requires Agrees(m, ttl, h) && NotBefore(now, h) && t != ""
    ensures CsrfFor(m, t) == (if Live(h, ttl, t, now) then Minted(h, t) else "")
       <==> !(t in m && m[t].csrf != "" && now - m[t].lastSeen > ttl)
  {
    AcceptsIffLive(m, ttl, h, t, now);
  }

  /** Asked right after a validation, as the guard does, the lookup keeps the promise: an expired row is
      gone by then. */
  lemma CsrfAfterValidate(m: Sessions, ttl: int, h: seq<Event>, t: string, now: int)
    requires Agrees(m, ttl, h) && NotBefore(now, h) && t != ""
    ensures var after := AfterValidate(m, ttl, t, now);
            && (t in after <==> Live(h, ttl, t, now))
            && CsrfFor(after, t) == if Live(h, ttl, t, now) then Minted(h, t) else ""
  {
    AcceptsIffLive(m, ttl, h, t, now);
  }

  /** An expired session whose CSRF token is still handed out. */
  lemma CsrfForIgnoresExpiry()
    ensures var h := [Create(0, "token", "csrf")];
            !Live(h, 60, "token", 61) && CsrfFor(Replay(map[], 60, h, true), "token") == "csrf"
  {
    var h := [Create(0, "token", "csrf")];
    assert h[..0] == [];
    assert Replay(map[], 60, [], true) == map[];
    TableDecidesLiveness(60, h, true, "token", 61);
  }
}
