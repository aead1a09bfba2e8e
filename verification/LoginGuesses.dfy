/** Password guessing over whole runs of login requests: when the gate is shut, told by the history of
    wrong passwords alone, and how many of them it lets through in a given time. */
module LoginGuesses {
  import opened ApiAuth
  import opened LoginThrottle
  import opened PasswordHash
  import opened PasswordRuns

  /** One login request: who sent which password, the credentials stored at that moment, and the clock
      when the gate is asked and after the credential check. */
  datatype Attempt = Attempt(client: string, pw: string, stored: Credentials, asked: int, checked: int)

  function RequestOf(c: Crypto, a: Attempt): Request {
    Request(a.client, a.asked, a.checked, OutcomeOf(c, a.stored, a.pw))
  }

  function Requests(c: Crypto, attempts: seq<Attempt>): seq<Request> {
    seq(|attempts|, i requires 0 <= i < |attempts| => RequestOf(c, attempts[i]))
  }

  predicate Right(c: Crypto, a: Attempt) {
    a.stored.passhash != "" && Verifies(c, a.pw, a.stored.salt, a.stored.passhash)
  }

  predicate Wrong(c: Crypto, a: Attempt) {
    a.stored.passhash != "" && !Verifies(c, a.pw, a.stored.salt, a.stored.passhash)
  }

  /** Served one at a time on a clock that does not go back and is not before the epoch. */
  ghost predicate InTurn(attempts: seq<Attempt>, from: int) {
    && 0 <= from
    && (forall i | 0 <= i < |attempts| :: from <= attempts[i].asked <= attempts[i].checked)
    && (forall i, j | 0 <= i < j < |attempts| :: attempts[i].checked <= attempts[j].asked)
  }

  // ---- The gate by history -------------------------------------------------------------------------

  /** Every fifth wrong password shuts the gate for 300 seconds. */
  predicate Shut(wrongs: seq<int>, now: int) {
    wrongs != [] && |wrongs| % 5 == 0 && now < wrongs[|wrongs| - 1] + 300
  }

  /** When the client's passwords were checked and found wrong, since its last right one. */
  function Wrongs(c: Crypto, attempts: seq<Attempt>, client: string): seq<int> {
    if attempts == [] then []
    else
      var a := attempts[|attempts| - 1];
      var before := Wrongs(c, attempts[..|attempts| - 1], client);
      if a.client != client || Shut(before, a.asked) then before
      else if Right(c, a) then []
      else if Wrong(c, a) then before + [a.checked]
      else before
  }

  lemma {:induction false} LoginsSnoc(g: Gates, rs: seq<Request>, r: Request)
    ensures AfterLogins(g, rs + [r]) == AfterLogin(AfterLogins(g, rs), r)
    decreases rs
  {
    if rs == [] {
      assert [] + [r] == [r] && [r][1..] == [];
    } else {
      assert (rs + [r])[1..] == rs[1..] + [r];
      LoginsSnoc(AfterLogin(g, rs[0]), rs[1..], r);
    }
  }

  lemma AttemptsSnoc(c: Crypto, attempts: seq<Attempt>)
    requires attempts != []
    ensures var init := attempts[..|attempts| - 1];
            AfterLogins(map[], Requests(c, attempts))
            == AfterLogin(AfterLogins(map[], Requests(c, init)), RequestOf(c, attempts[|attempts| - 1]))
  {
    var init, r := attempts[..|attempts| - 1], RequestOf(c, attempts[|attempts| - 1]);
    assert Requests(c, attempts) == Requests(c, init) + [r];
    LoginsSnoc(map[], Requests(c, init), r);
  }

  /** The client's row after that history, as found at `now` or later. */
  ghost predicate RowFollows(g: Gates, client: string, wrongs: seq<int>, now: int) {
    if |wrongs| % 5 != 0 then client in g && g[client] == LoginGate(|wrongs| % 5, 0)
    else if client in g then wrongs != [] && g[client] == LoginGate(0, wrongs[|wrongs| - 1] + 300)
    else wrongs == [] || wrongs[|wrongs| - 1] + 300 <= now
  }

  lemma RowStep(c: Crypto, g: Gates, client: string, wrongs: seq<int>, a: Attempt)
    requires RowFollows(g, client, wrongs, a.asked) && 0 <= a.asked <= a.checked
    requires forall t | t in wrongs :: 0 <= t <= a.asked
    ensures var after := if a.client != client || Shut(wrongs, a.asked) then wrongs
                         else if Right(c, a) then []
                         else if Wrong(c, a) then wrongs + [a.checked]
                         else wrongs;
            RowFollows(AfterLogin(g, RequestOf(c, a)), client, after, a.checked)
  {
    RowDecides(g, client, wrongs, a.asked);
    if a.client == client && !Shut(wrongs, a.asked) && Wrong(c, a) {
      RowAfterWrong(g, client, wrongs, a.asked, a.checked);
    }
  }

  lemma RowDecides(g: Gates, client: string, wrongs: seq<int>, now: int)
    requires RowFollows(g, client, wrongs, now) && 0 <= now && forall t | t in wrongs :: 0 <= t <= now
    ensures Allowed(g, client, now) <==> !Shut(wrongs, now)
  {
    assert wrongs != [] ==> wrongs[|wrongs| - 1] in wrongs;
  }

  lemma RowAfterWrong(g: Gates, client: string, wrongs: seq<int>, asked: int, checked: int)
    requires RowFollows(g, client, wrongs, asked) && 0 <= asked <= checked && forall t | t in wrongs :: 0 <= t <= asked
    requires Allowed(g, client, asked)
    ensures RowFollows(AfterFailed(AfterAllowed(g, client, asked), client, checked), client, wrongs + [checked], checked)
  {
    assert wrongs != [] ==> wrongs[|wrongs| - 1] in wrongs;
    OneMore(|wrongs|);
    assert GateOf(AfterAllowed(g, client, asked), client) == LoginGate(|wrongs| % 5, 0);
  }

  lemma OneMore(n: nat)
    ensures (n + 1) % 5 == if n % 5 == 4 then 0 else n % 5 + 1
  {
  }

  /** All of it had happened by `now`. */
  ghost predicate DoneBy(attempts: seq<Attempt>, now: int) {
    forall i | 0 <= i < |attempts| :: attempts[i].checked <= now
  }

  lemma EarlierInTurn(attempts: seq<Attempt>, from: int)
    requires attempts != [] && InTurn(attempts, from)
    ensures var init, a := attempts[..|attempts| - 1], attempts[|attempts| - 1];
            InTurn(init, from) && DoneBy(init, a.asked) && from <= a.asked <= a.checked
  {
  }

  lemma {:induction false} WrongsAreDone(c: Crypto, attempts: seq<Attempt>, client: string, from: int, now: int)
    requires InTurn(attempts, from) && DoneBy(attempts, now)
    ensures forall t | t in Wrongs(c, attempts, client) :: 0 <= t <= now
  {
    if attempts == [] {
    } else {
      EarlierInTurn(attempts, from);
      WrongsAreDone(c, attempts[..|attempts| - 1], client, from, now);
    }
  }

  lemma {:induction false} RowFollowsHistory(c: Crypto, attempts: seq<Attempt>, client: string, from: int, now: int)
    requires InTurn(attempts, from) && from <= now && DoneBy(attempts, now)
    ensures RowFollows(AfterLogins(map[], Requests(c, attempts)), client, Wrongs(c, attempts, client), now)
  {
    if attempts == [] {
    } else {
      var init, a := attempts[..|attempts| - 1], attempts[|attempts| - 1];
      EarlierInTurn(attempts, from);
      RowFollowsHistory(c, init, client, from, a.asked);
      WrongsAreDone(c, init, client, from, a.asked);
      RowStep(c, AfterLogins(map[], Requests(c, init)), client, Wrongs(c, init, client), a);
      AttemptsSnoc(c, attempts);
      LaterRow(AfterLogins(map[], Requests(c, attempts)), client, Wrongs(c, attempts, client), a.checked, now);
    }
  }

  lemma LaterRow(g: Gates, client: string, wrongs: seq<int>, now: int, later: int)
    requires RowFollows(g, client, wrongs, now) && now <= later
    ensures RowFollows(g, client, wrongs, later)
  {
  }

  /** From a new store, after any requests: a client is refused exactly when its wrong passwords since
      its last right one are a multiple of five and the last of them is less than 300 seconds old. */
  lemma GateFollowsHistory(c: Crypto, attempts: seq<Attempt>, client: string, from: int, now: int)
    requires InTurn(attempts, from) && from <= now && DoneBy(attempts, now)
    ensures !Allowed(AfterLogins(map[], Requests(c, attempts)), client, now)
       <==> Shut(Wrongs(c, attempts, client), now)
  {
    RowFollowsHistory(c, attempts, client, from, now);
    WrongsAreDone(c, attempts, client, from, now);
    RowDecides(AfterLogins(map[], Requests(c, attempts)), client, Wrongs(c, attempts, client), now);
  }

  // ---- The guess rate ------------------------------------------------------------------------------

  /** When wrong passwords of the client got past the gate and were checked. */
  function GuessTimes(c: Crypto, g: Gates, attempts: seq<Attempt>, client: string): seq<int>
    decreases attempts
  {
    if attempts == [] then []
    else
      var a := attempts[0];
      (if a.client == client && Allowed(g, client, a.asked) && Wrong(c, a) then [a.checked] else [])
      + GuessTimes(c, AfterLogin(g, RequestOf(c, a)), attempts[1..], client)
  }

  lemma {:induction false} GuessesFail(c: Crypto, g: Gates, attempts: seq<Attempt>, client: string)
    ensures GuessTimes(c, g, attempts, client) == FailTimes(g, Requests(c, attempts), client)
    decreases attempts
  {
    if attempts == [] {
    } else {
      var rs := Requests(c, attempts);
      assert rs[0] == RequestOf(c, attempts[0]) && rs[1..] == Requests(c, attempts[1..]);
      GuessesFail(c, AfterLogin(g, rs[0]), attempts[1..], client);
    }
  }

  /** Wrong passwords of one client that got past the gate, in a run with no right one of that client:
      any two of them are at least 300 seconds apart for every five from one to the other, whatever
      other clients do, however the stored password changes, and whatever happened before. */
  lemma GuessesAreThrottled(c: Crypto, g: Gates, before: seq<Attempt>, attempts: seq<Attempt>, client: string, from: int)
    requires InTurn(before + attempts, from) && CountsBelowMax(g)
    requires forall k | 0 <= k < |attempts| && attempts[k].client == client :: !Right(c, attempts[k])
    ensures var times := GuessTimes(c, AfterLogins(g, Requests(c, before)), attempts, client);
            forall i, j | 0 <= i < j < |times| :: times[j] - times[i] >= 300 * ((j - i) / 5)
  {
    var start, rs := AfterLogins(g, Requests(c, before)), Requests(c, attempts);
    forall k | 0 <= k < |attempts|
      ensures from <= attempts[k].asked <= attempts[k].checked
      ensures forall m | k < m < |attempts| :: attempts[k].checked <= attempts[m].asked
    {
      assert (before + attempts)[|before| + k] == attempts[k];
      assert forall m | k < m < |attempts| :: (before + attempts)[|before| + m] == attempts[m];
    }
    LoginsKeepCounts(g, Requests(c, before));
    GuessesFail(c, start, attempts, client);
    var times := GuessTimes(c, start, attempts, client);
    forall i, j | 0 <= i < j < |times|
      ensures times[j] - times[i] >= 300 * ((j - i) / 5)
    {
      FailuresAreThrottled(start, rs, client, from, i, j);
    }
  }
}
