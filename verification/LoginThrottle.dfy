/** The per-client login gate, and how many password guesses it lets through in a given time. */
module LoginThrottle {

  const MAX_FAILS := 5
  const LOCK_SECONDS := 300

  datatype LoginGate = LoginGate(fails: int, lockedUntil: int)

  type Gates = map<string, LoginGate>

  // ---- The three calls on the table --------------------------------------------------------

  predicate Allowed(g: Gates, c: string, now: int) {
    c !in g || g[c].lockedUntil <= now
  }

  function AfterAllowed(g: Gates, c: string, now: int): Gates {
    if c in g && g[c].lockedUntil <= now && g[c].lockedUntil != 0 then g - {c} else g
  }

  function GateOf(g: Gates, c: string): LoginGate {
    if c in g then g[c] else LoginGate(0, 0)
  }

  function AfterFailed(g: Gates, c: string, now: int): Gates {
    var e := GateOf(g, c);
    if e.lockedUntil > now then g[c := e]
    else if e.fails + 1 >= MAX_FAILS then g[c := LoginGate(0, now + LOCK_SECONDS)]
    else g[c := e.(fails := e.fails + 1)]
  }

  function AfterSucceeded(g: Gates, c: string): Gates {
    g - {c}
  }

  // ---- Calls in any order, from any number of handlers ---------------------------------------

  datatype Call =
    | AskAllowed(client: string, now: int)
    | RecordFailure(client: string, now: int)
    | RecordSuccess(client: string)

  function AfterCall(g: Gates, call: Call): Gates {
    match call
    case AskAllowed(c, now) => AfterAllowed(g, c, now)
    case RecordFailure(c, now) => AfterFailed(g, c, now)
    case RecordSuccess(c) => AfterSucceeded(g, c)
  }

  function AfterCalls(g: Gates, calls: seq<Call>): Gates {
    if calls == [] then g else AfterCall(AfterCalls(g, calls[..|calls| - 1]), calls[|calls| - 1])
  }

  ghost predicate CountsBelowMax(g: Gates) {
    forall c | c in g :: 0 <= g[c].fails < MAX_FAILS
  }

  /** No order of calls ever lets a failure count reach the maximum. */
  lemma {:induction false} FailsStayBelowMax(g: Gates, calls: seq<Call>)
    requires CountsBelowMax(g)
    ensures CountsBelowMax(AfterCalls(g, calls))
  {
    if calls == [] {
    } else {
      FailsStayBelowMax(g, calls[..|calls| - 1]);
    }
  }

  /** While a client is locked, nothing but a recorded success changes its gate, so retries
      neither extend nor shorten the lock. */
  lemma {:induction false} RetriesKeepTheLock(g: Gates, calls: seq<Call>, c: string)
    requires c in g
    requires forall i | 0 <= i < |calls| && calls[i].client == c ::
               !calls[i].RecordSuccess? && calls[i].now < g[c].lockedUntil
    ensures c in AfterCalls(g, calls) && AfterCalls(g, calls)[c] == g[c]
  {
    if calls == [] {
    } else {
      RetriesKeepTheLock(g, calls[..|calls| - 1], c);
    }
  }

  // ---- Whole login requests, one after the other ---------------------------------------------

  /** What the credential check said; `NoPassword` is the answer before setup, with no check. */
  datatype Outcome = NoPassword | Wrong | Right

  /** `asked` is the clock when the gate was asked, `checked` the clock after the credential check. */
  datatype Request = Request(client: string, asked: int, checked: int, outcome: Outcome)

  function AfterLogin(g: Gates, r: Request): Gates {
    if !Allowed(g, r.client, r.asked) then g
    else
      var open := AfterAllowed(g, r.client, r.asked);
      match r.outcome
      case NoPassword => open
      case Wrong => AfterFailed(open, r.client, r.checked)
      case Right => AfterSucceeded(open, r.client)
  }

  predicate FailedCheck(g: Gates, r: Request, c: string) {
    r.client == c && Allowed(g, c, r.asked) && r.outcome == Wrong
  }

  /** When the client's password was checked and found wrong, along a run of requests. */
  function FailTimes(g: Gates, rs: seq<Request>, c: string): (times: seq<int>)
    decreases rs
  {
    if rs == [] then []
    else
      (if FailedCheck(g, rs[0], c) then [rs[0].checked] else [])
      + FailTimes(AfterLogin(g, rs[0]), rs[1..], c)
  }

  function AfterLogins(g: Gates, rs: seq<Request>): Gates
    decreases rs
  {
    if rs == [] then g else AfterLogins(AfterLogin(g, rs[0]), rs[1..])
  }

  /** Requests are served one at a time on a clock that does not go back; it counts seconds since
      the epoch, so it is never negative (a `lockedUntil` of 0 means no lock). */
  ghost predicate Serial(rs: seq<Request>, from: int) {
    && 0 <= from
    && (forall i | 0 <= i < |rs| :: from <= rs[i].asked <= rs[i].checked)
    && (forall i, j | 0 <= i < j < |rs| :: rs[i].checked <= rs[j].asked)
  }

  ghost predicate NoSuccess(rs: seq<Request>, c: string) {
    forall i | 0 <= i < |rs| && rs[i].client == c :: rs[i].outcome != Right
  }

  /** Failures that still count towards the next lock. */
  function Counted(g: Gates, c: string): int {
    if c in g && g[c].lockedUntil == 0 then g[c].fails else 0
  }

  /** No check of the client's password can happen before `t`: the clock is past it or the gate is shut. */
  ghost predicate QuietUntil(g: Gates, c: string, clock: int, t: int) {
    clock >= t || (c in g && g[c].lockedUntil >= t)
  }

  /** The earliest time of failure number `n` when failure number 0 comes at `t` or later. */
  function Earliest(t: int, n: nat): int {
    t + LOCK_SECONDS * (n / MAX_FAILS)
  }

  lemma EarliestGrows(t: int, u: int, m: nat, n: nat)
    requires t <= u && m <= n
    ensures Earliest(t, m) <= Earliest(u, n)
  {
    assert m / MAX_FAILS <= n / MAX_FAILS;
  }

  lemma EarliestAfterLock(t: int, n: nat)
    ensures Earliest(t + LOCK_SECONDS, n) == Earliest(t, n + MAX_FAILS)
  {
    assert (n + MAX_FAILS) / MAX_FAILS == n / MAX_FAILS + 1;
  }

  /** A failed check counts one more failure, or sets a lock and starts counting again. */
  lemma FailureCounts(g: Gates, r: Request, c: string, clock: int, t: int)
    requires CountsBelowMax(g) && FailedCheck(g, r, c) && 0 <= clock <= r.asked <= r.checked
    requires QuietUntil(g, c, clock, t)
    ensures t <= r.checked
    ensures var g1 := AfterLogin(g, r);
            && CountsBelowMax(g1)
            && if Counted(g, c) + 1 >= MAX_FAILS
               then Counted(g, c) == MAX_FAILS - 1 && Counted(g1, c) == 0
                    && QuietUntil(g1, c, r.checked, r.checked + LOCK_SECONDS)
               else Counted(g1, c) == Counted(g, c) + 1
  {
    assert Counted(AfterAllowed(g, c, r.asked), c) == Counted(g, c);
  }

  /** No other request of a run without success changes the count or shortens a lock. */
  lemma OtherRequestKeepsGate(g: Gates, r: Request, c: string, clock: int, t: int)
    requires CountsBelowMax(g) && !FailedCheck(g, r, c) && 0 <= clock <= r.asked <= r.checked
    requires r.client == c ==> r.outcome != Right
    requires QuietUntil(g, c, clock, t)
    ensures var g1 := AfterLogin(g, r);
            CountsBelowMax(g1) && Counted(g1, c) == Counted(g, c) && QuietUntil(g1, c, r.checked, t)
  {
  }

  lemma RestIsSerial(rs: seq<Request>, c: string, clock: int)
    requires rs != [] && Serial(rs, clock) && NoSuccess(rs, c)
    ensures Serial(rs[1..], rs[0].checked) && NoSuccess(rs[1..], c)
    ensures 0 <= clock <= rs[0].asked <= rs[0].checked
    ensures rs[0].client == c ==> rs[0].outcome != Right
  {
  }

  /** From a gate that already counts some failures, failure number k comes a lock later
      for every five failures counted up to it. */
  lemma {:induction false} KthFailure(g: Gates, rs: seq<Request>, c: string, clock: int, t: int, k: nat)
    requires Serial(rs, clock) && NoSuccess(rs, c)
    requires CountsBelowMax(g) && QuietUntil(g, c, clock, t)
    requires k < |FailTimes(g, rs, c)|
    ensures Counted(g, c) >= 0 && FailTimes(g, rs, c)[k] >= Earliest(t, Counted(g, c) + k)
    decreases rs
  {
    var r, rest := rs[0], rs[1..];
    var g1 := AfterLogin(g, r);
    RestIsSerial(rs, c, clock);
    if FailedCheck(g, r, c) {
      FailureCounts(g, r, c, clock, t);
      if k > 0 {
        if Counted(g, c) + 1 >= MAX_FAILS {
          KthFailure(g1, rest, c, r.checked, r.checked + LOCK_SECONDS, k - 1);
          EarliestAfterLock(r.checked, k - 1);
        } else {
          KthFailure(g1, rest, c, r.checked, r.checked, k - 1);
        }
        EarliestGrows(t, r.checked, Counted(g, c) + k, Counted(g, c) + k);
      }
    } else {
      OtherRequestKeepsGate(g, r, c, clock, t);
      KthFailure(g1, rest, c, r.checked, t, k);
    }
  }

  /** Any two failed checks of one client with no success between them: the later one comes at
      least one lock after the earlier for every five failures counted between them. Other
      clients may do anything, and the gates may start in any state the calls can reach. */
  lemma {:induction false} FailuresAreThrottled(g: Gates, rs: seq<Request>, c: string, clock: int, i: nat, j: nat)
    requires Serial(rs, clock) && NoSuccess(rs, c) && CountsBelowMax(g)
    requires i < j < |FailTimes(g, rs, c)|
    ensures var times := FailTimes(g, rs, c);
            times[j] - times[i] >= LOCK_SECONDS * ((j - i) / MAX_FAILS)
    decreases rs
  {
    var r, rest := rs[0], rs[1..];
    var g1 := AfterLogin(g, r);
    RestIsSerial(rs, c, clock);
    if !FailedCheck(g, r, c) {
      OtherRequestKeepsGate(g, r, c, clock, clock);
      FailuresAreThrottled(g1, rest, c, r.checked, i, j);
    } else if i > 0 {
      FailureCounts(g, r, c, clock, clock);
      FailuresAreThrottled(g1, rest, c, r.checked, i - 1, j - 1);
    } else {
      FailureCounts(g, r, c, clock, clock);
      if Counted(g, c) + 1 >= MAX_FAILS {
        KthFailure(g1, rest, c, r.checked, r.checked + LOCK_SECONDS, j - 1);
        EarliestAfterLock(r.checked, j - 1);
        EarliestGrows(r.checked, r.checked, j, j - 1 + MAX_FAILS);
      } else {
        KthFailure(g1, rest, c, r.checked, r.checked, j - 1);
        EarliestGrows(r.checked, r.checked, j, Counted(g1, c) + j - 1);
      }
    }
  }

  /** N wrong guesses by one client in a run with no success in between take at least
      300 * ((N - 1) / 5) seconds, wherever in a longer run they happen. */
  lemma GuessRateIsBounded(g: Gates, before: seq<Request>, rs: seq<Request>, c: string, clock: int)
    requires Serial(before + rs, clock) && CountsBelowMax(g) && NoSuccess(rs, c)
    requires FailTimes(AfterLogins(g, before), rs, c) != []
    ensures var times := FailTimes(AfterLogins(g, before), rs, c);
            times[|times| - 1] - times[0] >= LOCK_SECONDS * ((|times| - 1) / MAX_FAILS)
  {
    SerialSuffix(before, rs, clock);
    LoginsKeepCounts(g, before);
    var times := FailTimes(AfterLogins(g, before), rs, c);
    if |times| > 1 {
      FailuresAreThrottled(AfterLogins(g, before), rs, c, clock, 0, |times| - 1);
    }
  }

  lemma SerialSuffix(before: seq<Request>, rs: seq<Request>, clock: int)
    requires Serial(before + rs, clock)
    ensures Serial(rs, clock)
  {
    var all := before + rs;
    assert forall i | 0 <= i < |rs| :: rs[i] == all[|before| + i];
  }

  lemma {:induction false} LoginsKeepCounts(g: Gates, rs: seq<Request>)
    requires CountsBelowMax(g)
    ensures CountsBelowMax(AfterLogins(g, rs))
    decreases rs
  {
    if rs == [] {
    } else {
      LoginsKeepCounts(AfterLogin(g, rs[0]), rs[1..]);
    }
  }
}
