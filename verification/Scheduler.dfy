/** The job scheduler: a check every minute that starts the jobs whose time slot has come, with a
    table of last runs on disk that survives restarts and crashes. */
module Scheduler {
  import opened Text
  import opened Wrappers

  datatype Interval = NONE | DAILY | WEEKLY | MONTHLY

  datatype Job = Job(name: string, intervalType: Interval, intervalTime: string, intervalDay: int)

  /** Day numbers to weekday (0 is Monday) and day of month. */
  datatype Calendar = Calendar(weekday: int -> int, dayOfMonth: int -> int)

  const DAY_SECONDS := 86400

  function DayOf(now: int): int {
    now / DAY_SECONDS
  }

  function TwoDigits(s: string): nat
    requires |s| == 2 && IsDigit(s[0]) && IsDigit(s[1])
  {
    (s[0] as int - '0' as int) * 10 + (s[1] as int - '0' as int)
  }

  /** "HH:mm" as seconds into the day. */
  function ParseTime(s: string): (r: Option<int>)
    ensures r.Some? ==> 0 <= r.value <= DAY_SECONDS - 60 && r.value % 60 == 0
  {
    if |s| != 5 || s[2] != ':' || !(IsDigit(s[0]) && IsDigit(s[1]) && IsDigit(s[3]) && IsDigit(s[4])) then None
    else
      var h, m := TwoDigits(s[..2]), TwoDigits(s[3..]);
      if h < 24 && m < 60 then Some((h * 60 + m) * 60) else None
  }

  const DIGITS := "0123456789"

  function TimeText(h: nat, m: nat): string
    requires h < 24 && m < 60
  {
    [DIGITS[h / 10], DIGITS[h % 10], ':', DIGITS[m / 10], DIGITS[m % 10]]
  }

  /** Only a time of day written as hours and minutes, two digits each, is read as one. */
  lemma TimeRead(s: string) returns (h: nat, m: nat)
    requires ParseTime(s).Some?
    ensures h < 24 && m < 60 && s == TimeText(h, m) && ParseTime(s) == Some(h * 3600 + m * 60)
  {
    h, m := TwoDigits(s[..2]), TwoDigits(s[3..]);
    TwoDigitsRead(s[..2]);
    TwoDigitsRead(s[3..]);
    assert s == s[..2] + ":" + s[3..];
  }

  lemma TwoDigitsRead(s: string)
    requires |s| == 2 && IsDigit(s[0]) && IsDigit(s[1])
    ensures var n := TwoDigits(s); n < 100 && s == [DIGITS[n / 10], DIGITS[n % 10]]
  {
    var n := TwoDigits(s);
    assert n / 10 == s[0] as int - '0' as int && n % 10 == s[1] as int - '0' as int;
    DigitIsValue(n / 10);
    DigitIsValue(n % 10);
  }

  /** And every such text is read as that time. */
  lemma TimeRoundTrip(h: nat, m: nat)
    requires h < 24 && m < 60
    ensures ParseTime(TimeText(h, m)) == Some(h * 3600 + m * 60)
  {
    var s := TimeText(h, m);
    assert s[..2] == [DIGITS[h / 10], DIGITS[h % 10]] && s[3..] == [DIGITS[m / 10], DIGITS[m % 10]];
    DigitIsValue(h / 10);
    DigitIsValue(h % 10);
    DigitIsValue(m / 10);
    DigitIsValue(m % 10);
  }

  lemma DigitIsValue(d: nat)
    requires d < 10
    ensures IsDigit(DIGITS[d]) && DIGITS[d] as int - '0' as int == d
  {
  }

  /** The job's slot on the day of `now`, if it has one that day. */
  function SlotToday(cal: Calendar, job: Job, now: int): Option<int> {
    var day := DayOf(now);
    var due := match job.intervalType
      case NONE => false
      case DAILY => true
      case WEEKLY => cal.weekday(day) == job.intervalDay
      case MONTHLY => cal.dayOfMonth(day) == job.intervalDay;
    match ParseTime(job.intervalTime)
    case Some(time) => if due then Some(day * DAY_SECONDS + time) else None
    case None => None
  }

  predicate ShouldRun(cal: Calendar, grace: int, job: Job, now: int, lastRun: int) {
    var slot := SlotToday(cal, job, now);
    slot.Some? && slot.value <= now <= slot.value + grace && lastRun < slot.value
  }

  // ---- Effects: what reaches the disk and the backup manager, in order ------------------------

  datatype Effect =
    | Record(name: string, at: int)
    | Launch(name: string, slot: int, at: int)

  function Key(name: string): string {
    name + "/last_run"
  }

  function LastRun(table: map<string, int>, name: string): int {
    if Key(name) in table then table[Key(name)] else 0
  }

  /** The table on disk after a sequence of effects. */
  function TableAfter(table: map<string, int>, effects: seq<Effect>): map<string, int> {
    if effects == [] then table
    else
      var before := TableAfter(table, effects[..|effects| - 1]);
      match effects[|effects| - 1]
      case Record(name, at) => before[Key(name) := at]
      case Launch(_, _, _) => before
  }

  function JobEffects(cal: Calendar, grace: int, job: Job, now: int, table: map<string, int>): seq<Effect> {
    if job.intervalType != NONE && ShouldRun(cal, grace, job, now, LastRun(table, job.name))
    then [Record(job.name, now), Launch(job.name, SlotToday(cal, job, now).value, now)]
    else []
  }

  /** All effects of one uninterrupted check of the job list. */
  function TickEffects(cal: Calendar, grace: int, jobs: seq<Job>, now: int, table: map<string, int>): seq<Effect> {
    if jobs == [] then []
    else
      var before := TickEffects(cal, grace, jobs[..|jobs| - 1], now, table);
      before + JobEffects(cal, grace, jobs[|jobs| - 1], now, TableAfter(table, before))
  }

  /** One check; the process dies after `done` effects (any number past the last means it does not die). */
  datatype Tick = Tick(now: int, jobs: seq<Job>, done: nat)

  function Performed(cal: Calendar, grace: int, t: Tick, table: map<string, int>): seq<Effect> {
    var all := TickEffects(cal, grace, t.jobs, t.now, table);
    if t.done < |all| then all[..t.done] else all
  }

  /** What a check performs, as a function of the table it finds. */
  function Check(cal: Calendar, grace: int): (map<string, int>, Tick) -> seq<Effect> {
    (table, t) => Performed(cal, grace, t, table)
  }

  /** The effects of a series of checks, each finding the table the earlier ones left. */
  function EffectsOf(check: (map<string, int>, Tick) -> seq<Effect>, table: map<string, int>, ticks: seq<Tick>): seq<Effect> {
    if ticks == [] then []
    else
      var before := EffectsOf(check, table, ticks[..|ticks| - 1]);
      before + check(TableAfter(table, before), ticks[|ticks| - 1])
  }

  /** The effects of a whole life: checks, edits of the job list between them, crashes, restarts. */
  function Trace(cal: Calendar, grace: int, table: map<string, int>, ticks: seq<Tick>): seq<Effect> {
    EffectsOf(Check(cal, grace), table, ticks)
  }

  // ---- The check as the program runs it --------------------------------------------------------

  class DiskMain {
    var lastRuns: map<string, int>   // the scheduler state file
    ghost var effects: seq<Effect>

    constructor (stateFile: map<string, int>)
      ensures lastRuns == stateFile && effects == []
    {
      lastRuns, effects := stateFile, [];
    }

    method SetLastRun(name: string, at: int)
      modifies this
      ensures effects == old(effects) + [Record(name, at)]
      ensures lastRuns == old(lastRuns)[Key(name) := at]
    {
      lastRuns := lastRuns[Key(name) := at];
      effects := effects + [Record(name, at)];
    }

    method StartBackup(name: string, ghost slot: int, ghost at: int)
      modifies `effects
      ensures effects == old(effects) + [Launch(name, slot, at)]
    {
      effects := effects + [Launch(name, slot, at)];
    }

    method OnTaskCheck(cal: Calendar, grace: int, jobs: seq<Job>, now: int)
      modifies this
      ensures effects == old(effects) + TickEffects(cal, grace, jobs, now, old(lastRuns))
      ensures lastRuns == TableAfter(old(lastRuns), TickEffects(cal, grace, jobs, now, old(lastRuns)))
    {
      for i := 0 to |jobs|
        invariant effects == old(effects) + TickEffects(cal, grace, jobs[..i], now, old(lastRuns))
        invariant lastRuns == TableAfter(old(lastRuns), TickEffects(cal, grace, jobs[..i], now, old(lastRuns)))
      {
        var job := jobs[i];
        TickStep(cal, grace, jobs, i, now, old(lastRuns));
        if job.intervalType == NONE {
          continue;
        }
        var lastRun := LastRun(lastRuns, job.name);
        if ShouldRun(cal, grace, job, now, lastRun) {
          ghost var before := TickEffects(cal, grace, jobs[..i], now, old(lastRuns));
          AppendTwo(old(effects), before, Record(job.name, now), Launch(job.name, SlotToday(cal, job, now).value, now));
          SetLastRun(job.name, now);   // recorded before launching
          StartBackup(job.name, SlotToday(cal, job, now).value, now);
        }
      }
      assert jobs[..|jobs|] == jobs;
    }
  }

  lemma AppendTwo(a: seq<Effect>, b: seq<Effect>, x: Effect, y: Effect)
    ensures a + b + [x] + [y] == a + (b + [x, y])
  {
  }

  lemma TableSnoc(table: map<string, int>, effects: seq<Effect>, e: Effect)
    ensures TableAfter(table, effects + [e])
         == if e.Record? then TableAfter(table, effects)[Key(e.name) := e.at] else TableAfter(table, effects)
  {
    assert (effects + [e])[..|effects|] == effects;
  }

  /** What one more job adds to a check. */
  lemma TickStep(cal: Calendar, grace: int, jobs: seq<Job>, i: nat, now: int, table: map<string, int>)
    requires i < |jobs|
    ensures var before := TickEffects(cal, grace, jobs[..i], now, table);
            var mid := TableAfter(table, before);
            var mine := JobEffects(cal, grace, jobs[i], now, mid);
            var after := TickEffects(cal, grace, jobs[..i + 1], now, table);
            && after == before + mine
            && TableAfter(table, after) == if mine == [] then mid else mid[Key(jobs[i].name) := now]
  {
    assert jobs[..i + 1][..i] == jobs[..i];
    var before := TickEffects(cal, grace, jobs[..i], now, table);
    var mine := JobEffects(cal, grace, jobs[i], now, TableAfter(table, before));
    if mine == [] {
      assert before + mine == before;
    } else {
      assert before + mine == before + [mine[0]] + [mine[1]];
      TableSnoc(table, before, mine[0]);
      TableSnoc(table, before + [mine[0]], mine[1]);
    }
  }

  lemma KeyInjective(a: string, b: string)
    ensures Key(a) == Key(b) <==> a == b
  {
    if Key(a) == Key(b) {
      assert |a| == |b| && Key(a)[..|a|] == a && Key(b)[..|b|] == b;
    }
  }

  lemma LastRunSnoc(table: map<string, int>, effects: seq<Effect>, e: Effect, name: string)
    ensures LastRun(TableAfter(table, effects + [e]), name)
         == if e.Record? && e.name == name then e.at else LastRun(TableAfter(table, effects), name)
  {
    TableSnoc(table, effects, e);
    KeyInjective(e.name, name);
  }

  // ---- At most once ------------------------------------------------------------------------------

  /** Position `i` of a trace keeps the rules: a record moves the last run forward, and a launch
      directly follows its own record, for a slot later than the last run before that record. */
  ghost predicate RuleAt(table: map<string, int>, tr: seq<Effect>, i: nat)
    requires i < |tr|
  {
    match tr[i]
    case Record(name, at) => LastRun(TableAfter(table, tr[..i]), name) < at
    case Launch(name, slot, at) =>
      i > 0 && tr[i - 1] == Record(name, at) && slot <= at && LastRun(TableAfter(table, tr[..i - 1]), name) < slot
  }

  ghost predicate Disciplined(table: map<string, int>, tr: seq<Effect>) {
    forall i: nat | i < |tr| :: RuleAt(table, tr, i)
  }

  lemma {:induction false} TableAppend(table: map<string, int>, a: seq<Effect>, b: seq<Effect>)
    ensures TableAfter(table, a + b) == TableAfter(TableAfter(table, a), b)
  {
    if b == [] {
      assert a + b == a;
    } else {
      var init, e := b[..|b| - 1], b[|b| - 1];
      assert a + b == (a + init) + [e] && b == init + [e];
      TableAppend(table, a, init);
      TableSnoc(table, a + init, e);
      TableSnoc(TableAfter(table, a), init, e);
    }
  }

  lemma DisciplinedPrefix(table: map<string, int>, tr: seq<Effect>, n: nat)
    requires Disciplined(table, tr) && n <= |tr|
    ensures Disciplined(table, tr[..n])
  {
    forall i: nat | i < n
      ensures RuleAt(table, tr[..n], i)
    {
      assert RuleAt(table, tr, i);
      assert tr[..n][..i] == tr[..i];
      if i > 0 {
        assert tr[..n][..i - 1] == tr[..i - 1];
      }
    }
  }

  lemma DisciplinedAppend(table: map<string, int>, a: seq<Effect>, b: seq<Effect>)
    requires Disciplined(table, a) && Disciplined(TableAfter(table, a), b)
    ensures Disciplined(table, a + b)
  {
    forall i: nat | i < |a + b|
      ensures RuleAt(table, a + b, i)
    {
      if i < |a| {
        RuleAtLeft(table, a, b, i);
      } else {
        RuleAtRight(table, a, b, i - |a|);
      }
    }
  }

  lemma RuleAtLeft(table: map<string, int>, a: seq<Effect>, b: seq<Effect>, i: nat)
    requires i < |a| && RuleAt(table, a, i)
    ensures RuleAt(table, a + b, i)
  {
    assert (a + b)[..i] == a[..i];
    if i > 0 {
      assert (a + b)[..i - 1] == a[..i - 1];
    }
  }

  lemma RuleAtRight(table: map<string, int>, a: seq<Effect>, b: seq<Effect>, k: nat)
    requires k < |b| && RuleAt(TableAfter(table, a), b, k)
    ensures RuleAt(table, a + b, |a| + k)
  {
    assert (a + b)[..|a| + k] == a + b[..k];
    TableAppend(table, a, b[..k]);
    if k > 0 {
      assert (a + b)[..|a| + k - 1] == a + b[..k - 1];
      TableAppend(table, a, b[..k - 1]);
    }
  }

  lemma {:induction false} TickIsDisciplined(cal: Calendar, grace: int, jobs: seq<Job>, now: int, table: map<string, int>)
    ensures Disciplined(table, TickEffects(cal, grace, jobs, now, table))
    ensures forall e | e in TickEffects(cal, grace, jobs, now, table) :: e.at == now
  {
    if jobs == [] {
    } else {
      var init, job := jobs[..|jobs| - 1], jobs[|jobs| - 1];
      TickIsDisciplined(cal, grace, init, now, table);
      var before := TickEffects(cal, grace, init, now, table);
      var mid := TableAfter(table, before);
      var mine := JobEffects(cal, grace, job, now, mid);
      if mine != [] {
        assert mine[..0] == [] && mine[..1] == [mine[0]];
        assert RuleAt(mid, mine, 0) && RuleAt(mid, mine, 1);
      }
      DisciplinedAppend(table, before, mine);
    }
  }

  lemma {:induction false} TraceIsDisciplined(cal: Calendar, grace: int, table: map<string, int>, ticks: seq<Tick>)
    ensures Disciplined(table, Trace(cal, grace, table, ticks))
  {
    if ticks == [] {
    } else {
      var init, t := ticks[..|ticks| - 1], ticks[|ticks| - 1];
      TraceIsDisciplined(cal, grace, table, init);
      var before := Trace(cal, grace, table, init);
      var mid := TableAfter(table, before);
      TickIsDisciplined(cal, grace, t.jobs, t.now, mid);
      var all := TickEffects(cal, grace, t.jobs, t.now, mid);
      DisciplinedPrefix(mid, all, if t.done < |all| then t.done else |all|);
      assert all[..|all|] == all;
      DisciplinedAppend(table, before, Performed(cal, grace, t, mid));
    }
  }

  /** Along a disciplined trace the recorded last run of a job never goes back. */
  lemma {:induction false} LastRunNeverGoesBack(table: map<string, int>, tr: seq<Effect>, i: nat, j: nat, name: string)
    requires Disciplined(table, tr) && i <= j <= |tr|
    ensures LastRun(TableAfter(table, tr[..i]), name) <= LastRun(TableAfter(table, tr[..j]), name)
    decreases j
  {
    if i == j {
    } else {
      LastRunNeverGoesBack(table, tr, i, j - 1, name);
      assert RuleAt(table, tr, j - 1);
      assert tr[..j] == tr[..j - 1] + [tr[j - 1]];
      LastRunSnoc(table, tr[..j - 1], tr[j - 1], name);
    }
  }

  /** Slots launched for one job name strictly increase, whatever the clock does, however the job
      list is edited, and wherever the process crashes: no slot of a name launches twice. */
  lemma LaunchedSlotsIncrease(cal: Calendar, grace: int, table: map<string, int>, ticks: seq<Tick>, i: nat, j: nat)
    requires var tr := Trace(cal, grace, table, ticks);
             i < j < |tr| && tr[i].Launch? && tr[j].Launch? && tr[i].name == tr[j].name
    ensures var tr := Trace(cal, grace, table, ticks);
            tr[i].slot <= tr[i].at < tr[j].slot <= tr[j].at
  {
    var tr := Trace(cal, grace, table, ticks);
    TraceIsDisciplined(cal, grace, table, ticks);
    LaunchAfterLaunch(table, tr, i, j);
  }

  /** So no slot of a name launches twice in the whole life of the state file. */
  lemma SlotLaunchesAtMostOnce(cal: Calendar, grace: int, table: map<string, int>, ticks: seq<Tick>, i: nat, j: nat)
    requires var tr := Trace(cal, grace, table, ticks);
             && i < |tr| && j < |tr| && tr[i].Launch? && tr[j].Launch?
             && tr[i].name == tr[j].name && tr[i].slot == tr[j].slot
    ensures i == j
  {
    if i < j {
      LaunchedSlotsIncrease(cal, grace, table, ticks, i, j);
    } else if j < i {
      LaunchedSlotsIncrease(cal, grace, table, ticks, j, i);
    }
  }

  lemma LaunchAfterLaunch(table: map<string, int>, tr: seq<Effect>, i: nat, j: nat)
    requires Disciplined(table, tr)
    requires i < j < |tr| && tr[i].Launch? && tr[j].Launch? && tr[i].name == tr[j].name
    ensures tr[i].slot <= tr[i].at < tr[j].slot <= tr[j].at
  {
    assert RuleAt(table, tr, i) && RuleAt(table, tr, j);
    assert tr[..i] == tr[..i - 1] + [tr[i - 1]];
    LastRunSnoc(table, tr[..i - 1], tr[i - 1], tr[i].name);
    LastRunNeverGoesBack(table, tr, i, j - 1, tr[i].name);
  }

  /** One check launches a name at most once, even when the job list holds it several times. */
  lemma OneLaunchPerCheck(cal: Calendar, grace: int, jobs: seq<Job>, now: int, table: map<string, int>, i: nat, j: nat)
    requires var es := TickEffects(cal, grace, jobs, now, table);
             i < |es| && j < |es| && es[i].Launch? && es[j].Launch? && es[i].name == es[j].name
    ensures i == j
  {
    var es := TickEffects(cal, grace, jobs, now, table);
    TickIsDisciplined(cal, grace, jobs, now, table);
    assert es[i].at == now && es[j].at == now;
    if i < j {
      LaunchAfterLaunch(table, es, i, j);
    } else if j < i {
      LaunchAfterLaunch(table, es, j, i);
    }
  }

  lemma LaunchNeedsRecord(table: map<string, int>, tr: seq<Effect>, q: nat)
    requires Disciplined(table, tr) && q < |tr| && tr[q].Launch?
    ensures q > 0 && tr[q - 1] == Record(tr[q].name, tr[q].at) && LastRun(table, tr[q].name) < tr[q].slot
  {
    assert RuleAt(table, tr, q);
    assert tr[..0] == [];
    LastRunNeverGoesBack(table, tr, 0, q - 1, tr[q].name);
  }

  /** A slot once recorded is spent: after a crash between record and launch it is never launched. */
  lemma RecordedSlotIsSpent(cal: Calendar, grace: int, table: map<string, int>, ticks: seq<Tick>, name: string, slot: int, k: nat)
    requires slot <= LastRun(table, name)
    requires k < |Trace(cal, grace, table, ticks)|
    ensures var e := Trace(cal, grace, table, ticks)[k];
            e.Launch? && e.name == name ==> slot < e.slot
  {
    var tr := Trace(cal, grace, table, ticks);
    TraceIsDisciplined(cal, grace, table, ticks);
    if tr[k].Launch? && tr[k].name == name {
      LaunchNeedsRecord(table, tr, k);
    }
  }
}
