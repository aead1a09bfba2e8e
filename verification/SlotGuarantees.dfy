/** When a slot launches: in its window or never, and exactly once unless a crash falls between
    record and launch. */
module SlotGuarantees {
  import opened Scheduler
  import opened Wrappers

  /** The times at which a check can launch the slot: within grace, and before midnight. */
  predicate InWindow(slot: int, grace: int, now: int) {
    slot <= now <= slot + grace && DayOf(now) == DayOf(slot)
  }

  /** The calendar of a job: `slot` is its time of day, on a day its interval names. */
  predicate IsSlotOf(cal: Calendar, job: Job, slot: int) {
    && job.intervalType != NONE
    && (job.intervalType == WEEKLY ==> cal.weekday(slot / 86400) == job.intervalDay)
    && (job.intervalType == MONTHLY ==> cal.dayOfMonth(slot / 86400) == job.intervalDay)
    && ParseTime(job.intervalTime) == Some(slot % 86400)
  }

  /** Some job of that name has that slot. */
  ghost predicate DueIn(cal: Calendar, jobs: seq<Job>, name: string, slot: int) {
    exists job | job in jobs :: job.name == name && IsSlotOf(cal, job, slot)
  }

  /** The program's slot for the day is the calendar's. */
  lemma SlotTodayIff(cal: Calendar, job: Job, now: int, slot: int)
    ensures SlotToday(cal, job, now) == Some(slot) <==> IsSlotOf(cal, job, slot) && DayOf(slot) == DayOf(now)
  {
  }

  /** What the check number `i` of a life performs. */
  function PerformedAt(cal: Calendar, grace: int, table: map<string, int>, ticks: seq<Tick>, i: nat): seq<Effect>
    requires i < |ticks|
  {
    Performed(cal, grace, ticks[i], TableAfter(table, Trace(cal, grace, table, ticks[..i])))
  }

  // ---- Lives put together and taken apart ----------------------------------------------------------

  lemma EffectsSnoc(check: (map<string, int>, Tick) -> seq<Effect>, table: map<string, int>, ticks: seq<Tick>, t: Tick)
    ensures var before := EffectsOf(check, table, ticks);
            EffectsOf(check, table, ticks + [t]) == before + check(TableAfter(table, before), t)
  {
    assert (ticks + [t])[..|ticks|] == ticks;
  }

  lemma {:induction false} EffectsAppend(check: (map<string, int>, Tick) -> seq<Effect>, table: map<string, int>, a: seq<Tick>, b: seq<Tick>)
    ensures var first := EffectsOf(check, table, a);
            EffectsOf(check, table, a + b) == first + EffectsOf(check, TableAfter(table, first), b)
  {
    var first := EffectsOf(check, table, a);
    if b == [] {
      assert a + b == a;
    } else {
      var init, t := b[..|b| - 1], b[|b| - 1];
      var middle := EffectsOf(check, TableAfter(table, first), init);
      EffectsAppend(check, table, a, init);
      TableAppend(table, first, middle);
      assert a + b == (a + init) + [t] && b == init + [t];
      EffectsSnoc(check, table, a + init, t);
      EffectsSnoc(check, TableAfter(table, first), init, t);
      Associative(first, middle, check(TableAfter(table, first + middle), t));
    }
  }

  lemma TraceAppend(cal: Calendar, grace: int, table: map<string, int>, a: seq<Tick>, b: seq<Tick>)
    ensures var first := Trace(cal, grace, table, a);
            Trace(cal, grace, table, a + b) == first + Trace(cal, grace, TableAfter(table, first), b)
  {
    EffectsAppend(Check(cal, grace), table, a, b);
  }

  lemma Associative(a: seq<Effect>, b: seq<Effect>, c: seq<Effect>)
    ensures (a + b) + c == a + (b + c)
  {
  }

  /** An effect of a life is an effect of one of its checks. */
  lemma {:induction false} TraceMember(cal: Calendar, grace: int, table: map<string, int>, ticks: seq<Tick>, e: Effect)
    returns (i: nat)
    requires e in Trace(cal, grace, table, ticks)
    ensures i < |ticks| && e in PerformedAt(cal, grace, table, ticks, i)
  {
    var init := ticks[..|ticks| - 1];
    if e in Trace(cal, grace, table, init) {
      i := TraceMember(cal, grace, table, init, e);
      assert init[..i] == ticks[..i];
    } else {
      i := |ticks| - 1;
    }
  }

  lemma {:induction false} MemberOfTrace(cal: Calendar, grace: int, table: map<string, int>, ticks: seq<Tick>, e: Effect, i: nat)
    requires i < |ticks| && e in PerformedAt(cal, grace, table, ticks, i)
    ensures e in Trace(cal, grace, table, ticks)
  {
    var init := ticks[..|ticks| - 1];
    if i < |init| {
      assert init[..i] == ticks[..i];
      MemberOfTrace(cal, grace, table, init, e, i);
    }
  }

  // ---- Never outside its window --------------------------------------------------------------------

  /** In one check: everything happens now, and each record is followed by the launch of a slot that a
      job of that name has today and whose window is open. */
  lemma {:induction false} TickShape(cal: Calendar, grace: int, jobs: seq<Job>, now: int, table: map<string, int>, p: nat)
    requires p < |TickEffects(cal, grace, jobs, now, table)|
    ensures var es := TickEffects(cal, grace, jobs, now, table);
            && es[p].at == now
            && (es[p].Record? ==> p + 1 < |es| && es[p + 1].Launch? && es[p + 1].name == es[p].name)
            && (es[p].Launch? ==> InWindow(es[p].slot, grace, now) && DueIn(cal, jobs, es[p].name, es[p].slot))
  {
    var init, job := jobs[..|jobs| - 1], jobs[|jobs| - 1];
    var before := TickEffects(cal, grace, init, now, table);
    assert forall x | x in init :: x in jobs;
    if p < |before| {
      TickShape(cal, grace, init, now, table, p);
    } else {
      assert job in jobs;
      var mine := JobEffects(cal, grace, job, now, TableAfter(table, before));
      SlotTodayIff(cal, job, now, mine[1].slot);
    }
  }

  /** In every life at all, a launch happens at a check within the window of its slot, for a job of
      that name in the list of that check: a slot whose window passed is never made up. */
  lemma NeverMadeUp(cal: Calendar, grace: int, table: map<string, int>, ticks: seq<Tick>, e: Effect)
    requires e in Trace(cal, grace, table, ticks) && e.Launch?
    ensures InWindow(e.slot, grace, e.at)
    ensures exists i | 0 <= i < |ticks| ::
              ticks[i].now == e.at && DueIn(cal, ticks[i].jobs, e.name, e.slot)
  {
    var i := TraceMember(cal, grace, table, ticks, e);
    LaunchIn(cal, grace, ticks[i], TableAfter(table, Trace(cal, grace, table, ticks[..i])), e);
  }

  lemma LaunchIn(cal: Calendar, grace: int, t: Tick, table: map<string, int>, e: Effect)
    requires e in Performed(cal, grace, t, table) && e.Launch?
    ensures e.at == t.now && InWindow(e.slot, grace, t.now) && DueIn(cal, t.jobs, e.name, e.slot)
  {
    var all := TickEffects(cal, grace, t.jobs, t.now, table);
    var p :| 0 <= p < |all| && all[p] == e;
    TickShape(cal, grace, t.jobs, t.now, table, p);
  }

  // ---- Crashes: exactly when an open slot launches ---------------------------------------------------

  ghost predicate Launched(tr: seq<Effect>, name: string, slot: int) {
    exists e | e in tr :: e.Launch? && e.name == name && e.slot == slot
  }

  /** Every job of that name in the list is this job. */
  ghost predicate OnlyJob(jobs: seq<Job>, job: Job) {
    forall x | x in jobs && x.name == job.name :: x == job
  }

  /** Check number `i` lies in the window and gets as far as recording the job. */
  ghost predicate RecordsInWindow(cal: Calendar, grace: int, table: map<string, int>, ticks: seq<Tick>, job: Job, slot: int, i: int) {
    && 0 <= i < |ticks|
    && InWindow(slot, grace, ticks[i].now)
    && Record(job.name, ticks[i].now) in PerformedAt(cal, grace, table, ticks, i)
  }

  ghost predicate FirstRecorder(cal: Calendar, grace: int, table: map<string, int>, ticks: seq<Tick>, job: Job, slot: int, i: int) {
    && RecordsInWindow(cal, grace, table, ticks, job, slot, i)
    && forall j | 0 <= j < i :: !RecordsInWindow(cal, grace, table, ticks, job, slot, j)
  }

  /** The process died right after this record. */
  predicate DiedAfterRecord(performed: seq<Effect>, name: string) {
    performed != [] && performed[|performed| - 1].Record? && performed[|performed| - 1].name == name
  }

  lemma PerformedIsDisciplined(cal: Calendar, grace: int, t: Tick, table: map<string, int>)
    ensures Disciplined(table, Performed(cal, grace, t, table))
    ensures forall e | e in Performed(cal, grace, t, table) :: e.at == t.now
  {
    var all := TickEffects(cal, grace, t.jobs, t.now, table);
    TickIsDisciplined(cal, grace, t.jobs, t.now, table);
    if t.done < |all| {
      DisciplinedPrefix(table, all, t.done);
    }
  }

  /** After a record the last run is at least as late. */
  lemma RecordRaises(table: map<string, int>, tr: seq<Effect>, name: string, at: int, p: nat)
    requires Disciplined(table, tr) && p < |tr| && tr[p] == Record(name, at)
    ensures forall q: nat | p < q <= |tr| :: LastRun(TableAfter(table, tr[..q]), name) >= at
  {
    assert tr[..p + 1] == tr[..p] + [tr[p]];
    LastRunSnoc(table, tr[..p], tr[p], name);
    forall q: nat | p < q <= |tr|
      ensures LastRun(TableAfter(table, tr[..q]), name) >= at
    {
      LastRunNeverGoesBack(table, tr, p + 1, q, name);
    }
  }

  /** One check records a name at most once. */
  lemma OneRecordPerCheck(cal: Calendar, grace: int, t: Tick, table: map<string, int>, p: nat, q: nat)
    requires p < q < |Performed(cal, grace, t, table)| && Performed(cal, grace, t, table)[p].Record?
    ensures var es := Performed(cal, grace, t, table);
            es[q].Record? ==> es[q].name != es[p].name
  {
    var es := Performed(cal, grace, t, table);
    PerformedIsDisciplined(cal, grace, t, table);
    assert es[p] in es && es[q] in es;
    RecordRaises(table, es, es[p].name, t.now, p);
    if es[q].Record? {
      assert RuleAt(table, es, q);
    }
  }

  /** Within the window, recording the unchanged job means launching this very slot next. */
  lemma RecordLaunchesSlot(cal: Calendar, grace: int, t: Tick, table: map<string, int>, job: Job, slot: int)
    requires OnlyJob(t.jobs, job) && IsSlotOf(cal, job, slot) && InWindow(slot, grace, t.now)
    requires Record(job.name, t.now) in Performed(cal, grace, t, table)
    requires !DiedAfterRecord(Performed(cal, grace, t, table), job.name)
    ensures Launch(job.name, slot, t.now) in Performed(cal, grace, t, table)
  {
    var es := Performed(cal, grace, t, table);
    var p: nat :| p < |es| && es[p] == Record(job.name, t.now);
    NextEffect(cal, grace, t, table, p);
    DueIsSlot(cal, t.jobs, t.now, job, slot, grace, es[p + 1].slot);
    assert es[p + 1] in es;
  }

  /** A performed record that is not the last effect is followed by the launch it was made for. */
  lemma NextEffect(cal: Calendar, grace: int, t: Tick, table: map<string, int>, p: nat)
    requires p + 1 < |Performed(cal, grace, t, table)| && Performed(cal, grace, t, table)[p].Record?
    ensures var es := Performed(cal, grace, t, table);
            && es[p + 1].Launch? && es[p + 1].name == es[p].name && es[p + 1].at == t.now
            && InWindow(es[p + 1].slot, grace, t.now) && DueIn(cal, t.jobs, es[p].name, es[p + 1].slot)
  {
    TickShape(cal, grace, t.jobs, t.now, table, p);
    TickShape(cal, grace, t.jobs, t.now, table, p + 1);
  }

  lemma DueIsSlot(cal: Calendar, jobs: seq<Job>, now: int, job: Job, slot: int, grace: int, due: int)
    requires OnlyJob(jobs, job) && IsSlotOf(cal, job, slot) && InWindow(slot, grace, now)
    requires InWindow(due, grace, now) && DueIn(cal, jobs, job.name, due)
    ensures due == slot
  {
    assert IsSlotOf(cal, job, due);
  }

  /** A launch follows its own record, from a last run before the slot, and the process lived on. */
  lemma LaunchWasOpen(cal: Calendar, grace: int, t: Tick, table: map<string, int>, e: Effect)
    requires e in Performed(cal, grace, t, table) && e.Launch?
    ensures Record(e.name, t.now) in Performed(cal, grace, t, table)
    ensures LastRun(table, e.name) < e.slot
    ensures !DiedAfterRecord(Performed(cal, grace, t, table), e.name)
  {
    var es := Performed(cal, grace, t, table);
    PerformedIsDisciplined(cal, grace, t, table);
    var q: nat :| q < |es| && es[q] == e;
    LaunchNeedsRecord(table, es, q);
    assert es[q - 1] in es;
    if DiedAfterRecord(es, e.name) {
      OneRecordPerCheck(cal, grace, t, table, q - 1, |es| - 1);
    }
  }

  /** A record at or after the slot at one check closes the slot for every later check. */
  lemma RecordedEarlier(cal: Calendar, grace: int, table: map<string, int>, ticks: seq<Tick>, job: Job, slot: int, j: nat, i: nat)
    requires j < i < |ticks| && RecordsInWindow(cal, grace, table, ticks, job, slot, j)
    ensures LastRun(TableAfter(table, Trace(cal, grace, table, ticks[..i])), job.name) >= slot
  {
    var earlier := ticks[..i];
    var tr := Trace(cal, grace, table, earlier);
    assert earlier[..j] == ticks[..j];
    var r := Record(job.name, ticks[j].now);
    MemberOfTrace(cal, grace, table, earlier, r, j);
    TraceIsDisciplined(cal, grace, table, earlier);
    var p :| 0 <= p < |tr| && tr[p] == r;
    RecordRaises(table, tr, job.name, ticks[j].now, p);
    assert tr[..|tr|] == tr;
  }

  /** In every life in which the checks within the window hold no other job of that name: the slot
      launches exactly when the first of them that records the job also performs its next effect. */
  lemma OpenSlotLaunchesIff(cal: Calendar, grace: int, table: map<string, int>, ticks: seq<Tick>, job: Job, slot: int)
    requires forall i | 0 <= i < |ticks| && InWindow(slot, grace, ticks[i].now) :: OnlyJob(ticks[i].jobs, job)
    requires IsSlotOf(cal, job, slot)
    ensures Launched(Trace(cal, grace, table, ticks), job.name, slot)
       <==> exists i :: FirstRecorder(cal, grace, table, ticks, job, slot, i)
                        && !DiedAfterRecord(PerformedAt(cal, grace, table, ticks, i), job.name)
  {
    var tr := Trace(cal, grace, table, ticks);
    if Launched(tr, job.name, slot) {
      var e :| e in tr && e.Launch? && e.name == job.name && e.slot == slot;
      var i := TraceMember(cal, grace, table, ticks, e);
      var before := TableAfter(table, Trace(cal, grace, table, ticks[..i]));
      LaunchIn(cal, grace, ticks[i], before, e);
      LaunchWasOpen(cal, grace, ticks[i], before, e);
      forall j | 0 <= j < i
        ensures !RecordsInWindow(cal, grace, table, ticks, job, slot, j)
      {
        if RecordsInWindow(cal, grace, table, ticks, job, slot, j) {
          RecordedEarlier(cal, grace, table, ticks, job, slot, j, i);
        }
      }
      assert FirstRecorder(cal, grace, table, ticks, job, slot, i);
    }
    forall i | FirstRecorder(cal, grace, table, ticks, job, slot, i)
               && !DiedAfterRecord(PerformedAt(cal, grace, table, ticks, i), job.name)
      ensures Launched(tr, job.name, slot)
    {
      var before := TableAfter(table, Trace(cal, grace, table, ticks[..i]));
      RecordLaunchesSlot(cal, grace, ticks[i], before, job, slot);
      MemberOfTrace(cal, grace, table, ticks, Launch(job.name, slot, ticks[i].now), i);
    }
  }

  lemma OpenJobEffects(cal: Calendar, grace: int, job: Job, now: int, table: map<string, int>, slot: int)
    requires IsSlotOf(cal, job, slot) && InWindow(slot, grace, now) && LastRun(table, job.name) < slot
    ensures JobEffects(cal, grace, job, now, table) == [Record(job.name, now), Launch(job.name, slot, now)]
  {
    SlotTodayIff(cal, job, now, slot);
  }

  lemma OneJobCheck(cal: Calendar, grace: int, job: Job, now: int, table: map<string, int>)
    ensures TickEffects(cal, grace, [job], now, table) == JobEffects(cal, grace, job, now, table)
  {
    assert [job][..0] == [] && TableAfter(table, []) == table;
    assert [] + JobEffects(cal, grace, job, now, table) == JobEffects(cal, grace, job, now, table);
  }

  lemma OneCheckLife(cal: Calendar, grace: int, table: map<string, int>, t: Tick)
    ensures Trace(cal, grace, table, [t]) == Performed(cal, grace, t, table)
  {
    assert [t][..0] == [] && TableAfter(table, []) == table;
    assert EffectsOf(Check(cal, grace), table, []) == [] && Check(cal, grace)(table, t) == Performed(cal, grace, t, table);
    assert [] + Performed(cal, grace, t, table) == Performed(cal, grace, t, table);
  }

  /** Once recorded at or after the slot, it is not launched in any life that follows. */
  lemma SpentSlotStaysDown(cal: Calendar, grace: int, table: map<string, int>, ticks: seq<Tick>, name: string, slot: int)
    requires LastRun(table, name) >= slot
    ensures !Launched(Trace(cal, grace, table, ticks), name, slot)
  {
    var tr := Trace(cal, grace, table, ticks);
    forall k: nat | k < |tr|
      ensures !(tr[k].Launch? && tr[k].name == name && tr[k].slot == slot)
    {
      RecordedSlotIsSpent(cal, grace, table, ticks, name, slot, k);
    }
  }

  /** A crash between record and launch: the check at the slot dies after its first effect, and the
      slot is lost, whatever checks follow. */
  lemma CrashLosesSlot(cal: Calendar, grace: int, table: map<string, int>, job: Job, slot: int, later: seq<Tick>)
    requires IsSlotOf(cal, job, slot) && LastRun(table, job.name) < slot && grace >= 0
    ensures var crashed := Tick(slot, [job], 1);
            && Trace(cal, grace, table, [crashed]) == [Record(job.name, slot)]
            && !Launched(Trace(cal, grace, table, [crashed] + later), job.name, slot)
  {
    var crashed, record := Tick(slot, [job], 1), Record(job.name, slot);
    OpenJobEffects(cal, grace, job, slot, table, slot);
    OneJobCheck(cal, grace, job, slot, table);
    OneCheckLife(cal, grace, table, crashed);
    LastRunSnoc(table, [], record, job.name);
    assert [] + [record] == [record];
    TraceAppend(cal, grace, table, [crashed], later);
    SpentSlotStaysDown(cal, grace, TableAfter(table, [record]), later, job.name, slot);
    assert Trace(cal, grace, table, [crashed]) == [record];
    assert !Launched([record], job.name, slot);
    LaunchedAppend([record], Trace(cal, grace, TableAfter(table, [record]), later), job.name, slot);
  }

  lemma LaunchedAppend(a: seq<Effect>, b: seq<Effect>, name: string, slot: int)
    ensures Launched(a + b, name, slot) <==> Launched(a, name, slot) || Launched(b, name, slot)
  {
    assert forall e | e in a :: e in a + b;
    assert forall e | e in b :: e in a + b;
  }

  // ---- Exactly once ----------------------------------------------------------------------------------

  ghost predicate Ordered(ticks: seq<Tick>) {
    forall i, j | 0 <= i < j < |ticks| :: ticks[i].now <= ticks[j].now
  }

  /** The checks in the window complete and hold the job unchanged; all others are free to crash and
      to see any list. */
  ghost predicate SteadyInWindow(ticks: seq<Tick>, job: Job, slot: int, grace: int) {
    forall i | 0 <= i < |ticks| && InWindow(slot, grace, ticks[i].now) ::
      job in ticks[i].jobs && OnlyJob(ticks[i].jobs, job) && ticks[i].done >= 2 * |ticks[i].jobs|
  }

  ghost predicate SomeTickIn(ticks: seq<Tick>, slot: int, grace: int) {
    exists i | 0 <= i < |ticks| :: InWindow(slot, grace, ticks[i].now)
  }

  /** A complete check within the window launches a slot that is still open. */
  lemma {:induction false} OpenSlotLaunches(cal: Calendar, grace: int, jobs: seq<Job>, now: int, table: map<string, int>, job: Job, slot: int)
    requires OnlyJob(jobs, job)
    requires IsSlotOf(cal, job, slot) && InWindow(slot, grace, now) && LastRun(table, job.name) < slot
    ensures var es := TickEffects(cal, grace, jobs, now, table);
            if job in jobs then Launch(job.name, slot, now) in es
            else LastRun(TableAfter(table, es), job.name) == LastRun(table, job.name)
  {
    if jobs == [] {
    } else {
      var init, last := jobs[..|jobs| - 1], jobs[|jobs| - 1];
      assert jobs == init + [last];
      OpenSlotLaunches(cal, grace, init, now, table, job, slot);
      var before := TickEffects(cal, grace, init, now, table);
      if job !in init {
        if last == job {
          OpenJobEffects(cal, grace, job, now, TableAfter(table, before), slot);
        } else {
          OtherJobKeepsLastRun(cal, grace, last, now, table, before, job.name);
        }
      }
    }
  }

  lemma OtherJobKeepsLastRun(cal: Calendar, grace: int, other: Job, now: int, table: map<string, int>, before: seq<Effect>, name: string)
    requires other.name != name
    ensures var mine := JobEffects(cal, grace, other, now, TableAfter(table, before));
            LastRun(TableAfter(table, before + mine), name) == LastRun(TableAfter(table, before), name)
  {
    var mine := JobEffects(cal, grace, other, now, TableAfter(table, before));
    if mine == [] {
      assert before + mine == before;
    } else {
      assert before + mine == before + [mine[0]] + [mine[1]];
      LastRunSnoc(table, before, mine[0], name);
      LastRunSnoc(table, before + [mine[0]], mine[1], name);
    }
  }

  lemma {:induction false} EffectsPerCheck(cal: Calendar, grace: int, jobs: seq<Job>, now: int, table: map<string, int>)
    ensures |TickEffects(cal, grace, jobs, now, table)| <= 2 * |jobs|
  {
    if jobs == [] {
    } else {
      EffectsPerCheck(cal, grace, jobs[..|jobs| - 1], now, table);
    }
  }

  /** Checks before the slot record nothing at or after it. */
  lemma SlotStaysOpen(cal: Calendar, grace: int, table: map<string, int>, ticks: seq<Tick>, name: string, slot: int)
    requires LastRun(table, name) < slot && forall i | 0 <= i < |ticks| :: ticks[i].now < slot
    ensures LastRun(TableAfter(table, Trace(cal, grace, table, ticks)), name) < slot
  {
    var tr := Trace(cal, grace, table, ticks);
    forall e | e in tr
      ensures e.at < slot
    {
      var i := TraceMember(cal, grace, table, ticks, e);
      PerformedIsDisciplined(cal, grace, ticks[i], TableAfter(table, Trace(cal, grace, table, ticks[..i])));
    }
    LastRunBounded(table, tr, name, slot);
  }

  lemma {:induction false} LastRunBounded(table: map<string, int>, tr: seq<Effect>, name: string, bound: int)
    requires LastRun(table, name) < bound
    requires forall e | e in tr :: e.at < bound
    ensures LastRun(TableAfter(table, tr), name) < bound
  {
    if tr == [] {
    } else {
      var init, e := tr[..|tr| - 1], tr[|tr| - 1];
      assert tr == init + [e];
      LastRunBounded(table, init, name, bound);
      LastRunSnoc(table, init, e, name);
    }
  }

  /** The first check in the window. */
  lemma FirstInWindow(ticks: seq<Tick>, slot: int, grace: int) returns (i: nat)
    requires SomeTickIn(ticks, slot, grace) && Ordered(ticks)
    ensures i < |ticks| && InWindow(slot, grace, ticks[i].now)
    ensures forall j | 0 <= j < i :: ticks[j].now < slot
  {
    var w :| 0 <= w < |ticks| && InWindow(slot, grace, ticks[w].now);
    i := 0;
    while !InWindow(slot, grace, ticks[i].now)
      invariant i <= w
      invariant forall j | 0 <= j < i :: !InWindow(slot, grace, ticks[j].now)
      decreases w - i
    {
      i := i + 1;
    }
  }

  /** On a clock that does not go back, and whatever happens outside the window: the slot launches
      exactly when some check falls into its window. */
  lemma LaunchedIffCheckedInWindow(cal: Calendar, grace: int, table: map<string, int>, ticks: seq<Tick>, job: Job, slot: int)
    requires Ordered(ticks) && SteadyInWindow(ticks, job, slot, grace)
    requires IsSlotOf(cal, job, slot) && LastRun(table, job.name) < slot
    ensures Launched(Trace(cal, grace, table, ticks), job.name, slot) <==> SomeTickIn(ticks, slot, grace)
  {
    var tr := Trace(cal, grace, table, ticks);
    if Launched(tr, job.name, slot) {
      var e :| e in tr && e.Launch? && e.name == job.name && e.slot == slot;
      NeverMadeUp(cal, grace, table, ticks, e);
    }
    if SomeTickIn(ticks, slot, grace) {
      var i := FirstInWindow(ticks, slot, grace);
      var mid := TableAfter(table, Trace(cal, grace, table, ticks[..i]));
      SlotStaysOpen(cal, grace, table, ticks[..i], job.name, slot);
      OpenSlotLaunches(cal, grace, ticks[i].jobs, ticks[i].now, mid, job, slot);
      EffectsPerCheck(cal, grace, ticks[i].jobs, ticks[i].now, mid);
      MemberOfTrace(cal, grace, table, ticks, Launch(job.name, slot, ticks[i].now), i);
    }
  }

  /** Exactly one position of the trace launches the slot. */
  ghost predicate LaunchedOnce(tr: seq<Effect>, name: string, slot: int) {
    exists k | 0 <= k < |tr| :: LaunchesAt(tr, name, slot, k) && forall m | 0 <= m < |tr| && LaunchesAt(tr, name, slot, m) :: m == k
  }

  predicate LaunchesAt(tr: seq<Effect>, name: string, slot: int, k: int)
    requires 0 <= k < |tr|
  {
    tr[k].Launch? && tr[k].name == name && tr[k].slot == slot
  }

  lemma LaunchedMeansOnce(cal: Calendar, grace: int, table: map<string, int>, ticks: seq<Tick>, name: string, slot: int)
    requires Launched(Trace(cal, grace, table, ticks), name, slot)
    ensures LaunchedOnce(Trace(cal, grace, table, ticks), name, slot)
  {
    var tr := Trace(cal, grace, table, ticks);
    var e :| e in tr && e.Launch? && e.name == name && e.slot == slot;
    var k :| 0 <= k < |tr| && tr[k] == e;
    assert LaunchesAt(tr, name, slot, k);
    forall m | 0 <= m < |tr| && LaunchesAt(tr, name, slot, m)
      ensures m == k
    {
      SlotLaunchesAtMostOnce(cal, grace, table, ticks, k, m);
    }
  }

  /** Every slot launches exactly once in the whole life, a 23:59 one included, if the daemon is up
      around it: checks at most 60 seconds apart from before the slot (or its first minute) until the
      slot or later, with a grace of at least 59 seconds. Before, there may be crashes, edits and
      downtime at will; afterwards anything at all. */
  lemma EverySlotLaunchesOnce(cal: Calendar, grace: int, table: map<string, int>,
                              before: seq<Tick>, around: seq<Tick>, after: seq<Tick>, job: Job, slot: int)
    requires IsSlotOf(cal, job, slot) && LastRun(table, job.name) < slot && grace >= 59
    requires forall i | 0 <= i < |before| :: before[i].now < slot
    requires Ordered(around) && SteadyInWindow(around, job, slot, grace)
    requires around != [] && around[0].now <= slot + 59 && slot <= around[|around| - 1].now
    requires forall i | 0 < i < |around| :: around[i].now - around[i - 1].now <= 60
    ensures LaunchedOnce(Trace(cal, grace, table, before + around + after), job.name, slot)
  {
    var first := Trace(cal, grace, table, before);
    var mid := TableAfter(table, first);
    SlotStaysOpen(cal, grace, table, before, job.name, slot);
    SomeCheckInWindow(cal, around, job, slot, grace);
    LaunchedIffCheckedInWindow(cal, grace, mid, around, job, slot);
    TraceAppend(cal, grace, table, before, around);
    TraceAppend(cal, grace, table, before + around, after);
    LaunchedAppend(first, Trace(cal, grace, mid, around), job.name, slot);
    var both := Trace(cal, grace, table, before + around);
    LaunchedAppend(both, Trace(cal, grace, TableAfter(table, both), after), job.name, slot);
    LaunchedMeansOnce(cal, grace, table, before + around + after, job.name, slot);
  }

  lemma SomeCheckInWindow(cal: Calendar, ticks: seq<Tick>, job: Job, slot: int, grace: int)
    requires IsSlotOf(cal, job, slot) && grace >= 59
    requires ticks != [] && ticks[0].now <= slot + 59 && slot <= ticks[|ticks| - 1].now
    requires forall i | 0 < i < |ticks| :: ticks[i].now - ticks[i - 1].now <= 60
    ensures SomeTickIn(ticks, slot, grace)
  {
    var k := 0;
    while ticks[k].now < slot
      invariant k < |ticks| && (k > 0 ==> ticks[k - 1].now < slot)
      decreases |ticks| - k
    {
      k := k + 1;
    }
    assert slot <= ticks[k].now <= slot + 59;
    assert InWindow(slot, grace, ticks[k].now);
  }
}
