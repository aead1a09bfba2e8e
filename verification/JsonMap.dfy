/** Backup jobs and server records to and from the JSON the web interface exchanges. */
module JsonMap {

  /** The object keys the mappers use; `Other` is any key they do not look at. */
  datatype Field =
    | Uuid | Name | Device | PartitionUuid | BackupDirs | Source | Dest
    | DeleteAddFileOnDest | StartBackupOnHotplug | SaveLog | CompareViaChecksum | UmountAfterBackup
    | Notify | NotifyRecipients | ScriptBeforeBackup | ScriptAfterBackup
    | IntervalType | IntervalTime | IntervalDay | EncLuksType | EncLuksFilePath
    | Pbs | PbsServerUuid | PbsServerStorage | PbsBackupIds | PbsDestFolder
    | Ssh | SshTargets | ServerUuid
    | Host | Port | Username | Password | Fingerprint | Keyfile | Keypass | Hostkey | HostkeySet
    | Other(spelling: string)

  type Object = map<Field, Json>

  /** JSON numbers are reals here; every integer the mappers write is one exactly. */
  datatype Json =
    | Null
    | Bool(b: bool)
    | Num(r: real)
    | Str(s: string)
    | Arr(items: seq<Json>)
    | Obj(fields: Object)

  newtype int32 = x: int | -0x8000_0000 <= x < 0x8000_0000
  newtype uint32 = x: int | 0 <= x < 0x1_0000_0000

  // ---- Reading values: a wrong type or a missing key gives the default -----------------------------

  function Get(o: Object, f: Field): Json {
    if f in o then o[f] else Null
  }

  function ToStr(j: Json): string {
    if j.Str? then j.s else ""
  }

  function ToBool(j: Json): bool {
    j.Bool? && j.b
  }

  function ToInt(j: Json, default: int32): int32 {
    if j.Num? && j.r == j.r.Floor as real && -0x8000_0000 <= j.r.Floor < 0x8000_0000 then j.r.Floor as int32
    else default
  }

  function ToArr(j: Json): seq<Json> {
    if j.Arr? then j.items else []
  }

  function ToObj(j: Json): Object {
    if j.Obj? then j.fields else map[]
  }

  function IntJson(n: int32): Json {
    Num(n as int as real)
  }

  lemma IntRoundTrip(n: int32, default: int32)
    ensures ToInt(IntJson(n), default) == n
  {
  }

  // ---- Jobs ------------------------------------------------------------------------------------------

  datatype SshTarget = SshTarget(serverUuid: string, backupdirs: map<string, string>)

  datatype Job = Job(
    name: string,
    device: string,
    partitionUuid: string,
    backupdirs: map<string, string>,
    deleteAddFileOnDest: bool,
    startBackupOnHotplug: bool,
    saveLog: bool,
    compareViaChecksum: bool,
    umountAfterBackup: bool,
    notify: bool,
    notifyRecipients: string,
    scriptBeforeBackup: string,
    scriptAfterBackup: string,
    intervalType: int32,
    intervalTime: string,
    intervalDay: int32,
    encLuksType: int32,
    encLuksFilePath: string,
    pbs: bool,
    pbsServerUuid: string,
    pbsServerStorage: string,
    pbsBackupIds: seq<string>,
    pbsDestFolder: string,
    ssh: bool,
    sshTargets: seq<SshTarget>)

  const NEW_JOB := Job("", "", "", map[], false, false, false, false, true, false, "", "", "", 0, "", 0, 0, "",
                       false, "", "", [], "", false, [])

  /** The map a list of source/dest objects stands for: a later entry replaces an earlier one. */
  function DirsOf(items: seq<Json>): map<string, string> {
    if items == [] then map[]
    else
      var d := ToObj(items[|items| - 1]);
      DirsOf(items[..|items| - 1])[ToStr(Get(d, Source)) := ToStr(Get(d, Dest))]
  }

  function StringsOf(items: seq<Json>): seq<string> {
    if items == [] then [] else StringsOf(items[..|items| - 1]) + [ToStr(items[|items| - 1])]
  }

  function TargetOf(j: Json): SshTarget {
    var o := ToObj(j);
    SshTarget(ToStr(Get(o, ServerUuid)), DirsOf(ToArr(Get(o, BackupDirs))))
  }

  function TargetsOf(items: seq<Json>): seq<SshTarget> {
    if items == [] then [] else TargetsOf(items[..|items| - 1]) + [TargetOf(items[|items| - 1])]
  }

  /** The job a JSON object stands for. */
  function JobOf(o: Object): Job {
    Job(
      name := ToStr(Get(o, Name)),
      device := ToStr(Get(o, Device)),
      partitionUuid := ToStr(Get(o, PartitionUuid)),
      backupdirs := DirsOf(ToArr(Get(o, BackupDirs))),
      deleteAddFileOnDest := ToBool(Get(o, DeleteAddFileOnDest)),
      startBackupOnHotplug := ToBool(Get(o, StartBackupOnHotplug)),
      saveLog := ToBool(Get(o, SaveLog)),
      compareViaChecksum := ToBool(Get(o, CompareViaChecksum)),
      umountAfterBackup := UmountAfterBackup !in o || ToBool(o[UmountAfterBackup]),
      notify := ToBool(Get(o, Notify)),
      notifyRecipients := ToStr(Get(o, NotifyRecipients)),
      scriptBeforeBackup := ToStr(Get(o, ScriptBeforeBackup)),
      scriptAfterBackup := ToStr(Get(o, ScriptAfterBackup)),
      intervalType := ToInt(Get(o, IntervalType), 0),
      intervalTime := ToStr(Get(o, IntervalTime)),
      intervalDay := ToInt(Get(o, IntervalDay), 0),
      encLuksType := ToInt(Get(o, EncLuksType), 0),
      encLuksFilePath := ToStr(Get(o, EncLuksFilePath)),
      pbs := ToBool(Get(o, Pbs)),
      pbsServerUuid := ToStr(Get(o, PbsServerUuid)),
      pbsServerStorage := ToStr(Get(o, PbsServerStorage)),
      pbsBackupIds := StringsOf(ToArr(Get(o, PbsBackupIds))),
      pbsDestFolder := ToStr(Get(o, PbsDestFolder)),
      ssh := ToBool(Get(o, Ssh)),
      sshTargets := TargetsOf(ToArr(Get(o, SshTargets))))
  }

  method DirsFromJson(items: seq<Json>) returns (dirs: map<string, string>)
    ensures dirs == DirsOf(items)
  {
    dirs := map[];
    for i := 0 to |items|
      invariant dirs == DirsOf(items[..i])
    {
      assert items[..i + 1][..i] == items[..i];
      var d := ToObj(items[i]);
      dirs := dirs[ToStr(Get(d, Source)) := ToStr(Get(d, Dest))];
    }
    assert items[..|items|] == items;
  }

  method StringsFromJson(items: seq<Json>) returns (ss: seq<string>)
    ensures ss == StringsOf(items)
  {
    ss := [];
    for i := 0 to |items|
      invariant ss == StringsOf(items[..i])
    {
      assert items[..i + 1][..i] == items[..i];
      ss := ss + [ToStr(items[i])];
    }
    assert items[..|items|] == items;
  }

  method TargetsFromJson(items: seq<Json>) returns (targets: seq<SshTarget>)
    ensures targets == TargetsOf(items)
  {
    targets := [];
    for i := 0 to |items|
      invariant targets == TargetsOf(items[..i])
    {
      assert items[..i + 1][..i] == items[..i];
      var to := ToObj(items[i]);
      var tdirs := DirsFromJson(ToArr(Get(to, BackupDirs)));
      targets := targets + [SshTarget(ToStr(Get(to, ServerUuid)), tdirs)];
    }
    assert items[..|items|] == items;
  }

  method JobFromJson(o: Object) returns (job: Job)
    ensures job == JobOf(o)
  {
    job := NEW_JOB;
    var dirs := DirsFromJson(ToArr(Get(o, BackupDirs)));
    job := job.(
      name := ToStr(Get(o, Name)),
      device := ToStr(Get(o, Device)),
      partitionUuid := ToStr(Get(o, PartitionUuid)),
      backupdirs := dirs);
    job := job.(
      deleteAddFileOnDest := ToBool(Get(o, DeleteAddFileOnDest)),
      startBackupOnHotplug := ToBool(Get(o, StartBackupOnHotplug)),
      saveLog := ToBool(Get(o, SaveLog)),
      compareViaChecksum := ToBool(Get(o, CompareViaChecksum)),
      umountAfterBackup := if UmountAfterBackup in o then ToBool(o[UmountAfterBackup]) else true,
      notify := ToBool(Get(o, Notify)),
      notifyRecipients := ToStr(Get(o, NotifyRecipients)),
      scriptBeforeBackup := ToStr(Get(o, ScriptBeforeBackup)),
      scriptAfterBackup := ToStr(Get(o, ScriptAfterBackup)));
    job := job.(
      intervalType := ToInt(Get(o, IntervalType), 0),
      intervalTime := ToStr(Get(o, IntervalTime)),
      intervalDay := ToInt(Get(o, IntervalDay), 0),
      encLuksType := ToInt(Get(o, EncLuksType), 0),
      encLuksFilePath := ToStr(Get(o, EncLuksFilePath)));
    var ids := StringsFromJson(ToArr(Get(o, PbsBackupIds)));
    var targets := TargetsFromJson(ToArr(Get(o, SshTargets)));
    job := job.(
      pbs := ToBool(Get(o, Pbs)),
      pbsServerUuid := ToStr(Get(o, PbsServerUuid)),
      pbsServerStorage := ToStr(Get(o, PbsServerStorage)),
      pbsBackupIds := ids,
      pbsDestFolder := ToStr(Get(o, PbsDestFolder)),
      ssh := ToBool(Get(o, Ssh)),
      sshTargets := targets);
  }

  // ---- Writing: hash maps are listed in an order nobody controls ---------------------------------

  function DirJson(source: string, dest: string): Json {
    Obj(map[Source := Str(source), Dest := Str(dest)])
  }

  ghost predicate Lists(order: seq<string>, keys: set<string>) {
    && (forall k | k in order :: k in keys)
    && (forall k | k in keys :: k in order)
    && (forall i, j | 0 <= i < j < |order| :: order[i] != order[j])
  }

  function DirItems(dirs: map<string, string>, order: seq<string>): seq<Json>
    requires forall k | k in order :: k in dirs
  {
    if order == [] then []
    else
      var k := order[|order| - 1];
      DirItems(dirs, order[..|order| - 1]) + [DirJson(k, dirs[k])]
  }

  /** `j` lists the directories in some iteration order. */
  ghost predicate IsDirsJson(dirs: map<string, string>, j: Json) {
    exists order :: Lists(order, dirs.Keys) && j == Arr(DirItems(dirs, order))
  }

  ghost predicate IsTargetJson(t: SshTarget, j: Json) {
    exists dirs :: IsDirsJson(t.backupdirs, dirs) && j == Obj(map[ServerUuid := Str(t.serverUuid), BackupDirs := dirs])
  }

  ghost predicate IsTargetsJson(targets: seq<SshTarget>, items: seq<Json>) {
    |items| == |targets| && forall i | 0 <= i < |items| :: IsTargetJson(targets[i], items[i])
  }

  function StringItems(ss: seq<string>): seq<Json> {
    if ss == [] then [] else StringItems(ss[..|ss| - 1]) + [Str(ss[|ss| - 1])]
  }

  // A job's JSON is written section by section.

  /** The section of a job's JSON a key belongs to; 0 for keys a job does not have. */
  function Section(f: Field): nat {
    match f
    case Name | Device | PartitionUuid | BackupDirs => 1
    case DeleteAddFileOnDest | StartBackupOnHotplug | SaveLog | CompareViaChecksum | UmountAfterBackup => 2
    case Notify | NotifyRecipients | ScriptBeforeBackup | ScriptAfterBackup => 3
    case IntervalType | IntervalTime | IntervalDay => 4
    case EncLuksType | EncLuksFilePath => 5
    case Pbs | PbsServerUuid | PbsServerStorage => 6
    case PbsBackupIds | PbsDestFolder => 7
    case Ssh | SshTargets => 8
    case _ => 0
  }

  ghost predicate HoldsWhat(job: Job, o: Object) {
    && Get(o, Name) == Str(job.name)
    && Get(o, Device) == Str(job.device)
    && Get(o, PartitionUuid) == Str(job.partitionUuid)
    && IsDirsJson(job.backupdirs, Get(o, BackupDirs))
  }

  ghost predicate HoldsOptions(job: Job, o: Object) {
    && Get(o, DeleteAddFileOnDest) == Bool(job.deleteAddFileOnDest)
    && Get(o, StartBackupOnHotplug) == Bool(job.startBackupOnHotplug)
    && Get(o, SaveLog) == Bool(job.saveLog)
    && Get(o, CompareViaChecksum) == Bool(job.compareViaChecksum)
    && Get(o, UmountAfterBackup) == Bool(job.umountAfterBackup)
  }

  ghost predicate HoldsHooks(job: Job, o: Object) {
    && Get(o, Notify) == Bool(job.notify)
    && Get(o, NotifyRecipients) == Str(job.notifyRecipients)
    && Get(o, ScriptBeforeBackup) == Str(job.scriptBeforeBackup)
    && Get(o, ScriptAfterBackup) == Str(job.scriptAfterBackup)
  }

  ghost predicate HoldsSchedule(job: Job, o: Object) {
    && Get(o, IntervalType) == IntJson(job.intervalType)
    && Get(o, IntervalTime) == Str(job.intervalTime)
    && Get(o, IntervalDay) == IntJson(job.intervalDay)
  }

  ghost predicate HoldsLuks(job: Job, o: Object) {
    && Get(o, EncLuksType) == IntJson(job.encLuksType)
    && Get(o, EncLuksFilePath) == Str(job.encLuksFilePath)
  }

  ghost predicate HoldsPbs(job: Job, o: Object) {
    && Get(o, Pbs) == Bool(job.pbs)
    && Get(o, PbsServerUuid) == Str(job.pbsServerUuid)
    && Get(o, PbsServerStorage) == Str(job.pbsServerStorage)
  }

  ghost predicate HoldsPbsLists(job: Job, o: Object) {
    && Get(o, PbsBackupIds) == Arr(StringItems(job.pbsBackupIds))
    && Get(o, PbsDestFolder) == Str(job.pbsDestFolder)
  }

  ghost predicate HoldsSsh(job: Job, o: Object) {
    && Get(o, Ssh) == Bool(job.ssh)
    && Get(o, SshTargets).Arr? && IsTargetsJson(job.sshTargets, Get(o, SshTargets).items)
  }

  /** The first `k` sections are written, and nothing else is. */
  ghost predicate Progress(job: Job, o: Object, k: nat) {
    && (k >= 1 ==> HoldsWhat(job, o))
    && (k >= 2 ==> HoldsOptions(job, o))
    && (k >= 3 ==> HoldsHooks(job, o))
    && (k >= 4 ==> HoldsSchedule(job, o))
    && (k >= 5 ==> HoldsLuks(job, o))
    && (k >= 6 ==> HoldsPbs(job, o))
    && (k >= 7 ==> HoldsPbsLists(job, o))
    && (k >= 8 ==> HoldsSsh(job, o))
    && (forall f | f in o :: 1 <= Section(f) <= k)
  }

  /** `o` is what the mapper may write for the job, whatever order its maps are walked in. */
  ghost predicate IsJobJson(job: Job, o: Object) {
    Progress(job, o, 8)
  }

  /** `r` differs from `o` in one section only. */
  ghost predicate OnlySection(o: Object, r: Object, section: nat) {
    && (forall f {:trigger Get(r, f)} | Section(f) != section :: Get(r, f) == Get(o, f))
    && (forall f {:trigger f in r} | f in r :: f in o || Section(f) == section)
  }

  method DirsToJson(dirs: map<string, string>) returns (j: Json)
    ensures IsDirsJson(dirs, j)
  {
    var items := [];
    var rest := dirs.Keys;
    ghost var order := [];
    while rest != {}
      invariant rest <= dirs.Keys
      invariant Lists(order, dirs.Keys - rest)
      invariant items == DirItems(dirs, order)
      decreases rest
    {
      var k :| k in rest;
      assert (order + [k])[..|order|] == order;
      items := items + [DirJson(k, dirs[k])];
      rest := rest - {k};
      order := order + [k];
    }
    assert dirs.Keys - rest == dirs.Keys;
    j := Arr(items);
  }

  method StringsToJson(ss: seq<string>) returns (j: Json)
    ensures j == Arr(StringItems(ss))
  {
    var items := [];
    for i := 0 to |ss|
      invariant items == StringItems(ss[..i])
    {
      assert ss[..i + 1][..i] == ss[..i];
      items := items + [Str(ss[i])];
    }
    assert ss[..|ss|] == ss;
    j := Arr(items);
  }

  method TargetsToJson(targets: seq<SshTarget>) returns (items: seq<Json>)
    ensures IsTargetsJson(targets, items)
  {
    items := [];
    for i := 0 to |targets|
      invariant IsTargetsJson(targets[..i], items)
    {
      var tdirs := DirsToJson(targets[i].backupdirs);
      var to := Obj(map[ServerUuid := Str(targets[i].serverUuid), BackupDirs := tdirs]);
      assert IsTargetJson(targets[i], to);
      items := items + [to];
    }
    assert targets[..|targets|] == targets;
  }

  lemma ProgressKept(job: Job, o: Object, r: Object, k: nat)
    requires Progress(job, o, k) && OnlySection(o, r, k + 1)
    ensures k >= 1 ==> HoldsWhat(job, r)
    ensures k >= 2 ==> HoldsOptions(job, r)
    ensures k >= 3 ==> HoldsHooks(job, r)
    ensures k >= 4 ==> HoldsSchedule(job, r)
    ensures k >= 5 ==> HoldsLuks(job, r)
    ensures k >= 6 ==> HoldsPbs(job, r)
    ensures k >= 7 ==> HoldsPbsLists(job, r)
    ensures forall f | f in r :: 1 <= Section(f) <= k + 1
  {
  }

  method WriteWhat(o: Object, job: Job) returns (r: Object)
    ensures HoldsWhat(job, r) && OnlySection(o, r, 1)
  {
    var dirs := DirsToJson(job.backupdirs);
    r := o;
    r := r[Name := Str(job.name)];
    r := r[Device := Str(job.device)];
    r := r[PartitionUuid := Str(job.partitionUuid)];
    r := r[BackupDirs := dirs];
  }

  method WriteOptions(o: Object, job: Job) returns (r: Object)
    ensures HoldsOptions(job, r) && OnlySection(o, r, 2)
  {
    r := o;
    r := r[DeleteAddFileOnDest := Bool(job.deleteAddFileOnDest)];
    r := r[StartBackupOnHotplug := Bool(job.startBackupOnHotplug)];
    r := r[SaveLog := Bool(job.saveLog)];
    r := r[CompareViaChecksum := Bool(job.compareViaChecksum)];
    r := r[UmountAfterBackup := Bool(job.umountAfterBackup)];
  }

  method WriteHooks(o: Object, job: Job) returns (r: Object)
    ensures HoldsHooks(job, r) && OnlySection(o, r, 3)
  {
    r := o;
    r := r[Notify := Bool(job.notify)];
    r := r[NotifyRecipients := Str(job.notifyRecipients)];
    r := r[ScriptBeforeBackup := Str(job.scriptBeforeBackup)];
    r := r[ScriptAfterBackup := Str(job.scriptAfterBackup)];
  }

  method WriteSchedule(o: Object, job: Job) returns (r: Object)
    ensures HoldsSchedule(job, r) && OnlySection(o, r, 4)
  {
    r := o;
    r := r[IntervalType := IntJson(job.intervalType)];
    r := r[IntervalTime := Str(job.intervalTime)];
    r := r[IntervalDay := IntJson(job.intervalDay)];
  }

  method WriteLuks(o: Object, job: Job) returns (r: Object)
    ensures HoldsLuks(job, r) && OnlySection(o, r, 5)
  {
    r := o;
    r := r[EncLuksType := IntJson(job.encLuksType)];
    r := r[EncLuksFilePath := Str(job.encLuksFilePath)];
  }

  method WritePbs(o: Object, job: Job) returns (r: Object)
    ensures HoldsPbs(job, r) && OnlySection(o, r, 6)
  {
    r := o;
    r := r[Pbs := Bool(job.pbs)];
    r := r[PbsServerUuid := Str(job.pbsServerUuid)];
    r := r[PbsServerStorage := Str(job.pbsServerStorage)];
  }

  method WritePbsLists(o: Object, job: Job) returns (r: Object)
    ensures HoldsPbsLists(job, r) && OnlySection(o, r, 7)
  {
    var ids := StringsToJson(job.pbsBackupIds);
    r := o;
    r := r[PbsBackupIds := ids];
    r := r[PbsDestFolder := Str(job.pbsDestFolder)];
  }

  method WriteSsh(o: Object, job: Job) returns (r: Object)
    ensures HoldsSsh(job, r) && OnlySection(o, r, 8)
  {
    var targets := TargetsToJson(job.sshTargets);
    r := o;
    r := r[Ssh := Bool(job.ssh)];
    r := r[SshTargets := Arr(targets)];
  }

  method JobToJson(job: Job) returns (o: Object)
    ensures IsJobJson(job, o)
  {
    o := map[];
    ghost var before := o;
    o := WriteWhat(o, job);
    ProgressKept(job, before, o, 0);
    before := o;
    o := WriteOptions(o, job);
    ProgressKept(job, before, o, 1);
    before := o;
    o := WriteHooks(o, job);
    ProgressKept(job, before, o, 2);
    before := o;
    o := WriteSchedule(o, job);
    ProgressKept(job, before, o, 3);
    before := o;
    o := WriteLuks(o, job);
    ProgressKept(job, before, o, 4);
    before := o;
    o := WritePbs(o, job);
    ProgressKept(job, before, o, 5);
    before := o;
    o := WritePbsLists(o, job);
    ProgressKept(job, before, o, 6);
    before := o;
    o := WriteSsh(o, job);
    ProgressKept(job, before, o, 7);
  }

  // ---- Round trips ------------------------------------------------------------------------------------

  /** What a list of source/dest entries means: the last entry for a source decides. */
  lemma LastEntryWins(items: seq<Json>, k: string)
    ensures k in DirsOf(items) <==> exists i | 0 <= i < |items| :: SourceOf(items[i]) == k
    ensures k in DirsOf(items) ==> exists i :: IsLastEntry(items, k, i) && DirsOf(items)[k] == DestOf(items[i])
  {
    if exists i | 0 <= i < |items| :: SourceOf(items[i]) == k {
      var i :| 0 <= i < |items| && SourceOf(items[i]) == k;
      var last := LastEntry(items, k, i);
      LastEntryDecides(items, k, last);
    } else {
      NoEntry(items, k);
    }
  }

  function SourceOf(j: Json): string {
    ToStr(Get(ToObj(j), Source))
  }

  function DestOf(j: Json): string {
    ToStr(Get(ToObj(j), Dest))
  }

  predicate IsLastEntry(items: seq<Json>, k: string, i: int) {
    0 <= i < |items| && SourceOf(items[i]) == k && forall j | i < j < |items| :: SourceOf(items[j]) != k
  }

  lemma LastEntry(items: seq<Json>, k: string, i: nat) returns (last: nat)
    requires i < |items| && SourceOf(items[i]) == k
    ensures IsLastEntry(items, k, last)
  {
    last := |items| - 1;
    while SourceOf(items[last]) != k
      invariant i <= last < |items|
      invariant forall j | last < j < |items| :: SourceOf(items[j]) != k
      decreases last
    {
      last := last - 1;
    }
  }

  lemma {:induction false} LastEntryDecides(items: seq<Json>, k: string, i: nat)
    requires IsLastEntry(items, k, i)
    ensures k in DirsOf(items) && DirsOf(items)[k] == DestOf(items[i])
  {
    var init := items[..|items| - 1];
    if i == |init| {
    } else {
      assert IsLastEntry(init, k, i);
      LastEntryDecides(init, k, i);
    }
  }

  lemma {:induction false} NoEntry(items: seq<Json>, k: string)
    requires forall i | 0 <= i < |items| :: SourceOf(items[i]) != k
    ensures k !in DirsOf(items)
  {
    if items == [] {
    } else {
      NoEntry(items[..|items| - 1], k);
    }
  }

  lemma {:induction false} DirsAlong(dirs: map<string, string>, order: seq<string>)
    requires forall k | k in order :: k in dirs
    ensures DirsOf(DirItems(dirs, order)) == map k | k in order :: dirs[k]
  {
    if order == [] {
    } else {
      var init, k := order[..|order| - 1], order[|order| - 1];
      assert order == init + [k];
      DirsAlong(dirs, init);
      var items := DirItems(dirs, order);
      assert items[..|items| - 1] == DirItems(dirs, init);
      var d := ToObj(DirJson(k, dirs[k]));
      assert Get(d, Source) == Str(k) && Get(d, Dest) == Str(dirs[k]);
    }
  }

  lemma DirsRoundTrip(dirs: map<string, string>, j: Json)
    requires IsDirsJson(dirs, j)
    ensures DirsOf(ToArr(j)) == dirs
  {
    var order :| Lists(order, dirs.Keys) && j == Arr(DirItems(dirs, order));
    DirsAlong(dirs, order);
    assert (map k | k in order :: dirs[k]) == dirs;
  }

  lemma {:induction false} StringsRoundTrip(ss: seq<string>)
    ensures StringsOf(StringItems(ss)) == ss
  {
    if ss == [] {
    } else {
      StringsRoundTrip(ss[..|ss| - 1]);
      assert StringItems(ss)[..|StringItems(ss)| - 1] == StringItems(ss[..|ss| - 1]);
    }
  }

  /** No entry of a list is dropped, whatever it holds. */
  lemma {:induction false} StringsOfAt(items: seq<Json>)
    ensures |StringsOf(items)| == |items|
    ensures forall i | 0 <= i < |items| :: StringsOf(items)[i] == if items[i].Str? then items[i].s else ""
  {
    if items == [] {
    } else {
      StringsOfAt(items[..|items| - 1]);
    }
  }

  lemma {:induction false} TargetsOfAt(items: seq<Json>)
    ensures |TargetsOf(items)| == |items|
    ensures forall i | 0 <= i < |items| :: TargetsOf(items)[i] == TargetOf(items[i])
  {
    if items == [] {
    } else {
      TargetsOfAt(items[..|items| - 1]);
    }
  }

  lemma TargetsRoundTrip(targets: seq<SshTarget>, items: seq<Json>)
    requires IsTargetsJson(targets, items)
    ensures TargetsOf(items) == targets
  {
    TargetsOfAt(items);
    forall i | 0 <= i < |items|
      ensures TargetOf(items[i]) == targets[i]
    {
      TargetRoundTrip(targets[i], items[i]);
    }
  }

  lemma TargetRoundTrip(t: SshTarget, j: Json)
    requires IsTargetJson(t, j)
    ensures TargetOf(j) == t
  {
    var dirs :| IsDirsJson(t.backupdirs, dirs) && j == Obj(map[ServerUuid := Str(t.serverUuid), BackupDirs := dirs]);
    var o := ToObj(j);
    assert Get(o, ServerUuid) == Str(t.serverUuid) && Get(o, BackupDirs) == dirs;
    DirsRoundTrip(t.backupdirs, dirs);
  }

  /** Every job survives the trip through JSON, whatever order its maps were written in. */
  lemma JobRoundTrip(job: Job, o: Object)
    ensures IsJobJson(job, o) ==> JobOf(o) == job
  {
    if IsJobJson(job, o) {
      DirsRoundTrip(job.backupdirs, Get(o, BackupDirs));
      TargetsRoundTrip(job.sshTargets, Get(o, SshTargets).items);
      StringsRoundTrip(job.pbsBackupIds);
      IntRoundTrip(job.intervalType, 0);
      IntRoundTrip(job.intervalDay, 0);
      IntRoundTrip(job.encLuksType, 0);
    }
  }

  /** Reading any input, writing the job and reading again gives the job first read: what was
      missing, mistyped or duplicated is settled by the first reading. */
  lemma FirstReadingSettles(input: Object, written: Object)
    ensures IsJobJson(JobOf(input), written) ==>
              && JobOf(written) == JobOf(input)
              && (UmountAfterBackup !in input ==> ToBool(Get(written, UmountAfterBackup)))
  {
    JobRoundTrip(JobOf(input), written);
  }

  /** Two jobs that may be written as the same JSON are the same job. */
  lemma JobJsonIdentifiesJob(a: Job, b: Job, o: Object)
    ensures IsJobJson(a, o) && IsJobJson(b, o) ==> a == b
  {
    JobRoundTrip(a, o);
    JobRoundTrip(b, o);
  }

  // ---- Input that is not a job's JSON -------------------------------------------------------------------

  datatype Kind = Flag | Number | List | Text

  /** What a job's key is read as. */
  function KindOf(f: Field): Kind {
    match f
    case DeleteAddFileOnDest | StartBackupOnHotplug | SaveLog | CompareViaChecksum | UmountAfterBackup => Flag
    case Notify | Pbs | Ssh => Flag
    case IntervalType | IntervalDay | EncLuksType => Number
    case BackupDirs | PbsBackupIds | SshTargets => List
    case _ => Text
  }

  /** Numbers have to be 32-bit integers. */
  ghost predicate Fits(k: Kind, j: Json) {
    match k
    case Flag => j.Bool?
    case Number => exists n: int32 :: j == IntJson(n)
    case List => j.Arr?
    case Text => j.Str?
  }

  /** The empty object gives the default job. */
  lemma EmptyGivesDefaults()
    ensures JobOf(map[]) == Job("", "", "", map[], false, false, false, false, true, false, "", "", "", 0, "", 0, 0, "",
                                false, "", "", [], "", false, [])
  {
  }

  /** The two objects are read alike, the unmount flag apart. */
  predicate TextsAlike(o: Object, r: Object) {
    && ToStr(Get(o, Name)) == ToStr(Get(r, Name))
    && ToStr(Get(o, Device)) == ToStr(Get(r, Device))
    && ToStr(Get(o, PartitionUuid)) == ToStr(Get(r, PartitionUuid))
    && ToStr(Get(o, NotifyRecipients)) == ToStr(Get(r, NotifyRecipients))
    && ToStr(Get(o, ScriptBeforeBackup)) == ToStr(Get(r, ScriptBeforeBackup))
    && ToStr(Get(o, ScriptAfterBackup)) == ToStr(Get(r, ScriptAfterBackup))
  }

  predicate MoreTextsAlike(o: Object, r: Object) {
    && ToStr(Get(o, IntervalTime)) == ToStr(Get(r, IntervalTime))
    && ToStr(Get(o, EncLuksFilePath)) == ToStr(Get(r, EncLuksFilePath))
    && ToStr(Get(o, PbsServerUuid)) == ToStr(Get(r, PbsServerUuid))
    && ToStr(Get(o, PbsServerStorage)) == ToStr(Get(r, PbsServerStorage))
    && ToStr(Get(o, PbsDestFolder)) == ToStr(Get(r, PbsDestFolder))
  }

  predicate FlagsAlike(o: Object, r: Object) {
    && ToBool(Get(o, DeleteAddFileOnDest)) == ToBool(Get(r, DeleteAddFileOnDest))
    && ToBool(Get(o, StartBackupOnHotplug)) == ToBool(Get(r, StartBackupOnHotplug))
    && ToBool(Get(o, SaveLog)) == ToBool(Get(r, SaveLog))
    && ToBool(Get(o, CompareViaChecksum)) == ToBool(Get(r, CompareViaChecksum))
    && ToBool(Get(o, Notify)) == ToBool(Get(r, Notify))
    && ToBool(Get(o, Pbs)) == ToBool(Get(r, Pbs))
    && ToBool(Get(o, Ssh)) == ToBool(Get(r, Ssh))
  }

  predicate RestAlike(o: Object, r: Object) {
    && ToInt(Get(o, IntervalType), 0) == ToInt(Get(r, IntervalType), 0)
    && ToInt(Get(o, IntervalDay), 0) == ToInt(Get(r, IntervalDay), 0)
    && ToInt(Get(o, EncLuksType), 0) == ToInt(Get(r, EncLuksType), 0)
    && ToArr(Get(o, BackupDirs)) == ToArr(Get(r, BackupDirs))
    && ToArr(Get(o, PbsBackupIds)) == ToArr(Get(r, PbsBackupIds))
    && ToArr(Get(o, SshTargets)) == ToArr(Get(r, SshTargets))
  }

  lemma ReadAlike(o: Object, r: Object)
    requires TextsAlike(o, r) && MoreTextsAlike(o, r) && FlagsAlike(o, r) && RestAlike(o, r)
    ensures JobOf(o) == JobOf(r).(umountAfterBackup := JobOf(o).umountAfterBackup)
  {
  }

  lemma TextsWithoutMisfit(o: Object, f: Field)
    requires f in o && (Section(f) == 0 || !Fits(KindOf(f), o[f]))
    ensures TextsAlike(o, o - {f})
  {
  }

  lemma MoreTextsWithoutMisfit(o: Object, f: Field)
    requires f in o && (Section(f) == 0 || !Fits(KindOf(f), o[f]))
    ensures MoreTextsAlike(o, o - {f})
  {
  }

  lemma FlagsWithoutMisfit(o: Object, f: Field)
    requires f in o && (Section(f) == 0 || !Fits(KindOf(f), o[f]))
    ensures FlagsAlike(o, o - {f})
  {
  }

  lemma RestWithoutMisfit(o: Object, f: Field)
    requires f in o && (Section(f) == 0 || !Fits(KindOf(f), o[f]))
    ensures RestAlike(o, o - {f})
  {
    IntFits(o[f]);
  }

  lemma IntFits(j: Json)
    ensures ToInt(j, 0) != 0 ==> Fits(Number, j)
  {
    if ToInt(j, 0) != 0 {
      assert j == IntJson(ToInt(j, 0));
    }
  }

  /** A value of the wrong type, and any key a job does not have, might as well be missing; a mistyped
      unmount flag alone is not, as it is read as false. */
  lemma MistypedIsMissing(o: Object, f: Field)
    requires f in o && (Section(f) == 0 || !Fits(KindOf(f), o[f]))
    ensures f != UmountAfterBackup ==> JobOf(o) == JobOf(o - {f})
    ensures f == UmountAfterBackup ==> JobOf(o) == JobOf(o - {f}).(umountAfterBackup := false)
  {
    TextsWithoutMisfit(o, f);
    MoreTextsWithoutMisfit(o, f);
    FlagsWithoutMisfit(o, f);
    RestWithoutMisfit(o, f);
    ReadAlike(o, o - {f});
    assert JobOf(o).umountAfterBackup == (UmountAfterBackup !in o || ToBool(o[UmountAfterBackup]));
  }

  // ---- Servers ----------------------------------------------------------------------------------------

  datatype PBServer = PBServer(
    uuid: string, name: string, host: string, port: uint32, username: string,
    password: string, fingerprint: string, keyfile: string, keypass: string)

  datatype SSHServer = SSHServer(
    uuid: string, name: string, host: string, port: uint32, username: string,
    keyfile: string, keypass: string, hostkey: string)

  const PBS_PORT: int32 := 8007
  const SSH_PORT: int32 := 22

  /** C++ casts between 32-bit unsigned and signed wrap around. */
  function ToSigned(p: uint32): int32 {
    if p < 0x8000_0000 then p as int32 else (p as int - 0x1_0000_0000) as int32
  }

  function ToUnsigned(n: int32): uint32 {
    if n >= 0 then n as uint32 else (n as int + 0x1_0000_0000) as uint32
  }

  function PbServerToJson(srv: PBServer, includeSecrets: bool): Object {
    var o := map[
      Uuid := Str(srv.uuid), Name := Str(srv.name), Host := Str(srv.host), Port := IntJson(ToSigned(srv.port)),
      Username := Str(srv.username), Fingerprint := Str(srv.fingerprint), Keyfile := Str(srv.keyfile)];
    if includeSecrets then o[Password := Str(srv.password)][Keypass := Str(srv.keypass)] else o
  }

  /** `newUuid` is the uuid a new record gets; it is kept unless the object supplies one. */
  function PbServerFromJson(o: Object, newUuid: string): PBServer {
    PBServer(
      uuid := if ToStr(Get(o, Uuid)) != "" then ToStr(Get(o, Uuid)) else newUuid,
      name := ToStr(Get(o, Name)),
      host := ToStr(Get(o, Host)),
      port := ToUnsigned(ToInt(Get(o, Port), PBS_PORT)),
      username := ToStr(Get(o, Username)),
      password := ToStr(Get(o, Password)),
      fingerprint := ToStr(Get(o, Fingerprint)),
      keyfile := ToStr(Get(o, Keyfile)),
      keypass := ToStr(Get(o, Keypass)))
  }

  function SshServerToJson(srv: SSHServer, includeSecrets: bool): Object {
    var o := map[
      Uuid := Str(srv.uuid), Name := Str(srv.name), Host := Str(srv.host), Port := IntJson(ToSigned(srv.port)),
      Username := Str(srv.username), Keyfile := Str(srv.keyfile), HostkeySet := Bool(srv.hostkey != "")];
    if includeSecrets then o[Keypass := Str(srv.keypass)] else o
  }

  function SshServerFromJson(o: Object, newUuid: string): SSHServer {
    SSHServer(
      uuid := if ToStr(Get(o, Uuid)) != "" then ToStr(Get(o, Uuid)) else newUuid,
      name := ToStr(Get(o, Name)),
      host := ToStr(Get(o, Host)),
      port := ToUnsigned(ToInt(Get(o, Port), SSH_PORT)),
      username := ToStr(Get(o, Username)),
      keyfile := ToStr(Get(o, Keyfile)),
      keypass := ToStr(Get(o, Keypass)),
      hostkey := ToStr(Get(o, Hostkey)))
  }

  lemma PortRoundTrip(p: uint32)
    ensures ToUnsigned(ToSigned(p)) == p
  {
  }

  /** What a GET shows: each visible field under its own key, a port above the signed range as a negative
      number, and nothing that depends on a secret. */
  lemma PbServerShown(s: PBServer, password: string, keypass: string)
    ensures var o := PbServerToJson(s, false);
            && o == PbServerToJson(s.(password := password, keypass := keypass), false)
            && Get(o, Uuid) == Str(s.uuid) && Get(o, Name) == Str(s.name) && Get(o, Host) == Str(s.host)
            && Get(o, Username) == Str(s.username) && Get(o, Fingerprint) == Str(s.fingerprint)
            && Get(o, Keyfile) == Str(s.keyfile)
            && Get(o, Port) == Num((if s.port < 0x8000_0000 then s.port as int else s.port as int - 0x1_0000_0000) as real)
  {
  }

  /** Of the host key a GET shows only whether there is one. */
  lemma SshServerShown(s: SSHServer, keypass: string, hostkey: string)
    requires hostkey == "" <==> s.hostkey == ""
    ensures var o := SshServerToJson(s, false);
            && o == SshServerToJson(s.(keypass := keypass, hostkey := hostkey), false)
            && Get(o, HostkeySet) == Bool(s.hostkey != "")
            && Get(o, Uuid) == Str(s.uuid) && Get(o, Name) == Str(s.name) && Get(o, Host) == Str(s.host)
            && Get(o, Username) == Str(s.username) && Get(o, Keyfile) == Str(s.keyfile)
            && Get(o, Port) == Num((if s.port < 0x8000_0000 then s.port as int else s.port as int - 0x1_0000_0000) as real)
  {
  }

  /** With its secrets a server survives the trip; one without a uuid gets the new one. */
  lemma PbServerRoundTrip(s: PBServer, newUuid: string)
    ensures PbServerFromJson(PbServerToJson(s, true), newUuid) == s.(uuid := if s.uuid == "" then newUuid else s.uuid)
    ensures PbServerFromJson(map[], newUuid) == PBServer(newUuid, "", "", 8007, "", "", "", "", "")
  {
    PortRoundTrip(s.port);
    IntRoundTrip(ToSigned(s.port), PBS_PORT);
    var o := PbServerToJson(s, true);
    assert Get(o, Port) == IntJson(ToSigned(s.port)) && Get(o, Uuid) == Str(s.uuid) && Get(o, Name) == Str(s.name);
    assert Get(o, Host) == Str(s.host) && Get(o, Username) == Str(s.username);
    assert Get(o, Fingerprint) == Str(s.fingerprint) && Get(o, Keyfile) == Str(s.keyfile);
    assert Get(o, Password) == Str(s.password) && Get(o, Keypass) == Str(s.keypass);
  }

  /** An SSH server too, but for its host key, which is never written. */
  lemma SshServerRoundTrip(s: SSHServer, newUuid: string)
    ensures SshServerFromJson(SshServerToJson(s, true), newUuid)
         == s.(uuid := if s.uuid == "" then newUuid else s.uuid, hostkey := "")
    ensures SshServerFromJson(map[], newUuid) == SSHServer(newUuid, "", "", 22, "", "", "", "")
  {
    PortRoundTrip(s.port);
    IntRoundTrip(ToSigned(s.port), SSH_PORT);
    var o := SshServerToJson(s, true);
    assert Get(o, Port) == IntJson(ToSigned(s.port)) && Get(o, Uuid) == Str(s.uuid) && Get(o, Name) == Str(s.name);
    assert Get(o, Host) == Str(s.host) && Get(o, Username) == Str(s.username) && Get(o, Keyfile) == Str(s.keyfile);
    assert Get(o, Keypass) == Str(s.keypass) && Get(o, Hostkey) == Null;
  }
}
