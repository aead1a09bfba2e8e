/** Updating stored servers over the web: secrets a client leaves out are kept, and the SSH host key
    pinned by a connection test meets updates that run at the same time. */
module ServerStore {
  import opened JsonMap
  import opened Wrappers

  datatype Status = Ok | InvalidId | NotFound

  predicate IsUuidChar(c: char) {
    '0' <= c <= '9' || 'a' <= c <= 'f' || 'A' <= c <= 'F' || c == '-'
  }

  /** The pattern's end mark also matches before a line end that closes the text. */
  predicate ValidUuid(s: string) {
    MatchesId(if s != "" && s[|s| - 1] == '\n' then s[..|s| - 1] else s)
  }

  predicate MatchesId(id: string) {
    8 <= |id| <= 64 && forall i | 0 <= i < |id| :: IsUuidChar(id[i])
  }

  /** The ids let through: 8 to 64 hexadecimal digits and dashes, and such a text with a line end. */
  lemma ValidUuidIff(s: string)
    ensures ValidUuid(s) <==> IsId(s) || exists id :: IsId(id) && s == id + "\n"
  {
    if ValidUuid(s) {
      var id := if s != "" && s[|s| - 1] == '\n' then s[..|s| - 1] else s;
      IsIdIff(id);
      assert id == s || s == id + "\n";
      assert IsId(s) || (IsId(id) && s == id + "\n");
    }
    if IsId(s) {
      IsIdIff(s);
      assert IsUuidChar(s[|s| - 1]);
    }
    if exists id :: IsId(id) && s == id + "\n" {
      var id :| IsId(id) && s == id + "\n";
      IsIdIff(id);
      assert s[..|s| - 1] == id && s[|s| - 1] == '\n';
      assert ValidUuid(s);
    }
  }

  predicate IsId(id: string) {
    8 <= |id| <= 64 && forall c | c in id :: c in "0123456789abcdefABCDEF-"
  }

  lemma IsIdIff(id: string)
    ensures IsId(id) <==> MatchesId(id)
  {
    forall c | c in id
      ensures IsUuidChar(c) <==> c in "0123456789abcdefABCDEF-"
    {
      UuidChars(c);
    }
  }

  lemma UuidChars(c: char)
    ensures IsUuidChar(c) <==> c in "0123456789abcdefABCDEF-"
  {
  }

  /** `a` unless it was left out. */
  function Or(a: string, b: string): string {
    if a == "" then b else a
  }

  /** The record a PUT saves over `existing`. */
  function MergedPbs(existing: PBServer, body: Object, uuid: string): PBServer {
    var srv := PbServerFromJson(body, "");
    srv.(uuid := uuid, password := Or(srv.password, existing.password), keypass := Or(srv.keypass, existing.keypass))
  }

  function MergedSsh(existing: SSHServer, body: Object, uuid: string): SSHServer {
    var srv := SshServerFromJson(body, "");
    srv.(uuid := uuid, keypass := Or(srv.keypass, existing.keypass), hostkey := Or(srv.hostkey, existing.hostkey))
  }

  /** The store's own critical section: the record replaces whatever is there. */
  function Saved(ssh: map<string, SSHServer>, srv: SSHServer): map<string, SSHServer> {
    ssh[srv.uuid := srv]
  }

  /** The store after a connection test that started from `snapshot`: for a stored server a captured
      key is pinned by saving the snapshot with it. */
  function AfterTest(ssh: map<string, SSHServer>, snapshot: SSHServer, uuid: string, ok: bool, hostkey: string)
    : map<string, SSHServer>
  {
    if ok && uuid != "" && hostkey != "" then Saved(ssh, snapshot.(uuid := uuid, hostkey := hostkey)) else ssh
  }

  // ---- The handlers --------------------------------------------------------------------------------

  class Servers {
    var pbs: map<string, PBServer>
    var ssh: map<string, SSHServer>

    constructor (pbs: map<string, PBServer>, ssh: map<string, SSHServer>)
      ensures this.pbs == pbs && this.ssh == ssh
    {
      this.pbs, this.ssh := pbs, ssh;
    }

    method PutPbs(uuid: string, body: Object) returns (status: Status)
      modifies `pbs
      ensures status == if !ValidUuid(uuid) then InvalidId else if uuid !in old(pbs) then NotFound else Ok
      ensures pbs == if status == Ok then old(pbs)[uuid := MergedPbs(old(pbs)[uuid], body, uuid)] else old(pbs)
    {
      if !ValidUuid(uuid) {
        return InvalidId;
      }
      if uuid !in pbs {
        return NotFound;
      }
      var existing := pbs[uuid];
      var srv := PbServerFromJson(body, "");
      srv := srv.(uuid := uuid);
      if srv.password == "" {
        srv := srv.(password := existing.password);
      }
      if srv.keypass == "" {
        srv := srv.(keypass := existing.keypass);
      }
      pbs := pbs[srv.uuid := srv];
      return Ok;
    }

    /** The first half of an SSH update: look the record up and merge the body into it. */
    method PutSshRead(uuid: string, body: Object) returns (status: Status, srv: Option<SSHServer>)
      ensures status == if !ValidUuid(uuid) then InvalidId else if uuid !in ssh then NotFound else Ok
      ensures srv == if status == Ok then Some(MergedSsh(ssh[uuid], body, uuid)) else None
    {
      if !ValidUuid(uuid) {
        return InvalidId, None;
      }
      if uuid !in ssh {
        return NotFound, None;
      }
      var existing := ssh[uuid];
      var merged := SshServerFromJson(body, "");
      merged := merged.(uuid := uuid);
      if merged.keypass == "" {
        merged := merged.(keypass := existing.keypass);
      }
      if merged.hostkey == "" {
        merged := merged.(hostkey := existing.hostkey);
      }
      return Ok, Some(merged);
    }

    method SaveSsh(srv: SSHServer)
      modifies `ssh
      ensures ssh == Saved(old(ssh), srv)
    {
      ssh := ssh[srv.uuid := srv];
    }

    /** Both halves with nothing in between. */
    method PutSsh(uuid: string, body: Object) returns (status: Status)
      modifies `ssh
      ensures status == if !ValidUuid(uuid) then InvalidId else if uuid !in old(ssh) then NotFound else Ok
      ensures ssh == if status == Ok then Saved(old(ssh), MergedSsh(old(ssh)[uuid], body, uuid)) else old(ssh)
    {
      var srv;
      status, srv := PutSshRead(uuid, body);
      if srv.Some? {
        SaveSsh(srv.value);
      }
    }

    method TestDone(snapshot: SSHServer, uuid: string, ok: bool, hostkey: string)
      modifies `ssh
      ensures ssh == AfterTest(old(ssh), snapshot, uuid, ok, hostkey)
    {
      if ok && uuid != "" && hostkey != "" {
        var srv := snapshot.(uuid := uuid, hostkey := hostkey);
        SaveSsh(srv);
      }
    }
  }

  // ---- Secrets are preserved --------------------------------------------------------------------------

  /** Sending back what a GET returned changes nothing, with ports above the signed range included. */
  lemma SavingBackPbsChangesNothing(s: PBServer)
    ensures MergedPbs(s, PbServerToJson(s, false), s.uuid) == s
  {
    PortRoundTrip(s.port);
    IntRoundTrip(ToSigned(s.port), PBS_PORT);
    var o := PbServerToJson(s, false);
    assert Get(o, Port) == IntJson(ToSigned(s.port)) && Get(o, Uuid) == Str(s.uuid) && Get(o, Name) == Str(s.name);
    assert Get(o, Host) == Str(s.host) && Get(o, Username) == Str(s.username);
    assert Get(o, Fingerprint) == Str(s.fingerprint) && Get(o, Keyfile) == Str(s.keyfile);
    assert Get(o, Password) == Null && Get(o, Keypass) == Null;
  }

  lemma SavingBackSshChangesNothing(s: SSHServer)
    ensures MergedSsh(s, SshServerToJson(s, false), s.uuid) == s
  {
    PortRoundTrip(s.port);
    IntRoundTrip(ToSigned(s.port), SSH_PORT);
    var o := SshServerToJson(s, false);
    assert Get(o, Port) == IntJson(ToSigned(s.port)) && Get(o, Uuid) == Str(s.uuid) && Get(o, Name) == Str(s.name);
    assert Get(o, Host) == Str(s.host) && Get(o, Username) == Str(s.username) && Get(o, Keyfile) == Str(s.keyfile);
    assert Get(o, Keypass) == Null && Get(o, Hostkey) == Null;
  }

  /** The value is the last one that was not left out, or the original when all were. */
  ghost predicate IsLastGiven(value: string, original: string, given: seq<string>) {
    && ((forall i | 0 <= i < |given| :: given[i] == "") ==> value == original)
    && (forall i | 0 <= i < |given| && given[i] != "" && (forall j | i < j < |given| :: given[j] == "") :: value == given[i])
  }

  lemma OneMoreGiven(before: string, original: string, given: seq<string>, next: string)
    requires IsLastGiven(before, original, given)
    ensures IsLastGiven(if next == "" then before else next, original, given + [next])
  {
    var all := given + [next];
    assert all[|given|] == next;
    assert forall i | 0 <= i < |given| :: given[i] == all[i];
    assert (forall i | 0 <= i < |all| :: all[i] == "") ==> next == "" && forall i | 0 <= i < |given| :: given[i] == "";
    forall i | 0 <= i < |all| && all[i] != "" && (forall j | i < j < |all| :: all[j] == "")
      ensures (if next == "" then before else next) == all[i]
    {
      if i < |given| {
        assert next == "";
        assert forall j | i < j < |given| :: given[j] == all[j];
      }
    }
  }

  function TextsAt(bodies: seq<Object>, f: Field): seq<string> {
    seq(|bodies|, i requires 0 <= i < |bodies| => ToStr(Get(bodies[i], f)))
  }

  function PbsAfterPuts(s: PBServer, bodies: seq<Object>): PBServer {
    if bodies == [] then s
    else MergedPbs(PbsAfterPuts(s, bodies[..|bodies| - 1]), bodies[|bodies| - 1], s.uuid)
  }

  function SshAfterPuts(s: SSHServer, bodies: seq<Object>): SSHServer {
    if bodies == [] then s
    else MergedSsh(SshAfterPuts(s, bodies[..|bodies| - 1]), bodies[|bodies| - 1], s.uuid)
  }

  /** After any sequence of updates the visible fields are those of the last body, and each secret is
      the last one supplied, or the original when none was. */
  lemma PbsPutsKeepSecrets(s: PBServer, bodies: seq<Object>)
    ensures var r := PbsAfterPuts(s, bodies);
            && r.uuid == s.uuid
            && IsLastGiven(r.password, s.password, TextsAt(bodies, Password))
            && IsLastGiven(r.keypass, s.keypass, TextsAt(bodies, Keypass))
            && (bodies != [] ==>
                  r.(password := "", keypass := "")
                  == PbServerFromJson(bodies[|bodies| - 1], "").(uuid := s.uuid, password := "", keypass := ""))
  {
    PbsSecrets(s, bodies);
  }

  lemma TextsSnoc(bodies: seq<Object>, f: Field)
    requires bodies != []
    ensures TextsAt(bodies, f) == TextsAt(bodies[..|bodies| - 1], f) + [ToStr(Get(bodies[|bodies| - 1], f))]
  {
  }

  /** One more update: each secret is the one supplied, or stays. */
  lemma PbsStep(s: PBServer, bodies: seq<Object>)
    requires bodies != []
    ensures var before, after := PbsAfterPuts(s, bodies[..|bodies| - 1]), PbsAfterPuts(s, bodies);
            var password, keypass := ToStr(Get(bodies[|bodies| - 1], Password)), ToStr(Get(bodies[|bodies| - 1], Keypass));
            && after.password == (if password == "" then before.password else password)
            && after.keypass == (if keypass == "" then before.keypass else keypass)
  {
  }

  lemma {:induction false} PbsSecrets(s: PBServer, bodies: seq<Object>)
    ensures var r := PbsAfterPuts(s, bodies);
            && IsLastGiven(r.password, s.password, TextsAt(bodies, Password))
            && IsLastGiven(r.keypass, s.keypass, TextsAt(bodies, Keypass))
  {
    if bodies == [] {
    } else {
      var init, last := bodies[..|bodies| - 1], bodies[|bodies| - 1];
      var before := PbsAfterPuts(s, init);
      PbsSecrets(s, init);
      PbsStep(s, bodies);
      TextsSnoc(bodies, Password);
      TextsSnoc(bodies, Keypass);
      OneMoreGiven(before.password, s.password, TextsAt(init, Password), ToStr(Get(last, Password)));
      OneMoreGiven(before.keypass, s.keypass, TextsAt(init, Keypass), ToStr(Get(last, Keypass)));
    }
  }

  lemma SshPutsKeepSecrets(s: SSHServer, bodies: seq<Object>)
    ensures var r := SshAfterPuts(s, bodies);
            && r.uuid == s.uuid
            && IsLastGiven(r.keypass, s.keypass, TextsAt(bodies, Keypass))
            && IsLastGiven(r.hostkey, s.hostkey, TextsAt(bodies, Hostkey))
            && (bodies != [] ==>
                  r.(keypass := "", hostkey := "")
                  == SshServerFromJson(bodies[|bodies| - 1], "").(uuid := s.uuid, keypass := "", hostkey := ""))
  {
    SshSecrets(s, bodies);
  }

  lemma SshStep(s: SSHServer, bodies: seq<Object>)
    requires bodies != []
    ensures var before, after := SshAfterPuts(s, bodies[..|bodies| - 1]), SshAfterPuts(s, bodies);
            var keypass, hostkey := ToStr(Get(bodies[|bodies| - 1], Keypass)), ToStr(Get(bodies[|bodies| - 1], Hostkey));
            && after.keypass == (if keypass == "" then before.keypass else keypass)
            && after.hostkey == (if hostkey == "" then before.hostkey else hostkey)
  {
  }

  lemma {:induction false} SshSecrets(s: SSHServer, bodies: seq<Object>)
    ensures var r := SshAfterPuts(s, bodies);
            && IsLastGiven(r.keypass, s.keypass, TextsAt(bodies, Keypass))
            && IsLastGiven(r.hostkey, s.hostkey, TextsAt(bodies, Hostkey))
  {
    if bodies == [] {
    } else {
      var init, last := bodies[..|bodies| - 1], bodies[|bodies| - 1];
      var before := SshAfterPuts(s, init);
      SshSecrets(s, init);
      SshStep(s, bodies);
      TextsSnoc(bodies, Keypass);
      TextsSnoc(bodies, Hostkey);
      OneMoreGiven(before.keypass, s.keypass, TextsAt(init, Keypass), ToStr(Get(last, Keypass)));
      OneMoreGiven(before.hostkey, s.hostkey, TextsAt(init, Hostkey), ToStr(Get(last, Hostkey)));
    }
  }

  // ---- Updates and connection tests interleaved ---------------------------------------------------------

  /** Requests run one at a time on the main thread; a connection test ends on a worker thread, so it
      may end between the two halves of an update. `put` is the record an update is about to save. */
  datatype State = State(ssh: map<string, SSHServer>, put: Option<SSHServer>, tests: map<nat, Test>)

  /** A connection test of a stored server under way, with the record as it was when it started. */
  datatype Test = Test(uuid: string, snapshot: SSHServer)

  datatype Event =
    | PutRead(uuid: string, body: Object)
    | PutSave
    | TestStart(id: nat, uuid: string)
    | TestEnd(id: nat, ok: bool, hostkey: string)
    | PostNew(body: Object, newUuid: string)

  /** Posting over an existing uuid replaces the record and is not among the events. */
  function Step(s: State, e: Event): State {
    match e
    case PutRead(uuid, body) =>
      if s.put.None? && uuid in s.ssh then s.(put := Some(MergedSsh(s.ssh[uuid], body, uuid))) else s
    case PutSave =>
      if s.put.Some? then s.(ssh := Saved(s.ssh, s.put.value), put := None) else s
    case TestStart(id, uuid) =>
      if s.put.None? && uuid in s.ssh && id !in s.tests then s.(tests := s.tests[id := Test(uuid, s.ssh[uuid])]) else s
    case TestEnd(id, ok, hostkey) =>
      if id !in s.tests then s
      else
        var test := s.tests[id];
        State(AfterTest(s.ssh, test.snapshot, test.uuid, ok, hostkey), s.put, s.tests - {id})
    case PostNew(body, newUuid) =>
      var srv := SshServerFromJson(body, newUuid);
      if s.put.None? && srv.uuid !in s.ssh then s.(ssh := Saved(s.ssh, srv)) else s
  }

  function Run(s: State, es: seq<Event>): State {
    if es == [] then s else Step(Run(s, es[..|es| - 1]), es[|es| - 1])
  }

  lemma RunSnoc(s: State, es: seq<Event>, e: Event)
    ensures Run(s, es + [e]) == Step(Run(s, es), e)
  {
    assert (es + [e])[..|es|] == es;
  }

  predicate Pinned(s: State, uuid: string) {
    uuid in s.ssh && s.ssh[uuid].hostkey != ""
  }

  /** An update read the record before any key was pinned and will save it without one. */
  predicate KeylessPutPending(s: State, uuid: string) {
    s.put.Some? && s.put.value.uuid == uuid && s.put.value.hostkey == ""
  }

  lemma {:induction false} PinnedStaysPinned(s: State, uuid: string, es: seq<Event>)
    requires Pinned(s, uuid) && !KeylessPutPending(s, uuid)
    ensures Pinned(Run(s, es), uuid) && !KeylessPutPending(Run(s, es), uuid)
  {
    if es == [] {
    } else {
      PinnedStaysPinned(s, uuid, es[..|es| - 1]);
    }
  }

  /** A pinned host key survives every interleaving of updates and test completions exactly when no
      update that read the record before it was pinned is still waiting to save. */
  lemma PinSurvivesIff(s: State, uuid: string)
    requires Pinned(s, uuid)
    ensures (forall es :: Pinned(Run(s, es), uuid)) <==> !KeylessPutPending(s, uuid)
  {
    if KeylessPutPending(s, uuid) {
      RunSnoc(s, [], PutSave);
      assert [] + [PutSave] == [PutSave];
      assert !Pinned(Run(s, [PutSave]), uuid);
    } else {
      forall es
        ensures Pinned(Run(s, es), uuid)
      {
        PinnedStaysPinned(s, uuid, es);
      }
    }
  }

  /** A run that loses a key: an update reads, a test pins, the update saves. */
  lemma LostPin(srv: SSHServer, key: string)
    requires srv.uuid != "" && srv.hostkey == "" && key != ""
    ensures var s := State(map[srv.uuid := srv], None, map[]);
            var reading := Step(Step(s, TestStart(0, srv.uuid)), PutRead(srv.uuid, SshServerToJson(srv, false)));
            var pinned := Step(reading, TestEnd(0, true, key));
            Pinned(pinned, srv.uuid) && !Pinned(Step(pinned, PutSave), srv.uuid)
  {
    var s := State(map[srv.uuid := srv], None, map[]);
    var body := SshServerToJson(srv, false);
    SavingBackSshChangesNothing(srv);
    var s1 := Step(s, TestStart(0, srv.uuid));
    assert s1 == State(s.ssh, None, map[0 := Test(srv.uuid, srv)]);
    assert Step(s1, PutRead(srv.uuid, body)) == State(s.ssh, Some(srv), s1.tests);
  }

  // ---- Updates undone by tests ---------------------------------------------------------------------------

  /** The same record but for the host key. */
  predicate SameFields(a: SSHServer, b: SSHServer) {
    a.(hostkey := b.hostkey) == b
  }

  /** No update of this server is saved along the run. */
  ghost predicate NoUpdateSaved(s: State, es: seq<Event>, uuid: string) {
    forall k | 0 <= k < |es| && es[k].PutSave? ::
      var v := Run(s, es[..k]);
      v.put.Some? ==> v.put.value.uuid != uuid
  }

  ghost predicate NotEnded(es: seq<Event>, id: nat) {
    forall j | 0 <= j < |es| :: es[j].TestEnd? ==> es[j].id != id
  }

  /** At position `k` a test of this server that was under way in `s`, from other field values, ends
      with a captured key. */
  ghost predicate StaleTestEnds(s: State, es: seq<Event>, k: int, uuid: string)
    requires uuid in s.ssh
  {
    && 0 <= k < |es| && es[k].TestEnd? && es[k].ok && es[k].hostkey != ""
    && es[k].id in s.tests && s.tests[es[k].id].uuid == uuid != ""
    && NotEnded(es[..k], es[k].id)
    && !SameFields(s.tests[es[k].id].snapshot.(uuid := uuid), s.ssh[uuid])
  }

  /** A test under way keeps its snapshot until it ends. */
  lemma {:induction false} TestKeepsSnapshot(s: State, es: seq<Event>, id: nat)
    requires id in s.tests && NotEnded(es, id)
    ensures id in Run(s, es).tests && Run(s, es).tests[id] == s.tests[id]
  {
    if es == [] {
    } else {
      assert NotEnded(es[..|es| - 1], id);
      TestKeepsSnapshot(s, es[..|es| - 1], id);
    }
  }

  /** Every test of this server either was under way in `s` and has not ended, or holds the fields `s` has. */
  ghost predicate TestsKnown(s: State, es: seq<Event>, v: State, uuid: string)
    requires uuid in s.ssh
  {
    forall id | id in v.tests && v.tests[id].uuid == uuid ::
      || (id in s.tests && v.tests[id] == s.tests[id] && NotEnded(es, id))
      || SameFields(v.tests[id].snapshot.(uuid := uuid), s.ssh[uuid])
  }

  lemma FieldsStayStep(s: State, es: seq<Event>, e: Event, uuid: string)
    requires uuid in s.ssh && s.ssh[uuid].uuid == uuid
    requires var v := Run(s, es);
             && uuid in v.ssh && SameFields(v.ssh[uuid], s.ssh[uuid]) && TestsKnown(s, es, v, uuid)
             && (e.PutSave? && v.put.Some? ==> v.put.value.uuid != uuid)
    requires !StaleTestEnds(s, es + [e], |es|, uuid)
    ensures var v := Run(s, es + [e]);
            uuid in v.ssh && SameFields(v.ssh[uuid], s.ssh[uuid]) && TestsKnown(s, es + [e], v, uuid)
  {
    RunSnoc(s, es, e);
    assert (es + [e])[..|es|] == es && (es + [e])[|es|] == e;
    TestsStayKnown(s, es, e, uuid);
  }

  lemma TestsStayKnown(s: State, es: seq<Event>, e: Event, uuid: string)
    requires uuid in s.ssh && s.ssh[uuid].uuid == uuid
    requires var v := Run(s, es);
             uuid in v.ssh && SameFields(v.ssh[uuid], s.ssh[uuid]) && TestsKnown(s, es, v, uuid)
    ensures TestsKnown(s, es + [e], Run(s, es + [e]), uuid)
  {
    RunSnoc(s, es, e);
    var v, w := Run(s, es), Run(s, es + [e]);
    forall id | id in w.tests && w.tests[id].uuid == uuid
      ensures || (id in s.tests && w.tests[id] == s.tests[id] && NotEnded(es + [e], id))
              || SameFields(w.tests[id].snapshot.(uuid := uuid), s.ssh[uuid])
    {
      assert e.TestEnd? ==> e.id != id || id !in v.tests;
      assert id in v.tests ==> w.tests[id] == v.tests[id];
      if id in v.tests && NotEnded(es, id) {
        assert NotEnded(es + [e], id);
      }
    }
  }

  lemma {:induction false} FieldsStay(s: State, es: seq<Event>, uuid: string)
    requires uuid in s.ssh && s.ssh[uuid].uuid == uuid && NoUpdateSaved(s, es, uuid)
    requires forall k :: !StaleTestEnds(s, es, k, uuid)
    ensures var v := Run(s, es);
            uuid in v.ssh && SameFields(v.ssh[uuid], s.ssh[uuid]) && TestsKnown(s, es, v, uuid)
  {
    if es == [] {
    } else {
      var init, e := es[..|es| - 1], es[|es| - 1];
      assert init + [e] == es;
      Prefixes(s, es, |es| - 1, uuid);
      FieldsStay(s, init, uuid);
      assert es[..|init|] == init;
      FieldsStayStep(s, init, e, uuid);
    }
  }

  lemma Prefixes(s: State, es: seq<Event>, n: nat, uuid: string)
    requires uuid in s.ssh && n <= |es| && NoUpdateSaved(s, es, uuid)
    ensures NoUpdateSaved(s, es[..n], uuid)
    ensures forall k :: StaleTestEnds(s, es[..n], k, uuid) ==> StaleTestEnds(s, es, k, uuid)
  {
    forall k | 0 <= k < n
      ensures es[..n][..k] == es[..k]
    {
    }
  }

  /** After an update is saved, and until another one of that server is: the record holds the fields
      of that update at every moment exactly when no test of the server that started before it, from
      other field values, ends with a captured key. */
  lemma LastUpdateStandsIff(before: State, es: seq<Event>)
    requires before.put.Some?
    requires NoUpdateSaved(Step(before, PutSave), es, before.put.value.uuid)
    ensures var saved := before.put.value;
            var s := Step(before, PutSave);
            (forall n | 0 <= n <= |es| ::
               saved.uuid in Run(s, es[..n]).ssh && SameFields(Run(s, es[..n]).ssh[saved.uuid], saved))
            <==> (forall k :: !StaleTestEnds(s, es, k, saved.uuid))
  {
    var saved := before.put.value;
    var s := Step(before, PutSave);
    if forall k :: !StaleTestEnds(s, es, k, saved.uuid) {
      forall n | 0 <= n <= |es|
        ensures saved.uuid in Run(s, es[..n]).ssh && SameFields(Run(s, es[..n]).ssh[saved.uuid], saved)
      {
        Prefixes(s, es, n, saved.uuid);
        FieldsStay(s, es[..n], saved.uuid);
      }
    } else {
      var k :| StaleTestEnds(s, es, k, saved.uuid);
      StaleTestUndoes(s, es, k, saved.uuid);
    }
  }

  lemma StaleTestUndoes(s: State, es: seq<Event>, k: nat, uuid: string)
    requires uuid in s.ssh && StaleTestEnds(s, es, k, uuid)
    ensures var v := Run(s, es[..k + 1]);
            uuid in v.ssh && !SameFields(v.ssh[uuid], s.ssh[uuid])
  {
    TestKeepsSnapshot(s, es[..k], es[k].id);
    assert es[..k + 1] == es[..k] + [es[k]];
    RunSnoc(s, es[..k], es[k]);
  }

  /** A run that undoes an update: a test starts, an update is read and saved, the test ends. What is
      left is the old record with the key, so visible fields and a replaced key password are lost. */
  lemma TestUndoesUpdate(srv: SSHServer, body: Object, key: string)
    requires srv.uuid != "" && key != ""
    ensures var s := State(map[srv.uuid := srv], None, map[]);
            var updated := Step(Step(Step(s, TestStart(0, srv.uuid)), PutRead(srv.uuid, body)), PutSave);
            && updated.ssh == map[srv.uuid := MergedSsh(srv, body, srv.uuid)]
            && Step(updated, TestEnd(0, true, key)).ssh == map[srv.uuid := srv.(hostkey := key)]
  {
    var s := State(map[srv.uuid := srv], None, map[]);
    var s1 := Step(s, TestStart(0, srv.uuid));
    assert s1 == State(s.ssh, None, map[0 := Test(srv.uuid, srv)]);
    var merged := MergedSsh(srv, body, srv.uuid);
    var s2 := Step(s1, PutRead(srv.uuid, body));
    assert s2 == State(s.ssh, Some(merged), s1.tests);
    assert Step(s2, PutSave).ssh == map[srv.uuid := merged];
  }
}
