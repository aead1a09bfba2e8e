/** The daemon log on its way to the browsers: whole records appended by the message handler, a
    reader with a cursor that follows the file, and the lines it broadcasts. */
module LogTail {
  import opened Text
  import opened LogLines

  // ---- The writer -------------------------------------------------------------------------------

  datatype Level = Debug | Info | Warning | Critical | Fatal

  function LevelTag(l: Level): string {
    match l
    case Debug => "DEBUG"
    case Info => "INFO"
    case Warning => "WARN"
    case Critical => "ERROR"
    case Fatal => "CRIT"
  }

  /** What one message adds to the file: a whole record, or nothing. */
  function RecordOf(debugLogging: bool, level: Level, stamp: string, text: string): (r: string)
    ensures Whole(r)
    ensures r == "" <==> level == Debug && !debugLogging
  {
    if level == Debug && !debugLogging then "" else stamp + " [" + LevelTag(level) + "] " + text + "\n"
  }

  function Marked(stamp: string, tag: string, text: string): string {
    stamp + " [" + tag + "] " + text
  }

  /** A message without line ends is one line, marked with its level. */
  lemma RecordIsOneLine(debugLogging: bool, level: Level, stamp: string, text: string)
    requires '\n' !in stamp && '\n' !in text && (level == Debug ==> debugLogging)
    ensures var lines := Lines(RecordOf(debugLogging, level, stamp, text));
            && (level == Debug ==> lines == [Marked(stamp, "DEBUG", text)])
            && (level == Info ==> lines == [Marked(stamp, "INFO", text)])
            && (level == Warning ==> lines == [Marked(stamp, "WARN", text)])
            && (level == Critical ==> lines == [Marked(stamp, "ERROR", text)])
            && (level == Fatal ==> lines == [Marked(stamp, "CRIT", text)])
  {
    RecordIsMarked(debugLogging, level, stamp, text);
    MarkedIsOneLine(stamp, LevelTag(level), text);
  }

  lemma RecordIsMarked(debugLogging: bool, level: Level, stamp: string, text: string)
    requires level == Debug ==> debugLogging
    ensures RecordOf(debugLogging, level, stamp, text) == Marked(stamp, LevelTag(level), text) + "\n"
    ensures '\n' !in LevelTag(level)
  {
  }

  lemma MarkedIsOneLine(stamp: string, tag: string, text: string)
    requires '\n' !in stamp && '\n' !in tag && '\n' !in text
    ensures Lines(Marked(stamp, tag, text) + "\n") == [Marked(stamp, tag, text)]
  {
    var line := Marked(stamp, tag, text);
    assert line[|stamp| + 1] == '[';
    OneLine(line, |stamp| + 1);
  }

  lemma OneLine(line: string, k: nat)
    requires '\n' !in line && k < |line| && !IsSpace(line[k])
    ensures Lines(line + "\n") == [line]
  {
    assert line + "\n" == line + ['\n'] + "";
    SplitAtSeparator(line, "", '\n');
    SplitNoSeparator(line, '\n');
    assert Split("", '\n') == [""];
    NonBlankAppend([line], [""]);
    One(line);
    One("");
    assert line[k] in line;
  }

  class Logger {
    var file: string
    var debugLogging: bool

    constructor (file: string, debugLogging: bool)
      ensures this.file == file && this.debugLogging == debugLogging
    {
      this.file, this.debugLogging := file, debugLogging;
    }

    /** One critical section of the log mutex. */
    method LogMessage(level: Level, stamp: string, text: string)
      modifies `file
      ensures file == old(file) + RecordOf(debugLogging, level, stamp, text)
    {
      if level == Debug && !debugLogging {
        assert file + "" == file;
        return;
      }
      file := file + (stamp + " [" + LevelTag(level) + "] " + text + "\n");
    }
  }

  // ---- The reader -------------------------------------------------------------------------------

  /** Where reading starts: back at the beginning when the file is seen to have shrunk. */
  function StartAt(pos: nat, size: nat): nat {
    if size < pos then 0 else pos
  }

  /** Everything from `start` on; nothing when the file has become shorter than that. */
  function ChunkFrom(start: nat, content: string): string {
    if start <= |content| then content[start..] else ""
  }

  function PosAfter(start: nat, content: string): nat {
    if start <= |content| then |content| else start
  }

  /** The cursor moves by what was read, and what was read stood there. */
  lemma CursorMovesByChunk(start: nat, content: string)
    ensures start + |ChunkFrom(start, content)| == PosAfter(start, content)
    ensures forall i | 0 <= i < |ChunkFrom(start, content)| ::
              start + i < |content| && ChunkFrom(start, content)[i] == content[start + i]
    ensures PosAfter(start, content) >= |content|
  {
  }

  class WsHub {
    var logPos: nat
    var sent: seq<string>   // the broadcast lines

    constructor (sizeAtStart: nat)
      ensures logPos == sizeAtStart && sent == []
    {
      logPos, sent := sizeAtStart, [];
    }

    /** `size` is the length of the file when asked, `content` the file when read. */
    method EmitLogTail(size: nat, content: string)
      modifies this
      ensures var start := StartAt(old(logPos), size);
              && logPos == PosAfter(start, content)
              && sent == old(sent) + Lines(ChunkFrom(start, content))
    {
      if size < logPos {
        logPos := 0;
      }
      var chunk := ChunkFrom(logPos, content);
      logPos := PosAfter(logPos, content);
      if chunk == "" {
        assert Split("", '\n') == [""] && NonBlank([""]) == [] by { One(""); }
        return;
      }
      var lines := Split(chunk, '\n');
      ghost var before := sent;
      for i := 0 to |lines|
        invariant logPos == PosAfter(StartAt(old(logPos), size), content)
        invariant sent == before + NonBlank(lines[..i])
      {
        assert lines[..i + 1][..i] == lines[..i];
        TrimBlank(lines[i]);
        if Trim(lines[i]) == "" {
          continue;
        }
        sent := sent + [lines[i]];
      }
      assert lines[..|lines|] == lines;
    }
  }

  // ---- File and reader together -------------------------------------------------------------------

  /** `Rotate(content)`: the file is replaced. `Notify(grown)`: the reader runs, and `grown` is appended
      between its size query and its read. */
  datatype Event =
    | Append(text: string)
    | Rotate(content: string)
    | Notify(grown: string)

  /** `chunks` is all that was read so far; from number `restart` on it is from the present file, where
      reading started at `from`. `rotated`: the file was replaced and the reader has not run since. */
  datatype World = World(file: string, pos: nat, from: nat, chunks: seq<string>, restart: nat, rotated: bool)

  function Watching(file: string): World {
    World(file, |file|, |file|, [], 0, false)
  }

  function Step(w: World, e: Event): World {
    match e
    case Append(text) => w.(file := w.file + text)
    case Rotate(content) => w.(file := content, rotated := true)
    case Notify(grown) =>
      var content := w.file + grown;
      var start := StartAt(w.pos, |w.file|);
      var shrunk := |w.file| < w.pos;
      World(content, PosAfter(start, content),
            if shrunk then 0 else w.from,
            w.chunks + [ChunkFrom(start, content)],
            if shrunk then |w.chunks| else w.restart,
            false)
  }

  function Run(w: World, es: seq<Event>): World {
    if es == [] then w else Step(Run(w, es[..|es| - 1]), es[|es| - 1])
  }

  /** What was read of the present file is exactly the file from where reading started up to the cursor. */
  ghost predicate Exact(w: World) {
    && w.from <= w.pos <= |w.file| && w.restart <= |w.chunks|
    && Flatten(w.chunks[w.restart..]) == w.file[w.from..w.pos]
  }

  /** The same for the length alone, which survives a rotation. */
  ghost predicate Measured(w: World) {
    w.from <= w.pos && w.restart <= |w.chunks| && |Flatten(w.chunks[w.restart..])| == w.pos - w.from
  }

  ghost predicate Sound(w: World) {
    Measured(w) && (!w.rotated ==> Exact(w))
  }

  /** The reader sees that the file was replaced, or had read nothing of the old one anyway. */
  predicate Noticed(w: World) {
    |w.file| < w.pos || w.pos == 0
  }

  /** Every rotation was noticed when the reader next ran. */
  ghost predicate RotationsSeen(w: World, es: seq<Event>) {
    forall k | 0 <= k < |es| && es[k].Notify? :: Run(w, es[..k]).rotated ==> Noticed(Run(w, es[..k]))
  }

  lemma ReadOn(chunks: seq<string>, restart: nat, chunk: string)
    requires restart <= |chunks|
    ensures Flatten((chunks + [chunk])[restart..]) == Flatten(chunks[restart..]) + chunk
  {
    assert (chunks + [chunk])[restart..] == chunks[restart..] + [chunk];
    assert (chunks[restart..] + [chunk])[..|chunks[restart..]|] == chunks[restart..];
  }

  lemma SliceAfter(a: string, b: string, p: nat)
    requires |a| <= p <= |a + b|
    ensures (a + b)[|a|..p] == b[..p - |a|]
  {
  }

  lemma SliceOn(file: string, grown: string, from: nat, pos: nat)
    requires from <= pos <= |file|
    ensures (file + grown)[from..] == file[from..pos] + (file + grown)[pos..]
  {
  }

  /** The reader reads on where it stopped. */
  lemma NotifyReadsOn(w: World, grown: string)
    requires Exact(w) && !w.rotated
    ensures Exact(Step(w, Notify(grown)))
  {
    var v := Step(w, Notify(grown));
    ReadOn(w.chunks, w.restart, v.file[w.pos..]);
    SliceOn(w.file, grown, w.from, w.pos);
    assert v.file[w.from..v.pos] == v.file[w.from..];
  }

  /** The reader starts over at the beginning of the new file. */
  lemma NotifyStartsOver(w: World, grown: string)
    requires Measured(w) && w.rotated && Noticed(w)
    ensures Exact(Step(w, Notify(grown)))
  {
    var v := Step(w, Notify(grown));
    assert v.file[0..] == v.file && v.file[0..v.pos] == v.file;
    ReadOn(w.chunks, v.restart, v.file);
    assert w.chunks[|w.chunks|..] == [];
  }

  lemma ExactIsMeasured(w: World)
    requires Exact(w)
    ensures Measured(w)
  {
  }

  lemma StepKeepsSound(w: World, e: Event)
    requires Sound(w) && (e.Notify? && w.rotated ==> Noticed(w))
    ensures Sound(Step(w, e))
  {
    match e
    case Append(text) =>
      if !w.rotated {
        assert (w.file + text)[w.from..w.pos] == w.file[w.from..w.pos];
      }
    case Rotate(_) =>
    case Notify(grown) =>
      if w.rotated {
        NotifyStartsOver(w, grown);
      } else {
        NotifyReadsOn(w, grown);
      }
      ExactIsMeasured(Step(w, e));
  }

  lemma RotationsSeenPrefix(w: World, es: seq<Event>)
    requires es != [] && RotationsSeen(w, es)
    ensures RotationsSeen(w, es[..|es| - 1])
  {
    var init := es[..|es| - 1];
    forall k | 0 <= k < |init| && init[k].Notify?
      ensures Run(w, init[..k]).rotated ==> Noticed(Run(w, init[..k]))
    {
      assert init[..k] == es[..k] && init[k] == es[k];
    }
  }

  lemma {:induction false} RunKeepsSound(w: World, es: seq<Event>)
    requires Sound(w) && RotationsSeen(w, es)
    ensures Sound(Run(w, es))
  {
    if es == [] {
    } else {
      RotationsSeenPrefix(w, es);
      RunKeepsSound(w, es[..|es| - 1]);
      StepKeepsSound(Run(w, es[..|es| - 1]), es[|es| - 1]);
    }
  }

  lemma WatchingIsSound(file: string)
    ensures Sound(Watching(file))
  {
    assert file[|file|..|file|] == [] && Watching(file).chunks[0..] == [];
  }

  /** No byte is repeated or lost in the present file under any interleaving of appends and
      notifications, as long as every rotation is noticed; a rotation restarts delivery at byte 0 of
      the new file. */
  lemma DeliveryIsExact(file: string, es: seq<Event>)
    requires RotationsSeen(Watching(file), es)
    ensures !Run(Watching(file), es).rotated ==> Exact(Run(Watching(file), es))
  {
    WatchingIsSound(file);
    RunKeepsSound(Watching(file), es);
  }

  // ---- What is lost across rotations ------------------------------------------------------------------

  /** What the file holds that the reader has not read. */
  function Unread(w: World): string {
    if w.rotated then w.file else ChunkFrom(w.pos, w.file)
  }

  function AddedBy(e: Event): string {
    match e
    case Append(text) => text
    case Rotate(content) => content
    case Notify(grown) => grown
  }

  /** All text written along a run: appended to a file, or standing in a file when it came in place. */
  function Written(es: seq<Event>): string {
    if es == [] then "" else Written(es[..|es| - 1]) + AddedBy(es[|es| - 1])
  }

  /** How many bytes a step makes unreachable: the unread rest of a replaced file, and the start of a
      new file whose replacement goes unnoticed. */
  function LostAt(w: World, e: Event): nat {
    match e
    case Append(_) => 0
    case Rotate(_) => |Unread(w)|
    case Notify(_) => if w.rotated then StartAt(w.pos, |w.file|) else 0
  }

  function Lost(w: World, es: seq<Event>): nat {
    if es == [] then 0 else Lost(w, es[..|es| - 1]) + LostAt(Run(w, es[..|es| - 1]), es[|es| - 1])
  }

  /** The cursor of a file that was not just replaced is within it. */
  ghost predicate CursorInside(w: World) {
    !w.rotated ==> w.pos <= |w.file|
  }

  lemma ChunksSnoc(chunks: seq<string>, chunk: string)
    ensures Flatten(chunks + [chunk]) == Flatten(chunks) + chunk
  {
    assert (chunks + [chunk])[..|chunks|] == chunks;
  }

  /** One step: what was unread and what is added is read, unread still, or lost. */
  lemma StepConserves(w: World, e: Event)
    requires CursorInside(w)
    ensures var v := Step(w, e);
            && CursorInside(v)
            && |Flatten(v.chunks)| + |Unread(v)| + LostAt(w, e) == |Flatten(w.chunks)| + |Unread(w)| + |AddedBy(e)|
            && (LostAt(w, e) == 0 ==> Flatten(v.chunks) + Unread(v) == Flatten(w.chunks) + Unread(w) + AddedBy(e))
  {
    match e
    case Append(text) =>
      AppendUnread(w, text);
      Joined(Flatten(w.chunks), Unread(w), text);
    case Rotate(content) =>
      if Unread(w) == "" {
        NothingAfter(Flatten(w.chunks), Unread(w));
      }
    case Notify(grown) =>
      NotifyConserves(w, grown);
  }

  lemma NotifyConserves(w: World, grown: string)
    requires CursorInside(w)
    ensures var v := Step(w, Notify(grown));
            && CursorInside(v)
            && |Flatten(v.chunks)| + |Unread(v)| + LostAt(w, Notify(grown)) == |Flatten(w.chunks)| + |Unread(w)| + |grown|
            && (LostAt(w, Notify(grown)) == 0 ==>
                  Flatten(v.chunks) + Unread(v) == Flatten(w.chunks) + Unread(w) + grown)
  {
    var v, chunk := Step(w, Notify(grown)), ChunkFrom(StartAt(w.pos, |w.file|), w.file + grown);
    NotifyChunk(w, grown);
    ChunksSnoc(w.chunks, chunk);
    NothingAfter(Flatten(v.chunks), Unread(v));
    Joined(Flatten(w.chunks), Unread(w), grown);
  }

  lemma Joined(a: string, b: string, c: string)
    ensures (a + b) + c == a + (b + c)
  {
  }

  lemma NothingAfter(a: string, b: string)
    requires b == ""
    ensures a + b == a
  {
  }

  lemma AppendUnread(w: World, text: string)
    requires CursorInside(w)
    ensures Unread(Step(w, Append(text))) == Unread(w) + text
  {
  }

  lemma NotifyChunk(w: World, grown: string)
    requires CursorInside(w)
    ensures var v := Step(w, Notify(grown));
            var chunk := ChunkFrom(StartAt(w.pos, |w.file|), w.file + grown);
            && CursorInside(v) && Unread(v) == ""
            && |chunk| + LostAt(w, Notify(grown)) == |Unread(w)| + |grown|
            && (LostAt(w, Notify(grown)) == 0 ==> chunk == Unread(w) + grown)
  {
    var content := w.file + grown;
    if w.rotated {
      assert content[0..] == content;
    } else {
      assert content[w.pos..] == w.file[w.pos..] + grown;
    }
  }

  /** Conservation over a whole run. */
  lemma {:induction false} RunConserves(file: string, es: seq<Event>)
    ensures var w := Run(Watching(file), es);
            && CursorInside(w)
            && |Flatten(w.chunks)| + |Unread(w)| + Lost(Watching(file), es) == |Written(es)|
            && (Lost(Watching(file), es) == 0 ==> Flatten(w.chunks) + Unread(w) == Written(es))
  {
    if es == [] {
      assert Unread(Watching(file)) == "" && Flatten([]) + "" == Written([]);
    } else {
      RunConserves(file, es[..|es| - 1]);
      StepConserves(Run(Watching(file), es[..|es| - 1]), es[|es| - 1]);
    }
  }

  /** A rotation finds everything read, and a notification after one notices it. */
  predicate CleanAt(w: World, e: Event) {
    (e.Rotate? ==> Unread(w) == "") && (e.Notify? && w.rotated ==> Noticed(w))
  }

  ghost predicate Clean(w: World, es: seq<Event>) {
    forall k | 0 <= k < |es| :: CleanAt(Run(w, es[..k]), es[k])
  }

  lemma {:induction false} LostIsZeroIff(w: World, es: seq<Event>)
    ensures Lost(w, es) == 0 <==> Clean(w, es)
  {
    if es == [] {
    } else {
      LostIsZeroIff(w, es[..|es| - 1]);
      LostAtIsZeroIff(Run(w, es[..|es| - 1]), es[|es| - 1]);
      CleanSnoc(w, es);
    }
  }

  lemma LostAtIsZeroIff(w: World, e: Event)
    ensures LostAt(w, e) == 0 <==> CleanAt(w, e)
  {
  }

  lemma CleanSnoc(w: World, es: seq<Event>)
    requires es != []
    ensures Clean(w, es) <==> Clean(w, es[..|es| - 1]) && CleanAt(Run(w, es[..|es| - 1]), es[|es| - 1])
  {
    var init := es[..|es| - 1];
    forall k | 0 <= k < |init|
      ensures CleanAt(Run(w, init[..k]), init[k]) <==> CleanAt(Run(w, es[..k]), es[k])
    {
      assert init[..k] == es[..k];
    }
  }

  /** Across any number of rotations: all that was written is read, once and in order, or still waits
      to be read, exactly when each rotation found the cursor at the end of the file and was noticed. */
  lemma NothingLostIff(file: string, es: seq<Event>)
    ensures var w := Run(Watching(file), es);
            Flatten(w.chunks) + Unread(w) == Written(es) <==> Clean(Watching(file), es)
  {
    RunConserves(file, es);
    LostIsZeroIff(Watching(file), es);
  }

  /** A noticed rotation that loses the unread end of the old file. */
  lemma UnreadEndIsLost()
    ensures var es := [Append("b\n"), Rotate("c\n"), Notify("")];
            && RotationsSeen(Watching("aaaa\n"), es)
            && Run(Watching("aaaa\n"), es).chunks == ["c\n"]
  {
    var w0 := Watching("aaaa\n");
    var a, r, n := Append("b\n"), Rotate("c\n"), Notify("");
    var es := [a, r, n];
    assert es[..3] == es && es[..2] == [a, r] && [a, r][..1] == [a] && [a][..0] == [];
    var w1 := Step(w0, a);
    var w2 := Step(w1, r);
    assert Run(w0, []) == w0 && Run(w0, [a]) == w1 && Run(w0, [a, r]) == w2;
    assert "c\n" + "" == "c\n" && "c\n"[0..] == "c\n";
    assert Run(w0, es) == Step(w2, n);
  }

  /** A rotation is delivered in full exactly when it is noticed: when the new file is still shorter
      than the cursor at the next notification, or the cursor was at the very beginning. */
  lemma RotatedContentDeliveredIff(w: World, content: string, more: string, grown: string)
    ensures var v := Step(Step(Step(w, Rotate(content)), Append(more)), Notify(grown));
            var whole := content + more + grown;
            v.chunks[|v.chunks| - 1] == whole <==> |content + more| < w.pos || w.pos == 0
  {
    var all := content + more + grown;
    assert all[0..] == all;
  }

  /** A rotated log that grew past the cursor before the next notification: its start is never sent. */
  lemma MissedRotation()
    ensures var w := Run(Watching("ab\n"), [Rotate("1\n2\n3\n"), Notify("")]);
            w.chunks == ["\n3\n"] && w.file == "1\n2\n3\n"
  {
    var w0 := Watching("ab\n");
    var r, n := Rotate("1\n2\n3\n"), Notify("");
    assert [r, n][..1] == [r] && [r][..0] == [];
    assert Run(w0, []) == w0 && Run(w0, [r]) == Step(w0, r);
    var content := "1\n2\n3\n" + "";
    assert content == "1\n2\n3\n" && content[3..] == "\n3\n";
    assert Run(w0, [r, n]) == Step(Step(w0, r), n);
  }

  // ---- Append-only logs ---------------------------------------------------------------------------------

  ghost predicate AppendOnly(es: seq<Event>) {
    forall i | 0 <= i < |es| :: !es[i].Rotate?
  }

  lemma {:induction false} AppendOnlyShape(file: string, es: seq<Event>)
    requires AppendOnly(es)
    ensures var w := Run(Watching(file), es);
            && !w.rotated
            && w.from == |file| <= w.pos <= |w.file| && w.restart == 0
            && w.file == file + Written(es)
            && (es != [] && es[|es| - 1].Notify? ==> w.pos == |w.file|)
  {
    if es == [] {
      assert file + "" == file;
    } else {
      AppendOnlyShape(file, es[..|es| - 1]);
      AppendOnlyStep(Run(Watching(file), es[..|es| - 1]), es[|es| - 1]);
      Joined(file, Written(es[..|es| - 1]), AddedBy(es[|es| - 1]));
    }
  }

  lemma AppendOnlyStep(w: World, e: Event)
    requires !w.rotated && w.from <= w.pos <= |w.file| && !e.Rotate?
    ensures var v := Step(w, e);
            && !v.rotated && v.from == w.from && v.restart == w.restart && w.pos <= v.pos <= |v.file|
            && v.file == w.file + AddedBy(e)
            && (e.Notify? ==> v.pos == |v.file|)
  {
  }

  lemma NoRotationToSee(file: string, es: seq<Event>)
    requires AppendOnly(es)
    ensures RotationsSeen(Watching(file), es)
  {
    forall k | 0 <= k < |es| && es[k].Notify?
      ensures !Run(Watching(file), es[..k]).rotated
    {
      AppendOnlyShape(file, es[..k]);
    }
  }

  /** An append-only log: the chunks read are the appended text from the start of the watch up to
      the cursor, and all of it when the run ends with a notification. */
  lemma {:induction false} AppendOnlyDelivery(file: string, es: seq<Event>)
    requires AppendOnly(es)
    ensures var w := Run(Watching(file), es);
            && |file| <= w.pos <= |w.file|
            && w.file == file + Written(es)
            && Flatten(w.chunks) == Written(es)[..w.pos - |file|]
            && (es != [] && es[|es| - 1].Notify? ==> Flatten(w.chunks) == Written(es))
  {
    var w := Run(Watching(file), es);
    AppendOnlyShape(file, es);
    NoRotationToSee(file, es);
    DeliveryIsExact(file, es);
    assert w.chunks[0..] == w.chunks;
    SliceAfter(file, Written(es), w.pos);
  }

  // ---- Whole records -------------------------------------------------------------------------------

  /** Writers append whole records, and a rotated file starts with whole records. */
  ghost predicate WholeRecords(es: seq<Event>) {
    forall i | 0 <= i < |es| :: Whole(AddedBy(es[i]))
  }

  ghost predicate ReadsAreWhole(w: World) {
    && Whole(Unread(w)) && CursorInside(w)
    && (forall i | 0 <= i < |w.chunks| :: Whole(w.chunks[i]))
  }

  lemma StepKeepsWhole(w: World, e: Event)
    requires ReadsAreWhole(w) && (e.Notify? && w.rotated ==> Noticed(w))
    requires Whole(AddedBy(e))
    ensures ReadsAreWhole(Step(w, e))
  {
    match e
    case Append(text) =>
      AppendUnread(w, text);
      WholeJoin(Unread(w), text);
    case Rotate(_) =>
    case Notify(grown) =>
      NotifyChunk(w, grown);
      WholeJoin(Unread(w), grown);
  }

  lemma WholeJoin(a: string, b: string)
    requires Whole(a) && Whole(b)
    ensures Whole(a + b)
  {
  }

  lemma {:induction false} RunKeepsWhole(w: World, es: seq<Event>)
    requires ReadsAreWhole(w) && WholeRecords(es) && RotationsSeen(w, es)
    ensures ReadsAreWhole(Run(w, es))
  {
    if es == [] {
    } else {
      RotationsSeenPrefix(w, es);
      RunKeepsWhole(w, es[..|es| - 1]);
      StepKeepsWhole(Run(w, es[..|es| - 1]), es[|es| - 1]);
    }
  }

  /** With whole records and noticed rotations, the whole broadcast is the non-blank lines of all that
      was read, none torn; its last part is the lines of the present file up to the cursor. */
  lemma BroadcastsEachLineOnce(file: string, es: seq<Event>)
    requires WholeRecords(es) && RotationsSeen(Watching(file), es)
    ensures var w := Run(Watching(file), es);
            && LinesOfChunks(w.chunks) == Lines(Flatten(w.chunks))
            && (!w.rotated ==>
                  && Exact(w)
                  && LinesOfChunks(w.chunks[w.restart..]) == Lines(w.file[w.from..w.pos]))
  {
    var w := Run(Watching(file), es);
    DeliveryIsExact(file, es);
    RunKeepsWhole(Watching(file), es);
    WholeFlatten(w.chunks);
    if !w.rotated {
      WholeFlatten(w.chunks[w.restart..]);
    }
  }

  /** If each rotation found everything read and was noticed: once the reader has caught up, it has
      broadcast the non-blank lines of all that was ever written, in order, once each. */
  lemma EveryLineBroadcast(file: string, es: seq<Event>)
    requires WholeRecords(es) && Clean(Watching(file), es)
    requires Unread(Run(Watching(file), es)) == ""
    ensures LinesOfChunks(Run(Watching(file), es).chunks) == Lines(Written(es))
  {
    NothingLostIff(file, es);
    CleanSeesRotations(Watching(file), es);
    BroadcastsEachLineOnce(file, es);
    NothingAfter(Flatten(Run(Watching(file), es).chunks), Unread(Run(Watching(file), es)));
  }

  /** What a series of messages adds to the log, and the lines it means. */
  datatype Message = Message(level: Level, stamp: string, text: string)

  function Log(debugLogging: bool, ms: seq<Message>): string {
    if ms == [] then ""
    else
      var m := ms[|ms| - 1];
      Log(debugLogging, ms[..|ms| - 1]) + RecordOf(debugLogging, m.level, m.stamp, m.text)
  }

  function MessageLines(debugLogging: bool, ms: seq<Message>): seq<string> {
    if ms == [] then []
    else
      var m := ms[|ms| - 1];
      MessageLines(debugLogging, ms[..|ms| - 1])
      + if m.level == Debug && !debugLogging then [] else [Marked(m.stamp, LevelTag(m.level), m.text)]
  }

  lemma {:induction false} LinesOfLog(debugLogging: bool, ms: seq<Message>)
    requires forall i | 0 <= i < |ms| :: '\n' !in ms[i].stamp && '\n' !in ms[i].text
    ensures Whole(Log(debugLogging, ms)) && Lines(Log(debugLogging, ms)) == MessageLines(debugLogging, ms)
  {
    if ms == [] {
      assert Split("", '\n') == [""] && NonBlank([""]) == [] by { One(""); }
    } else {
      var init, m := ms[..|ms| - 1], ms[|ms| - 1];
      LinesOfLog(debugLogging, init);
      LinesOfWhole(Log(debugLogging, init), RecordOf(debugLogging, m.level, m.stamp, m.text));
      if m.level == Debug && !debugLogging {
        assert Split("", '\n') == [""] && NonBlank([""]) == [] by { One(""); }
      } else {
        RecordIsMarked(debugLogging, m.level, m.stamp, m.text);
        MarkedIsOneLine(m.stamp, LevelTag(m.level), m.text);
      }
    }
  }

  /** From the message handler to the socket: if what was written is the log of some one-line messages,
      each of them that is not suppressed is broadcast as one line, in order, once. */
  lemma EveryMessageBroadcast(file: string, es: seq<Event>, debugLogging: bool, ms: seq<Message>)
    requires WholeRecords(es) && Clean(Watching(file), es)
    requires Unread(Run(Watching(file), es)) == ""
    requires Written(es) == Log(debugLogging, ms)
    requires forall i | 0 <= i < |ms| :: '\n' !in ms[i].stamp && '\n' !in ms[i].text
    ensures LinesOfChunks(Run(Watching(file), es).chunks) == MessageLines(debugLogging, ms)
  {
    EveryLineBroadcast(file, es);
    LinesOfLog(debugLogging, ms);
  }

  lemma CleanSeesRotations(w: World, es: seq<Event>)
    requires Clean(w, es)
    ensures RotationsSeen(w, es)
  {
    forall k | 0 <= k < |es| && es[k].Notify?
      ensures Run(w, es[..k]).rotated ==> Noticed(Run(w, es[..k]))
    {
      assert CleanAt(Run(w, es[..k]), es[k]);
    }
  }

  lemma {:induction false} SentLinesAreSingle(chunks: seq<string>)
    ensures forall i | 0 <= i < |LinesOfChunks(chunks)| :: '\n' !in LinesOfChunks(chunks)[i]
  {
    if chunks == [] {
    } else {
      SentLinesAreSingle(chunks[..|chunks| - 1]);
      var parts := Split(chunks[|chunks| - 1], '\n');
      JoinSplit(chunks[|chunks| - 1], '\n');
      NonBlankFrom(parts);
    }
  }

  lemma {:induction false} NonBlankFrom(lines: seq<string>)
    requires forall i | 0 <= i < |lines| :: '\n' !in lines[i]
    ensures forall i | 0 <= i < |NonBlank(lines)| :: '\n' !in NonBlank(lines)[i]
  {
    if lines == [] {
    } else {
      NonBlankFrom(lines[..|lines| - 1]);
    }
  }

  /** What a browser that was there from the start shows: the last 1000 lines broadcast. */
  lemma BrowserBuffer(chunks: seq<string>, text: string)
    requires LinesOfChunks(chunks) == Lines(text)
    ensures IsEndOf(Pushed([], LinesOfChunks(chunks)), JsNonBlank(Split(text, '\n')), 1000)
  {
    var sent := LinesOfChunks(chunks);
    SentLinesAreSingle(chunks);
    BufferIsLastLines([], sent);
    AllLinesOfSingles(sent);
    ClientDropsMore(Split(text, '\n'));
    assert [] + AllLines(sent) == AllLines(sent);
  }

  /** From the writer to the browser, across clean rotations: a client that was there from the start
      shows the last 1000 non-blank lines of everything written, once the reader has caught up. */
  lemma BrowserShowsTheLog(file: string, es: seq<Event>)
    requires WholeRecords(es) && Clean(Watching(file), es)
    requires Unread(Run(Watching(file), es)) == ""
    ensures IsEndOf(Pushed([], LinesOfChunks(Run(Watching(file), es).chunks)), JsNonBlank(Split(Written(es), '\n')), 1000)
  {
    EveryLineBroadcast(file, es);
    BrowserBuffer(Run(Watching(file), es).chunks, Written(es));
  }
}
