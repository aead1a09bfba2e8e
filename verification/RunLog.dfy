/** Viewing a backup run's log: the capped, line-aligned view of a file, and the client that opens
    it and then polls for what was appended since its offset. */
module RunLog {
  import opened Text
  import opened Wrappers

  const PREVIEW_BYTES := 2 * 1024 * 1024
  const FULL_BYTES := 64 * 1024 * 1024

  function Cap(full: bool): nat {
    if full then FULL_BYTES else PREVIEW_BYTES
  }

  // ---- The view -----------------------------------------------------------------------------------

  /** A file opened for reading. `content` is what a read sees. */
  class OpenFile {
    const content: string
    var pos: nat

    constructor (content: string)
      ensures this.content == content && pos == 0
    {
      this.content, pos := content, 0;
    }

    method Seek(to: nat)
      modifies this
      ensures pos == to
    {
      pos := to;
    }

    /** Reads past the next line end, or to the end of the file. */
    method ReadLine()
      modifies this
      ensures pos == LineAfter(content, old(pos))
    {
      pos := LineAfter(content, pos);
    }

    method ReadAll() returns (text: string)
      modifies this
      ensures text == From(content, old(pos))
    {
      text := From(content, pos);
      if pos < |content| {
        pos := |content|;
      }
    }
  }

  function From(content: string, pos: nat): string {
    if pos <= |content| then content[pos..] else ""
  }

  function LineAfter(content: string, pos: nat): (next: nat)
    ensures pos <= next && (pos <= |content| ==> next <= |content|)
  {
    if pos > |content| then pos
    else
      var i := IndexOf(content[pos..], '\n');
      if i < 0 then |content| else pos + i + 1
  }

  /** Where the view of a file starts, when it measured `size` bytes and reads see `content`. */
  function ViewStart(size: nat, content: string, cap: nat): nat {
    if size > cap then LineAfter(content, size - cap) else 0
  }

  datatype LogView = LogView(text: string, size: nat, truncated: bool)

  method ReadLogForView(f: OpenFile, size: nat, full: bool) returns (v: LogView)
    requires f.pos == 0
    modifies f
    ensures v == LogView(From(f.content, ViewStart(size, f.content, Cap(full))), size, size > Cap(full))
  {
    var cap := Cap(full);
    var truncated := false;
    if size > cap {
      f.Seek(size - cap);
      f.ReadLine();   // drop the partial first line
      truncated := true;
    }
    var text := f.ReadAll();
    v := LogView(text, size, truncated);
  }

  function View(f: string, cap: nat): string {
    From(f, ViewStart(|f|, f, cap))
  }

  predicate AtLineStart(f: string, k: nat)
    requires k <= |f|
  {
    k > 0 && f[k - 1] == '\n'
  }

  predicate IsSuffix(a: string, b: string) {
    |a| <= |b| && b[|b| - |a|..] == a
  }

  lemma LineAfterIsNext(f: string, pos: nat)
    requires pos <= |f|
    ensures var k := LineAfter(f, pos);
            && (k == |f| || AtLineStart(f, k))
            && (forall j | pos < j < k :: !AtLineStart(f, j))
            && (pos < |f| && k > pos && k < |f| ==> AtLineStart(f, k))
            && (pos < |f| ==> k > pos)
  {
    var rest := f[pos..];
    var i := IndexOf(rest, '\n');
    forall j | pos < j < LineAfter(f, pos)
      ensures !AtLineStart(f, j)
    {
      assert f[j - 1] == rest[j - 1 - pos];
      if i >= 0 {
        assert rest[..i][j - 1 - pos] == rest[j - 1 - pos];
      }
    }
  }

  /** The whole file when it fits. Otherwise a suffix that starts at a line start or is empty, shorter
      than the cap, and the longest such: empty exactly when the last `cap` bytes hold no line end
      before the last byte. */
  lemma ViewIsLongestAlignedSuffix(f: string, cap: nat)
    requires cap > 0
    ensures |f| <= cap ==> View(f, cap) == f
    ensures |f| > cap ==>
              var v := View(f, cap);
              && IsSuffix(v, f)
              && |v| < cap
              && (v == "" || AtLineStart(f, |f| - |v|))
              && (forall k | |f| - cap < k <= |f| && AtLineStart(f, k) :: |f| - k <= |v|)
              && (v == "" <==> forall k | |f| - cap < k < |f| :: !AtLineStart(f, k))
  {
    if |f| > cap {
      LineAfterIsNext(f, |f| - cap);
    }
  }

  /** A smaller cap shows a suffix of what a larger cap shows of the same file. */
  lemma SmallerViewIsSuffix(f: string, small: nat, large: nat)
    requires 0 < small <= large
    ensures IsSuffix(View(f, small), View(f, large))
  {
    var s, l := ViewStart(|f|, f, small), ViewStart(|f|, f, large);
    if |f| > large {
      LineAfterMonotone(f, |f| - large, |f| - small);
    }
    assert l <= s <= |f|;
    SuffixOfSuffix(f, l, s);
  }

  lemma LineAfterMonotone(f: string, p: nat, q: nat)
    requires p <= q <= |f|
    ensures LineAfter(f, p) <= LineAfter(f, q)
  {
    LineAfterIsNext(f, p);
    LineAfterIsNext(f, q);
  }

  lemma SuffixOfSuffix(f: string, a: nat, b: nat)
    requires a <= b <= |f|
    ensures IsSuffix(f[b..], f[a..])
  {
  }

  lemma PreviewIsSuffixOfFull(f: string)
    ensures IsSuffix(View(f, Cap(false)), View(f, Cap(true)))
  {
    SmallerViewIsSuffix(f, PREVIEW_BYTES, FULL_BYTES);
  }

  // ---- Serving and polling --------------------------------------------------------------------------

  datatype Response = Response(text: string, offset: nat, truncated: bool)

  /** The handler takes the size first; `g1` is appended before the view takes its own size and `g2`
      before the file is read. */
  function Served(f: string, g1: string, g2: string, offset: Option<int>, full: bool): Response {
    var content := f + g1 + g2;
    if offset.Some? && 0 <= offset.value <= |f| then Response(From(content, offset.value), |f|, false)
    else
      var size := |f + g1|;
      Response(From(content, ViewStart(size, content, Cap(full))), |f|, size > Cap(full))
  }

  /** With no usable offset the answer is the view under the cap asked for, 2 MB or 64 MB: the whole file
      when it fits, and else, marked truncated, its longest suffix below the cap that starts a line. With
      a usable one it is all from there on. The offset reported is the size of the file. */
  lemma ServedIs(f: string, offset: Option<int>, full: bool)
    ensures var cap := if full then 64 * 1024 * 1024 else 2 * 1024 * 1024;
            var r := Served(f, "", "", offset, full);
            && r.offset == |f| && IsSuffix(r.text, f)
            && if offset.Some? && 0 <= offset.value <= |f| then |r.text| == |f| - offset.value && !r.truncated
               else
                 && (r.truncated <==> |f| > cap)
                 && (!r.truncated ==> r.text == f)
                 && (r.truncated ==>
                       && |r.text| < cap
                       && (r.text == "" || AtLineStart(f, |f| - |r.text|))
                       && (forall k | |f| - cap < k <= |f| && AtLineStart(f, k) :: |f| - k <= |r.text|))
  {
    assert f + "" + "" == f;
    ViewIsLongestAlignedSuffix(f, Cap(full));
  }

  method Serve(f: string, g1: string, g2: string, offset: Option<int>, full: bool) returns (r: Response)
    ensures r == Served(f, g1, g2, offset, full)
  {
    var size := |f|;
    var file := new OpenFile(f + g1 + g2);
    var text, truncated;
    if offset.Some? && 0 <= offset.value <= size {
      file.Seek(offset.value);
      text := file.ReadAll();
      truncated := false;
    } else {
      var v := ReadLogForView(file, |f + g1|, full);
      text, truncated := v.text, v.truncated;
    }
    r := Response(text, size, truncated);
  }

  // ---- The client ------------------------------------------------------------------------------------

  datatype Client = Client(text: string, offset: nat, truncated: bool)

  /** The client after opening a run; a request that fails leaves it empty. */
  function AfterOpen(reply: Option<Response>): Client {
    match reply
    case Some(r) => Client(r.text, r.offset, r.truncated)
    case None => Client("", 0, false)
  }

  /** The client after a poll; a request that fails changes nothing. */
  function AfterPoll(c: Client, reply: Option<Response>): Client {
    match reply
    case Some(r) => c.(text := c.text + r.text, offset := r.offset)
    case None => c
  }

  class RunViewer {
    var runText: string
    var runOffset: nat
    var runTruncated: bool

    constructor ()
      ensures Shown() == AfterOpen(None)
    {
      runText, runOffset, runTruncated := "", 0, false;
    }

    function Shown(): Client
      reads this
    {
      Client(runText, runOffset, runTruncated)
    }

    method OpenRun(reply: Option<Response>)
      modifies this
      ensures Shown() == AfterOpen(reply)
    {
      runText, runOffset, runTruncated := "", 0, false;
      if reply.Some? {
        runText, runOffset, runTruncated := reply.value.text, reply.value.offset, reply.value.truncated;
      }
    }

    method TickRunTail(reply: Option<Response>)
      modifies this
      ensures Shown() == AfterPoll(old(Shown()), reply)
    {
      if reply.Some? {
        runText := runText + reply.value.text;
        runOffset := reply.value.offset;
      }
    }
  }

  // ---- File, handler and client together ---------------------------------------------------------------

  datatype Event =
    | Grow(text: string)
    | Poll(g1: string, g2: string)
    | FailedPoll

  /** The file, the client, and where in the file the client's text starts. */
  datatype World = World(file: string, client: Client, start: nat)

  function Min(a: nat, b: nat): nat {
    if a < b then a else b
  }

  /** Opening a run whose log is `f`; if it is `answered`, `g1` and `g2` are appended inside the request. */
  function Opened(f: string, g1: string, g2: string, answered: bool): World {
    var content := f + g1 + g2;
    if answered then
      World(content, AfterOpen(Some(Served(f, g1, g2, None, false))), Min(OpeningStart(f, g1, g2), |f|))
    else World(content, AfterOpen(None), 0)
  }

  /** Where the view sent to the opening client starts. */
  function OpeningStart(f: string, g1: string, g2: string): nat {
    ViewStart(|f + g1|, f + g1 + g2, Cap(false))
  }

  function Step(w: World, e: Event): World {
    match e
    case Grow(text) => w.(file := w.file + text)
    case Poll(g1, g2) =>
      var reply := Served(w.file, g1, g2, Some(w.client.offset), false);
      w.(file := w.file + g1 + g2, client := AfterPoll(w.client, Some(reply)))
    case FailedPoll => w.(client := AfterPoll(w.client, None))
  }

  function Run(w: World, es: seq<Event>): World {
    if es == [] then w else Step(Run(w, es[..|es| - 1]), es[|es| - 1])
  }

  /** `a` can be had from `b` by leaving characters out. */
  ghost predicate Subsequence(a: string, b: string) {
    a == "" || (b != "" && ((a[0] == b[0] && Subsequence(a[1..], b[1..])) || Subsequence(a, b[1..])))
  }

  lemma {:induction false} SubsequenceRefl(a: string)
    ensures Subsequence(a, a)
  {
    if a == "" {
    } else {
      SubsequenceRefl(a[1..]);
    }
  }

  lemma {:induction false} SubsequenceConcat(a: string, b: string, c: string, d: string)
    requires Subsequence(a, b) && Subsequence(c, d)
    ensures Subsequence(a + c, b + d)
    decreases |b| + |d|
  {
    if b == "" {
      assert a + c == c && b + d == d;
    } else if a == "" {
      SubsequenceConcat(a, b[1..], c, d);
      assert (b + d)[1..] == b[1..] + d;
    } else {
      assert (b + d)[1..] == b[1..] + d && (a + c)[1..] == a[1..] + c;
      if a[0] == b[0] && Subsequence(a[1..], b[1..]) {
        SubsequenceConcat(a[1..], b[1..], c, d);
      } else {
        SubsequenceConcat(a, b[1..], c, d);
      }
    }
  }

  lemma PrefixIsSubsequence(a: string, more: string)
    ensures Subsequence(a, a + more)
  {
    SubsequenceRefl(a);
    SubsequenceConcat(a, a, "", more);
    assert a + "" == a;
  }

  /** Nothing between the start and the offset is missing from what the client shows. */
  ghost predicate Covers(w: World) {
    w.start <= w.client.offset <= |w.file| && Subsequence(w.file[w.start..w.client.offset], w.client.text)
  }

  lemma OpenCovers(f: string, g1: string, g2: string, answered: bool)
    ensures Covers(Opened(f, g1, g2, answered))
  {
    var w := Opened(f, g1, g2, answered);
    var s := OpeningStart(f, g1, g2);
    if answered && s <= |f| {
      assert w.client.text == w.file[s..|f|] + w.file[|f|..];
      PrefixIsSubsequence(w.file[s..|f|], w.file[|f|..]);
    } else {
      assert w.file[w.start..w.client.offset] == "";
    }
  }

  lemma PollCovers(w: World, g1: string, g2: string)
    requires Covers(w)
    ensures Covers(Step(w, Poll(g1, g2)))
  {
    var v := Step(w, Poll(g1, g2));
    var o := w.client.offset;
    var seen, unread := w.file[w.start..o], w.file[o..];
    assert v.file[o..] == unread + (g1 + g2);
    assert v.file[v.start..v.client.offset] == seen + unread;
    PrefixIsSubsequence(unread, g1 + g2);
    SubsequenceConcat(seen, w.client.text, unread, unread + (g1 + g2));
  }

  lemma StepCovers(w: World, e: Event)
    requires Covers(w)
    ensures Covers(Step(w, e)) && Step(w, e).start == w.start
  {
    if e.Poll? {
      PollCovers(w, e.g1, e.g2);
    } else {
      assert Step(w, e).file[w.start..w.client.offset] == w.file[w.start..w.client.offset];
    }
  }

  /** After any number of polls of an append-only file, whatever is appended during the requests and
      whichever requests fail, no byte from the start of the view up to the offset is missing from the
      client's text. */
  lemma {:induction false} PollingLosesNothing(f: string, g1: string, g2: string, answered: bool, es: seq<Event>)
    ensures var w := Run(Opened(f, g1, g2, answered), es);
            Covers(w) && w.start == Opened(f, g1, g2, answered).start
  {
    if es == [] {
      OpenCovers(f, g1, g2, answered);
    } else {
      PollingLosesNothing(f, g1, g2, answered, es[..|es| - 1]);
      StepCovers(Run(Opened(f, g1, g2, answered), es[..|es| - 1]), es[|es| - 1]);
    }
  }

  // ---- The client's text as slices of the file -----------------------------------------------------------

  /** One answer: the bytes from `from` to `to`, and the offset reported with them. */
  datatype Piece = Piece(from: nat, to: nat, offset: nat)

  function Pieces(f: string, g1: string, g2: string, answered: bool, es: seq<Event>): (pieces: seq<Piece>)
    ensures pieces != []
  {
    if es == [] then
      [if answered then Piece(OpeningStart(f, g1, g2), |f + g1 + g2|, |f|) else Piece(0, 0, 0)]
    else
      var w, e := Run(Opened(f, g1, g2, answered), es[..|es| - 1]), es[|es| - 1];
      Pieces(f, g1, g2, answered, es[..|es| - 1])
      + if e.Poll? then [Piece(w.client.offset, |w.file + e.g1 + e.g2|, |w.file|)] else []
  }

  ghost predicate Within(pieces: seq<Piece>, size: nat) {
    forall k | 0 <= k < |pieces| :: pieces[k].from <= pieces[k].to <= size
  }

  function TextOf(file: string, pieces: seq<Piece>): string
    requires Within(pieces, |file|)
  {
    if pieces == [] then ""
    else TextOf(file, pieces[..|pieces| - 1]) + file[pieces[|pieces| - 1].from..pieces[|pieces| - 1].to]
  }

  /** Each slice starts at the offset reported before and ends at or past the one reported with it. */
  ghost predicate Chained(pieces: seq<Piece>) {
    && (forall k | 0 <= k < |pieces| :: pieces[k].offset <= pieces[k].to)
    && (forall k | 0 < k < |pieces| :: pieces[k].from == pieces[k - 1].offset)
  }

  lemma {:induction false} TextOfGrown(file: string, more: string, pieces: seq<Piece>)
    requires Within(pieces, |file|)
    ensures TextOf(file + more, pieces) == TextOf(file, pieces)
  {
    if pieces == [] {
    } else {
      var last := pieces[|pieces| - 1];
      TextOfGrown(file, more, pieces[..|pieces| - 1]);
      assert (file + more)[last.from..last.to] == file[last.from..last.to];
    }
  }

  lemma TextOfSnoc(file: string, pieces: seq<Piece>, p: Piece)
    requires Within(pieces, |file|) && p.from <= p.to <= |file|
    ensures Within(pieces + [p], |file|) && TextOf(file, pieces + [p]) == TextOf(file, pieces) + file[p.from..p.to]
  {
    assert (pieces + [p])[..|pieces|] == pieces;
  }

  ghost predicate ShowsPieces(w: World, pieces: seq<Piece>) {
    && pieces != []
    && Within(pieces, |w.file|) && Chained(pieces)
    && pieces[|pieces| - 1].offset == w.client.offset <= |w.file|
    && w.client.text == TextOf(w.file, pieces)
  }

  lemma OpenShowsPieces(f: string, g1: string, g2: string, answered: bool)
    ensures ShowsPieces(Opened(f, g1, g2, answered), Pieces(f, g1, g2, answered, []))
  {
    var content := f + g1 + g2;
    OnePiece(content, if answered then Piece(OpeningStart(f, g1, g2), |content|, |f|) else Piece(0, 0, 0));
  }

  lemma OnePiece(file: string, p: Piece)
    requires p.from <= p.to <= |file|
    ensures Within([p], |file|) && TextOf(file, [p]) == file[p.from..p.to]
  {
    TextOfSnoc(file, [], p);
    assert [] + [p] == [p];
  }

  lemma GrowShowsPieces(w: World, pieces: seq<Piece>, text: string)
    requires ShowsPieces(w, pieces)
    ensures ShowsPieces(Step(w, Grow(text)), pieces)
  {
    TextOfGrown(w.file, text, pieces);
  }

  lemma PollShowsPieces(w: World, pieces: seq<Piece>, g1: string, g2: string)
    requires ShowsPieces(w, pieces)
    ensures ShowsPieces(Step(w, Poll(g1, g2)),
                        pieces + [Piece(w.client.offset, |w.file + g1 + g2|, |w.file|)])
  {
    var content := w.file + g1 + g2;
    var p := Piece(w.client.offset, |content|, |w.file|);
    TextOfGrown(w.file, g1, pieces);
    TextOfGrown(w.file + g1, g2, pieces);
    TextOfSnoc(content, pieces, p);
    assert content[p.from..p.to] == From(content, p.from);
  }

  /** The client's text is made of slices of the file: the opening view and then, for each answered
      poll, the bytes from the offset reported before up to the size at the read, which is at or past
      the offset reported with it. */
  lemma {:induction false} TextIsSlices(f: string, g1: string, g2: string, answered: bool, es: seq<Event>)
    ensures ShowsPieces(Run(Opened(f, g1, g2, answered), es), Pieces(f, g1, g2, answered, es))
  {
    if es == [] {
      OpenShowsPieces(f, g1, g2, answered);
    } else {
      var init, e := es[..|es| - 1], es[|es| - 1];
      var w := Run(Opened(f, g1, g2, answered), init);
      var pieces := Pieces(f, g1, g2, answered, init);
      TextIsSlices(f, g1, g2, answered, init);
      assert pieces + [] == pieces;
      match e
      case Grow(text) => GrowShowsPieces(w, pieces, text);
      case Poll(h1, h2) => PollShowsPieces(w, pieces, h1, h2);
      case FailedPoll =>
    }
  }

  /** The mark tells, over the whole run, that the file did not fit when it was opened; without it the
      client's text starts at the first byte. */
  lemma {:induction false} MarkedTruncatedIff(f: string, g1: string, g2: string, answered: bool, es: seq<Event>)
    ensures var w := Run(Opened(f, g1, g2, answered), es);
            && (w.client.truncated <==> answered && |f + g1| > 2 * 1024 * 1024)
            && (!w.client.truncated ==> w.start == 0)
  {
    if es == [] {
    } else {
      MarkedTruncatedIff(f, g1, g2, answered, es[..|es| - 1]);
    }
  }

  // ---- When nothing is repeated --------------------------------------------------------------------------

  /** How many bytes were appended inside answered polls. */
  function GrownInside(es: seq<Event>): nat {
    if es == [] then 0
    else GrownInside(es[..|es| - 1]) + if es[|es| - 1].Poll? then |es[|es| - 1].g1| + |es[|es| - 1].g2| else 0
  }

  /** How many bytes the opening answer holds beyond its start and offset. */
  function OpeningSurplus(f: string, g1: string, g2: string, answered: bool): nat {
    var s, end := OpeningStart(f, g1, g2), |f + g1 + g2|;
    if !answered then 0 else if s <= |f| then end - |f| else end - s
  }

  lemma {:induction false} TextLength(f: string, g1: string, g2: string, answered: bool, es: seq<Event>)
    ensures var w := Run(Opened(f, g1, g2, answered), es);
            |w.client.text| == w.client.offset - w.start + OpeningSurplus(f, g1, g2, answered) + GrownInside(es)
  {
    if es == [] {
    } else {
      var init, e := es[..|es| - 1], es[|es| - 1];
      TextLength(f, g1, g2, answered, init);
      PollingLosesNothing(f, g1, g2, answered, init);
      if e.Poll? {
        var w := Run(Opened(f, g1, g2, answered), init);
        assert |w.file + e.g1 + e.g2| == |w.file| + |e.g1| + |e.g2|;
      }
    }
  }

  lemma {:induction false} LongSubsequenceIsAll(a: string, b: string)
    requires Subsequence(a, b)
    ensures |a| <= |b| && (|a| == |b| ==> a == b)
  {
    if a == "" {
    } else if a[0] == b[0] && Subsequence(a[1..], b[1..]) {
      LongSubsequenceIsAll(a[1..], b[1..]);
      assert a == [a[0]] + a[1..] && b == [b[0]] + b[1..];
    } else {
      LongSubsequenceIsAll(a, b[1..]);
    }
  }

  /** The client shows exactly the bytes from its start to its offset, none repeated, exactly when
      nothing was appended inside an answered poll and the opening answer had nothing to spare: it
      failed, nothing was appended inside it, or its view was empty at the end of the file. */
  lemma PollingIsExactIff(f: string, g1: string, g2: string, answered: bool, es: seq<Event>)
    ensures var w := Run(Opened(f, g1, g2, answered), es);
            && w.start <= w.client.offset <= |w.file|
            && (w.client.text == w.file[w.start..w.client.offset]
                <==> GrownInside(es) == 0
                     && (!answered || g1 + g2 == "" || OpeningStart(f, g1, g2) == |f + g1 + g2|))
  {
    var w := Run(Opened(f, g1, g2, answered), es);
    PollingLosesNothing(f, g1, g2, answered, es);
    TextLength(f, g1, g2, answered, es);
    LongSubsequenceIsAll(w.file[w.start..w.client.offset], w.client.text);
    assert |f + g1 + g2| == |f| + |g1 + g2|;
  }
}
