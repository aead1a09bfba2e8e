/** Lines of log text: cutting text into non-blank lines, and the bounded buffer that shows them. */
module LogLines {
  import opened Text

  /** JavaScript's `trim` removes more characters than the server's byte-string trim. */
  predicate IsJsSpace(c: char) {
    || IsSpace(c)
    || c in "\U{00A0}\U{1680}\U{2028}\U{2029}\U{202F}\U{205F}\U{3000}\U{FEFF}"
    || '\U{2000}' <= c <= '\U{200A}'
  }

  predicate JsBlank(s: string) {
    forall c | c in s :: IsJsSpace(c)
  }

  /** The lines that are not blank, in order. */
  function NonBlank(lines: seq<string>): seq<string> {
    if lines == [] then []
    else NonBlank(lines[..|lines| - 1]) + if Blank(lines[|lines| - 1]) then [] else [lines[|lines| - 1]]
  }

  function JsNonBlank(lines: seq<string>): seq<string> {
    if lines == [] then []
    else JsNonBlank(lines[..|lines| - 1]) + if JsBlank(lines[|lines| - 1]) then [] else [lines[|lines| - 1]]
  }

  function Lines(text: string): seq<string> {
    NonBlank(Split(text, '\n'))
  }

  lemma {:induction false} NonBlankAppend(a: seq<string>, b: seq<string>)
    ensures NonBlank(a + b) == NonBlank(a) + NonBlank(b)
  {
    if b == [] {
      assert a + b == a;
    } else {
      assert (a + b)[..|a + b| - 1] == a + b[..|b| - 1];
      NonBlankAppend(a, b[..|b| - 1]);
    }
  }

  lemma {:induction false} JsNonBlankAppend(a: seq<string>, b: seq<string>)
    ensures JsNonBlank(a + b) == JsNonBlank(a) + JsNonBlank(b)
  {
    if b == [] {
      assert a + b == a;
    } else {
      assert (a + b)[..|a + b| - 1] == a + b[..|b| - 1];
      JsNonBlankAppend(a, b[..|b| - 1]);
    }
  }

  /** `kept` is, unchanged, each once and in order, the lines that are not white space only. `from` says
      where each stood. */
  ghost predicate KeepsInOrder(lines: seq<string>, kept: seq<string>, from: seq<nat>) {
    && |from| == |kept|
    && (forall k | 0 <= k < |from| :: from[k] < |lines| && kept[k] == lines[from[k]])
    && (forall k, m | 0 <= k < m < |from| :: from[k] < from[m])
    && (forall j: nat | j < |lines| :: j in from <==> !JsBlank(lines[j]))
  }

  lemma {:induction false} JsNonBlankKeeps(lines: seq<string>) returns (from: seq<nat>)
    ensures KeepsInOrder(lines, JsNonBlank(lines), from)
  {
    if lines == [] {
      from := [];
    } else {
      var init, last := lines[..|lines| - 1], lines[|lines| - 1];
      from := JsNonBlankKeeps(init);
      assert lines == init + [last];
      KeepsOneMore(init, JsNonBlank(init), from, last);
      from := if JsBlank(last) then from else from + [|init|];
      assert JsNonBlank(init) + [] == JsNonBlank(init);
    }
  }

  lemma KeepsOneMore(lines: seq<string>, kept: seq<string>, from: seq<nat>, last: string)
    requires KeepsInOrder(lines, kept, from)
    ensures if JsBlank(last) then KeepsInOrder(lines + [last], kept, from)
            else KeepsInOrder(lines + [last], kept + [last], from + [|lines|])
  {
    if !JsBlank(last) {
      var more := from + [|lines|];
      assert more[|from|] == |lines|;
      forall j: nat | j < |lines|
        ensures j in more <==> j in from
      {
      }
    }
  }

  /** What the server drops the client would drop too. */
  lemma {:induction false} ClientDropsMore(lines: seq<string>)
    ensures JsNonBlank(NonBlank(lines)) == JsNonBlank(lines)
  {
    if lines == [] {
    } else {
      var init, last := lines[..|lines| - 1], lines[|lines| - 1];
      ClientDropsMore(init);
      JsNonBlankAppend(NonBlank(init), if Blank(last) then [] else [last]);
      assert [last][..0] == [];
      assert JsNonBlank([last]) == if JsBlank(last) then [] else [last];
    }
  }

  // ---- Cutting text between two reads -----------------------------------------------------------

  /** Empty, or ending at a line end: what a writer of whole records leaves behind. */
  predicate Whole(text: string) {
    text == "" || text[|text| - 1] == '\n'
  }

  lemma {:induction false} LastPieceEmptyIff(s: string)
    ensures var p := Split(s, '\n'); p[|p| - 1] == "" <==> Whole(s)
  {
    if s == [] {
    } else {
      LastPieceEmptyIff(s[1..]);
    }
  }

  /** The lines of a text that ends in the piece `left`. */
  lemma LinesUpTo(a: string, left: string)
    requires left == Split(a, '\n')[|Split(a, '\n')| - 1]
    ensures Lines(a) == LinesBefore(a) + NonBlank([left])
  {
    var pa := Split(a, '\n');
    assert pa == pa[..|pa| - 1] + [left];
    NonBlankAppend(pa[..|pa| - 1], [left]);
  }

  lemma LinesFrom(b: string, right: string)
    requires right == Split(b, '\n')[0]
    ensures Lines(b) == NonBlank([right]) + LinesAfter(b)
  {
    var pb := Split(b, '\n');
    assert pb == [right] + pb[1..];
    NonBlankAppend([right], pb[1..]);
  }

  function LinesBefore(a: string): seq<string> {
    NonBlank(Split(a, '\n')[..|Split(a, '\n')| - 1])
  }

  function LinesAfter(b: string): seq<string> {
    NonBlank(Split(b, '\n')[1..])
  }

  /** In the joined text the pieces around the cut make one line. */
  lemma LinesAcross(a: string, b: string, left: string, right: string)
    requires left == Split(a, '\n')[|Split(a, '\n')| - 1] && right == Split(b, '\n')[0]
    ensures Lines(a + b) == LinesBefore(a) + NonBlank([left + right]) + LinesAfter(b)
  {
    var before, after := Split(a, '\n')[..|Split(a, '\n')| - 1], Split(b, '\n')[1..];
    SplitConcat(a, b, '\n');
    NonBlankAppend(before + [left + right], after);
    NonBlankAppend(before, [left + right]);
  }

  lemma Regroup(before: seq<string>, x: seq<string>, y: seq<string>, after: seq<string>)
    ensures (before + x) + (y + after) == before + (x + y) + after
  {
  }

  lemma Cancel(before: seq<string>, x: seq<string>, y: seq<string>, after: seq<string>)
    ensures before + x + after == before + y + after <==> x == y
  {
    var l, m := before + x + after, before + y + after;
    if l == m {
      assert |x| == |y|;
      assert x == l[|before|..|before| + |x|] && y == m[|before|..|before| + |y|];
    }
  }

  /** Reading in two chunks gives the lines of the whole text exactly when the line around the cut
      is not torn: one of its halves is empty, or both are blank. */
  lemma LinesSplitIff(a: string, b: string)
    ensures var pa := Split(a, '\n');
            var left, right := pa[|pa| - 1], Split(b, '\n')[0];
            Lines(a + b) == Lines(a) + Lines(b)
            <==> left == "" || right == "" || (Blank(left) && Blank(right))
  {
    var left, right := Split(a, '\n')[|Split(a, '\n')| - 1], Split(b, '\n')[0];
    var before, after := LinesBefore(a), LinesAfter(b);
    LinesUpTo(a, left);
    LinesFrom(b, right);
    LinesAcross(a, b, left, right);
    Regroup(before, NonBlank([left]), NonBlank([right]), after);
    Cancel(before, NonBlank([left + right]), NonBlank([left]) + NonBlank([right]), after);
    OneLineIff(left, right);
  }

  lemma OneLineIff(left: string, right: string)
    ensures NonBlank([left + right]) == NonBlank([left]) + NonBlank([right])
       <==> left == "" || right == "" || (Blank(left) && Blank(right))
  {
    One(left);
    One(right);
    One(left + right);
    BlankConcat(left, right);
    assert "" + right == right && left + "" == left;
  }

  lemma One(s: string)
    ensures NonBlank([s]) == if Blank(s) then [] else [s]
  {
    assert [s][..0] == [];
  }

  lemma BlankConcat(a: string, b: string)
    ensures Blank(a + b) <==> Blank(a) && Blank(b)
  {
    assert forall c | c in a :: c in a + b;
    assert forall c | c in b :: c in a + b;
  }

  lemma LinesOfWhole(a: string, b: string)
    requires Whole(a)
    ensures Lines(a + b) == Lines(a) + Lines(b)
  {
    LastPieceEmptyIff(a);
    LinesSplitIff(a, b);
  }

  /** The lines sent for a series of chunks. */
  function LinesOfChunks(chunks: seq<string>): seq<string> {
    if chunks == [] then [] else LinesOfChunks(chunks[..|chunks| - 1]) + Lines(chunks[|chunks| - 1])
  }

  lemma {:induction false} WholeFlatten(chunks: seq<string>)
    requires forall i | 0 <= i < |chunks| :: Whole(chunks[i])
    ensures Whole(Flatten(chunks)) && LinesOfChunks(chunks) == Lines(Flatten(chunks))
  {
    if chunks == [] {
      assert Split("", '\n') == [""] && NonBlank([""]) == [] by { One(""); }
    } else {
      WholeFlatten(chunks[..|chunks| - 1]);
      LinesOfWhole(Flatten(chunks[..|chunks| - 1]), chunks[|chunks| - 1]);
    }
  }

  // ---- The client's buffer -----------------------------------------------------------------------

  const MAX_LINES := 1000

  function LastN<T>(s: seq<T>, n: nat): seq<T> {
    if |s| <= n then s else s[|s| - n..]
  }

  /** The last `n` of all, or all of them when they are fewer. */
  ghost predicate IsEndOf<T(!new)>(end: seq<T>, all: seq<T>, n: nat) {
    && |end| == (if |all| < n then |all| else n)
    && forall i | 0 <= i < |end| :: end[i] == all[|all| - |end| + i]
  }

  lemma LastNAbsorbs<T>(a: seq<T>, b: seq<T>, n: nat)
    ensures LastN(LastN(a, n) + b, n) == LastN(a + b, n)
  {
  }

  class LogPane {
    var logLines: seq<string>

    constructor ()
      ensures logLines == []
    {
      logLines := [];
    }

    method PushLog(text: string)
      modifies this
      ensures logLines == LastN(old(logLines) + JsNonBlank(Split(text, '\n')), MAX_LINES)
      ensures IsEndOf(logLines, old(logLines) + JsNonBlank(Split(text, '\n')), 1000)
    {
      var lines := Split(text, '\n');
      for i := 0 to |lines|
        invariant logLines == old(logLines) + JsNonBlank(lines[..i])
      {
        assert lines[..i + 1][..i] == lines[..i];
        if JsBlank(lines[i]) {
          continue;
        }
        logLines := logLines + [lines[i]];
      }
      assert lines[..|lines|] == lines;
      if |logLines| > MAX_LINES {
        logLines := logLines[|logLines| - MAX_LINES..];
      }
    }
  }

  /** The buffer after a series of pushes. */
  function Pushed(buffer: seq<string>, texts: seq<string>): seq<string> {
    if texts == [] then buffer
    else LastN(Pushed(buffer, texts[..|texts| - 1]) + JsNonBlank(Split(texts[|texts| - 1], '\n')), MAX_LINES)
  }

  function AllLines(texts: seq<string>): seq<string> {
    if texts == [] then []
    else AllLines(texts[..|texts| - 1]) + JsNonBlank(Split(texts[|texts| - 1], '\n'))
  }

  lemma {:induction false} PushedIsLastN(buffer: seq<string>, texts: seq<string>)
    requires |buffer| <= MAX_LINES
    ensures Pushed(buffer, texts) == LastN(buffer + AllLines(texts), MAX_LINES)
  {
    if texts == [] {
      assert buffer + [] == buffer;
    } else {
      var init := texts[..|texts| - 1];
      var mine := JsNonBlank(Split(texts[|texts| - 1], '\n'));
      PushedIsLastN(buffer, init);
      LastNAbsorbs(buffer + AllLines(init), mine, MAX_LINES);
      assert buffer + (AllLines(init) + mine) == buffer + AllLines(init) + mine;
    }
  }

  /** However the text was cut into pushes: the buffer holds the last 1000 of all non-blank lines, the
      newest last. */
  lemma BufferIsLastLines(buffer: seq<string>, texts: seq<string>)
    requires |buffer| <= 1000
    ensures IsEndOf(Pushed(buffer, texts), buffer + AllLines(texts), 1000)
  {
    PushedIsLastN(buffer, texts);
  }

  /** Single lines pushed one by one are kept as they are, blank ones dropped. */
  lemma {:induction false} AllLinesOfSingles(lines: seq<string>)
    requires forall i | 0 <= i < |lines| :: '\n' !in lines[i]
    ensures AllLines(lines) == JsNonBlank(lines)
  {
    if lines == [] {
    } else {
      var last := lines[|lines| - 1];
      AllLinesOfSingles(lines[..|lines| - 1]);
      SplitNoSeparator(last, '\n');
      assert lines == lines[..|lines| - 1] + [last];
      JsNonBlankAppend(lines[..|lines| - 1], [last]);
    }
  }
}
