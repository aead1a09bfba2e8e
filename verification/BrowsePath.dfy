/** Browsing directories: paths as strings against paths as lists of segments, the confinement of a
    browse target to its root, and moving up, down and along the breadcrumbs. */
module BrowsePath {
  import opened Text
  import opened Wrappers

  // ---- Canonical absolute paths ------------------------------------------------------------------

  /** A directory name on a canonical path. */
  predicate IsSegment(s: string) {
    s != "" && '/' !in s
  }

  ghost predicate Segments(segs: seq<string>) {
    forall i | 0 <= i < |segs| :: IsSegment(segs[i])
  }

  /** "/a/b" for the segments a, b; the empty string for none. */
  function Tail(segs: seq<string>): string {
    if segs == [] then "" else Tail(segs[..|segs| - 1]) + "/" + segs[|segs| - 1]
  }

  /** The canonical path: "/" for no segments. */
  function Path(segs: seq<string>): string {
    if segs == [] then "/" else Tail(segs)
  }

  predicate Inside(base: seq<string>, target: seq<string>) {
    base <= target
  }

  // ---- The string tests the program uses -----------------------------------------------------------

  function BaseSep(base: string): string {
    if base == "/" then base else base + "/"
  }

  predicate InsideByText(base: string, target: string) {
    target == base || StartsWith(target, BaseSep(base))
  }

  lemma {:induction false} TailAppend(a: seq<string>, b: seq<string>)
    ensures Tail(a + b) == Tail(a) + Tail(b)
  {
    if b == [] {
      assert a + b == a;
    } else {
      assert (a + b)[..|a + b| - 1] == a + b[..|b| - 1];
      TailAppend(a, b[..|b| - 1]);
      assert Tail(a) + (Tail(b[..|b| - 1]) + "/" + b[|b| - 1]) == Tail(a) + Tail(b[..|b| - 1]) + "/" + b[|b| - 1];
    }
  }

  lemma TailHead(segs: seq<string>)
    requires segs != []
    ensures Tail(segs) == "/" + segs[0] + Tail(segs[1..])
  {
    assert segs == [segs[0]] + segs[1..];
    assert [segs[0]][..0] == [] && Tail([segs[0]]) == "" + "/" + segs[0];
    TailAppend([segs[0]], segs[1..]);
  }

  /** Where two texts that start with a segment and go on with a separator (or end) agree. */
  lemma FirstSegmentAgrees(a: string, x: string, b: string, y: string)
    requires IsSegment(a) && IsSegment(b)
    requires x == "" || x[0] == '/'
    requires y == "" || y[0] == '/'
    requires a + x == b + y
    ensures a == b && x == y
  {
    var s := a + x;
    assert forall i | 0 <= i < |a| :: s[i] == a[i] && a[i] != '/';
    assert forall i | 0 <= i < |b| :: s[i] == b[i] && b[i] != '/';
    assert s[..|a|] == a && s[..|b|] == b;
    assert s[|a|..] == x && s[|b|..] == y;
  }

  lemma TailStartsWithSlash(segs: seq<string>)
    ensures Tail(segs) == "" <==> segs == []
    ensures segs != [] ==> Tail(segs)[0] == '/'
  {
    if segs != [] {
      TailHead(segs);
    }
  }

  lemma DropSlash(a: string, x: string, b: string, y: string, z: string)
    requires "/" + a + x == "/" + b + y + z
    ensures a + x == b + (y + z)
  {
    assert a + x == ("/" + a + x)[1..];
    assert b + (y + z) == ("/" + b + y + z)[1..];
  }

  lemma PrefixCons(a: seq<string>, b: seq<string>)
    requires a != [] && b != [] && a[0] == b[0] && a[1..] <= b[1..]
    ensures a <= b && b[|a|..] == b[1..][|a[1..]|..]
  {
    assert a == [a[0]] + a[1..] && b == [b[0]] + b[1..];
  }

  /** A separator-terminated prefix of the text is a proper prefix of the segments. */
  lemma {:induction false} TailPrefix(base: seq<string>, target: seq<string>, rest: string)
    requires Segments(base) && Segments(target)
    requires Tail(target) == Tail(base) + rest && (rest == "" || rest[0] == '/')
    ensures base <= target && rest == Tail(target[|base|..])
    decreases |base|
  {
    if base == [] {
      assert Tail(base) + rest == rest && target[0..] == target;
    } else {
      TailStartsWithSlash(base);
      TailStartsWithSlash(target);
      TailHead(base);
      TailHead(target);
      TailStartsWithSlash(base[1..]);
      TailStartsWithSlash(target[1..]);
      DropSlash(target[0], Tail(target[1..]), base[0], Tail(base[1..]), rest);
      FirstSegmentAgrees(target[0], Tail(target[1..]), base[0], Tail(base[1..]) + rest);
      TailPrefix(base[1..], target[1..], rest);
      PrefixCons(base, target);
    }
  }

  lemma PathInjective(a: seq<string>, b: seq<string>)
    requires Segments(a) && Segments(b) && Path(a) == Path(b)
    ensures a == b
  {
    RootOnly(a);
    RootOnly(b);
    if a != [] && b != [] {
      assert Tail(b) + "" == Tail(a);
      TailPrefix(b, a, "");
      TailStartsWithSlash(a[|b|..]);
      assert a[..|b|] + a[|b|..] == a;
    }
  }

  lemma RootOnly(segs: seq<string>)
    requires Segments(segs)
    ensures Path(segs) == "/" <==> segs == []
  {
    if segs != [] {
      TailHead(segs);
      assert |Tail(segs)| >= 2;
    }
  }

  lemma SlashedPrefix(a: string, x: string, y: string)
    ensures StartsWith(a + ("/" + x + y), a + "/")
  {
    assert a + ("/" + x + y) == (a + "/") + (x + y);
  }

  /** For a base below the root: a proper prefix of the segments is a separated prefix of the text. */
  lemma BelowBaseByText(base: seq<string>, target: seq<string>)
    requires base != [] && Segments(base) && Segments(target) && base < target
    ensures StartsWith(Tail(target), Tail(base) + "/")
  {
    var rest := target[|base|..];
    assert target == base + rest;
    TailAppend(base, rest);
    TailHead(rest);
    SlashedPrefix(Tail(base), rest[0], Tail(rest[1..]));
  }

  lemma BelowBaseBySegments(base: seq<string>, target: seq<string>)
    requires Segments(base) && Segments(target)
    requires StartsWith(Tail(target), Tail(base) + "/")
    ensures base <= target
  {
    var sep, t := Tail(base) + "/", Tail(target);
    var rest := "/" + t[|sep|..];
    assert t == sep + t[|sep|..];
    assert sep + t[|sep|..] == Tail(base) + rest;
    TailPrefix(base, target, rest);
  }

  /** The string test decides containment: the base's segments are a prefix of the target's, with
      the root directory as base included. */
  lemma TextTestDecidesInside(base: seq<string>, target: seq<string>)
    requires Segments(base) && Segments(target)
    ensures InsideByText(Path(base), Path(target)) <==> Inside(base, target)
  {
    RootOnly(base);
    RootOnly(target);
    TailStartsWithSlash(target);
    if base == [] {
      assert Path(target)[..1] == "/";
    } else if target == [] {
      assert !StartsWith("/", Path(base) + "/");
    } else {
      if Inside(base, target) && base != target {
        BelowBaseByText(base, target);
      }
      if StartsWith(Path(target), Path(base) + "/") {
        BelowBaseBySegments(base, target);
      }
      if Path(target) == Path(base) {
        PathInjective(base, target);
      }
    }
  }

  // ---- Confinement ----------------------------------------------------------------------------------

  datatype BrowseError = UuidRequired | NotMounted | InvalidRoot | RootUnavailable

  datatype BrowseTarget = Refused(error: BrowseError) | Target(base: string, target: string)

  /** The directory a browse is confined to, before it is made canonical. `mountDir` is where the
      partition is mounted, if it is. */
  function RootOf(root: string, uuid: string, scripts: string, mountDir: Option<string>): string {
    if root == "script" then scripts
    else if root == "dest" then (if mountDir.Some? then mountDir.value else "")
    else "/"
  }

  /** A target outside the base is clamped back to it. */
  function Clamped(base: string, target: string): string {
    if target != "" && InsideByText(base, target) then target else base
  }

  /** The answer for a browse request. `canonical` resolves an existing directory to its canonical path
      and anything else to "". */
  function Resolved(root: string, uuid: string, path: string, scripts: string,
                    mountDir: Option<string>, canonical: string -> string): BrowseTarget
  {
    var base := RootOf(root, uuid, scripts, mountDir);
    if root == "dest" && uuid == "" then Refused(UuidRequired)
    else if root == "dest" && mountDir.None? then Refused(NotMounted)
    else if base == "" then Refused(InvalidRoot)
    else if canonical(base) == "" then Refused(RootUnavailable)
    else Target(canonical(base), Clamped(canonical(base), canonical(if path == "" then base else path)))
  }

  method ResolveBrowseTarget(root: string, uuid: string, path: string, scripts: string,
                             mountDir: Option<string>, canonical: string -> string)
    returns (r: BrowseTarget)
    ensures r == Resolved(root, uuid, path, scripts, mountDir, canonical)
  {
    var base;
    if root == "script" {
      base := scripts;
    } else if root == "dest" {
      if uuid == "" {
        return Refused(UuidRequired);
      }
      if mountDir.None? {
        return Refused(NotMounted);
      }
      base := mountDir.value;
    } else {
      base := "/";
    }
    if base == "" {
      return Refused(InvalidRoot);
    }
    var canonicalBase := canonical(base);
    if canonicalBase == "" {
      return Refused(RootUnavailable);
    }
    var canonicalTarget := canonical(if path == "" then base else path);
    var baseSep := if canonicalBase == "/" then canonicalBase else canonicalBase + "/";
    var insideBase := canonicalTarget != "" && (canonicalTarget == canonicalBase || StartsWith(canonicalTarget, baseSep));
    if !insideBase {
      canonicalTarget := canonicalBase;
    }
    return Target(canonicalBase, canonicalTarget);
  }

  /** A browse target never leaves its base, and it is the directory asked for whenever that one is
      inside the base. */
  lemma TargetIsConfined(base: seq<string>, wanted: seq<string>)
    requires Segments(base) && Segments(wanted)
    ensures var target := if Inside(base, wanted) then wanted else base;
            Inside(base, target) && Clamped(Path(base), Path(wanted)) == Path(target)
  {
    TextTestDecidesInside(base, wanted);
    TailStartsWithSlash(wanted);
  }

  ghost predicate IsCanonical(p: string) {
    exists segs :: Segments(segs) && p == Path(segs)
  }

  /** Every target a request resolves to is a canonical path inside the directory its kind of browse is
      confined to, whatever was asked for: a path elsewhere and a directory that does not exist included;
      these two give that directory itself. */
  lemma ResolvedIsConfined(root: string, uuid: string, path: string, scripts: string,
                           mountDir: Option<string>, canonical: string -> string)
    requires forall p :: canonical(p) == "" || IsCanonical(canonical(p))
    requires Resolved(root, uuid, path, scripts, mountDir, canonical).Target?
    ensures var r := Resolved(root, uuid, path, scripts, mountDir, canonical);
            && (root == "script" ==> r.base == canonical(scripts))
            && (root == "dest" ==> mountDir.Some? && r.base == canonical(mountDir.value))
            && (root != "script" && root != "dest" ==> r.base == canonical("/"))
            && (exists base, target ::
                  && Segments(base) && Segments(target) && Inside(base, target)
                  && r.base == Path(base) && r.target == Path(target))
            && (path == "" || canonical(path) == "" ==> r.target == r.base)
            && (path != "" && canonical(path) != "" ==>
                  r.target == if InsideByText(r.base, canonical(path)) then canonical(path) else r.base)
  {
    var r := Resolved(root, uuid, path, scripts, mountDir, canonical);
    assert IsCanonical(r.base);
    var base :| Segments(base) && r.base == Path(base);
    if r.target == r.base {
      assert Inside(base, base);
    } else {
      assert IsCanonical(r.target);
      var target :| Segments(target) && r.target == Path(target);
      TextTestDecidesInside(base, target);
      assert Inside(base, target);
    }
  }

  /** When a request is refused, and with which answer. */
  lemma RefusedIff(root: string, uuid: string, path: string, scripts: string,
                   mountDir: Option<string>, canonical: string -> string)
    ensures var r := Resolved(root, uuid, path, scripts, mountDir, canonical);
            && (r == Refused(UuidRequired) <==> root == "dest" && uuid == "")
            && (r == Refused(NotMounted) <==> root == "dest" && uuid != "" && mountDir.None?)
            && (r == Refused(InvalidRoot) <==>
                  || (root == "script" && scripts == "")
                  || (root == "dest" && uuid != "" && mountDir == Some("")))
            && (r == Refused(RootUnavailable) <==>
                  || (root == "script" && scripts != "" && canonical(scripts) == "")
                  || (root == "dest" && uuid != "" && mountDir.Some? && mountDir.value != "" && canonical(mountDir.value) == "")
                  || (root != "script" && root != "dest" && canonical("/") == ""))
  {
  }

  // ---- Up and down ------------------------------------------------------------------------------------

  /** The directory part of an absolute path. */
  function DirPart(path: string): string {
    var i := LastIndexOf(path, '/');
    if i <= 0 then "/" else path[..i]
  }

  function UnclampedParent(base: string, target: string): string {
    if target == base then base else DirPart(target)
  }

  /** The parent the browse answer names, kept inside the base. */
  function BrowseParent(base: string, target: string): string {
    var parent := UnclampedParent(base, target);
    if InsideByText(base, parent) then parent else base
  }

  lemma LastPosition(s: string, c: char, k: nat)
    requires k < |s| && s[k] == c && c !in s[k + 1..]
    ensures LastIndexOf(s, c) == k
  {
    var i := LastIndexOf(s, c);
    forall j | k < j < |s|
      ensures s[j] != c
    {
      assert s[k + 1..][j - k - 1] == s[j];
    }
    forall j | i < j < |s|
      ensures s[j] != c
    {
      assert s[i + 1..][j - i - 1] == s[j];
    }
  }

  lemma DirPartOfChild(a: string, name: string)
    requires '/' !in name
    ensures DirPart(a + "/" + name) == if a == "" then "/" else a
  {
    var s := a + "/" + name;
    assert s[|a| + 1..] == name && s[|a|] == '/' && s[..|a|] == a;
    LastPosition(s, '/', |a|);
  }

  lemma DirPartOfPath(segs: seq<string>)
    requires Segments(segs) && segs != []
    ensures DirPart(Path(segs)) == Path(segs[..|segs| - 1])
  {
    DirPartOfChild(Tail(segs[..|segs| - 1]), segs[|segs| - 1]);
    TailStartsWithSlash(segs[..|segs| - 1]);
  }

  lemma ProperPrefix(a: seq<string>, b: seq<string>)
    requires a <= b && a != b
    ensures |a| < |b| && a <= b[..|b| - 1]
  {
  }

  /** From inside the base, the parent is one segment up, or the base itself, and the clamp never fires. */
  lemma ParentIsOneUp(base: seq<string>, target: seq<string>)
    requires Segments(base) && Segments(target) && Inside(base, target)
    ensures var up := if target == base then base else target[..|target| - 1];
            && Inside(base, up)
            && UnclampedParent(Path(base), Path(target)) == Path(up)
            && BrowseParent(Path(base), Path(target)) == Path(up)
  {
    if Path(target) == Path(base) {
      PathInjective(base, target);
      TextTestDecidesInside(base, base);
    } else {
      var up := target[..|target| - 1];
      ProperPrefix(base, target);
      DirPartOfPath(target);
      TextTestDecidesInside(base, up);
    }
  }

  /** What pressing "up" visits: every path is the browse parent of the one before it. */
  ghost predicate GoesUp(base: string, chain: seq<string>) {
    forall i | 0 < i < |chain| :: chain[i] == BrowseParent(base, chain[i - 1])
  }

  /** How much of the target is left after going up `n` times. */
  function Left(base: seq<string>, target: seq<string>, n: nat): (left: nat)
    requires |base| <= |target|
    ensures |base| <= left <= |target|
  {
    if n <= |target| - |base| then |target| - n else |base|
  }

  lemma UpOneFrom(base: seq<string>, target: seq<string>, k: nat)
    requires Segments(base) && Segments(target) && Inside(base, target) && |base| < k <= |target|
    ensures BrowseParent(Path(base), Path(target[..k])) == Path(target[..k - 1])
  {
    var here := target[..k];
    assert here[..k - 1] == target[..k - 1];
    ParentIsOneUp(base, here);
  }

  lemma UpOnce(base: seq<string>, target: seq<string>, n: nat)
    requires Segments(base) && Segments(target) && Inside(base, target)
    ensures BrowseParent(Path(base), Path(target[..Left(base, target, n)]))
         == Path(target[..Left(base, target, n + 1)])
  {
    var left := Left(base, target, n);
    if left > |base| {
      UpOneFrom(base, target, left);
    } else {
      assert target[..left] == base;
      ParentIsOneUp(base, base);
    }
  }

  lemma {:induction false} UpDropsSegments(base: seq<string>, target: seq<string>, chain: seq<string>, n: nat)
    requires Segments(base) && Segments(target) && Inside(base, target)
    requires n < |chain| && GoesUp(Path(base), chain) && chain[0] == Path(target)
    ensures chain[n] == Path(target[..Left(base, target, n)])
  {
    if n == 0 {
      assert target[..|target|] == target;
    } else {
      UpDropsSegments(base, target, chain, n - 1);
      UpOnce(base, target, n - 1);
    }
  }

  /** Going up from a target arrives at the base after as many steps as the target is deep below it,
      not before, and stays there. */
  lemma UpReachesBaseIff(base: seq<string>, target: seq<string>, chain: seq<string>, n: nat)
    requires Segments(base) && Segments(target) && Inside(base, target)
    requires n < |chain| && GoesUp(Path(base), chain) && chain[0] == Path(target)
    ensures chain[n] == Path(base) <==> n >= |target| - |base|
  {
    UpDropsSegments(base, target, chain, n);
    var left := Left(base, target, n);
    assert target[..|base|] == base && |target[..left]| == left;
    if Path(target[..left]) == Path(base) {
      PathInjective(target[..left], base);
    }
  }

  /** The picker's way into a child: one trailing slash is dropped before the name is added. */
  function Enter(path: string, name: string): string {
    (if path != "" && path[|path| - 1] == '/' then path[..|path| - 1] else path) + "/" + name
  }

  lemma EnterAddsSegment(target: seq<string>, name: string)
    requires Segments(target) && IsSegment(name)
    ensures Enter(Path(target), name) == Path(target + [name])
  {
    assert (target + [name])[..|target|] == target;
    assert Path(target + [name]) == Tail(target) + "/" + name;
    if target == [] {
      assert "/"[..0] == "";
    } else {
      var last := target[|target| - 1];
      var p := Path(target);
      assert p[|p| - 1] == last[|last| - 1];
    }
  }

  /** The parent undoes entering a child. */
  lemma ParentUndoesEnter(base: seq<string>, target: seq<string>, name: string)
    requires Segments(base) && Segments(target) && Inside(base, target) && IsSegment(name)
    ensures BrowseParent(Path(base), Enter(Path(target), name)) == Path(target)
  {
    EnterAddsSegment(target, name);
    ParentIsOneUp(base, target + [name]);
    assert (target + [name])[..|target|] == target;
  }

  /** The path the local mkdir reports is the canonical path of the new directory unless that is made
      directly under the root directory, where it gets a second slash. */
  lemma MkdirPathIsCanonicalIff(target: seq<string>, name: string)
    requires Segments(target) && IsSegment(name)
    ensures Path(target) + "/" + name == Path(target + [name]) <==> target != []
  {
    assert (target + [name])[..|target|] == target;
    assert Path(target + [name]) == Tail(target) + "/" + name;
    if target == [] {
      assert |Path(target) + "/" + name| == |Path(target + [name])| + 1;
    }
  }

  // ---- Breadcrumbs --------------------------------------------------------------------------------------

  datatype Crumb = Crumb(caption: string, path: string)

  /** The pieces that are not empty. */
  function NonEmpty(parts: seq<string>): seq<string> {
    if parts == [] then []
    else NonEmpty(parts[..|parts| - 1]) + if parts[|parts| - 1] == "" then [] else [parts[|parts| - 1]]
  }

  function Trail(acc: string, segs: seq<string>): seq<Crumb> {
    if segs == [] then []
    else Trail(acc, segs[..|segs| - 1]) + [Crumb(segs[|segs| - 1], acc + Tail(segs))]
  }

  function BaseLabel(base: string): string {
    var parts := NonEmpty(Split(base, '/'));
    if base == "/" then "/" else if parts == [] then base else parts[|parts| - 1]
  }

  /** The names in what follows the base. */
  function NamesBelow(base: string, cur: string): seq<string>
    requires StartsWith(cur, base)
  {
    NonEmpty(Split(cur[if base == "/" then 1 else |base|..], '/'))
  }

  function CrumbsFor(base: string, cur: string): seq<Crumb> {
    [Crumb(BaseLabel(base), base)]
    + if cur != base && StartsWith(cur, base)
      then Trail(if base == "/" then "" else base, NamesBelow(base, cur))
      else []
  }

  method PickerCrumbs(pickerBase: string, pickerPath: string) returns (crumbs: seq<Crumb>)
    ensures var base := if pickerBase == "" then "/" else pickerBase;
            crumbs == CrumbsFor(base, if pickerPath == "" then base else pickerPath)
  {
    var base := if pickerBase == "" then "/" else pickerBase;
    var cur := if pickerPath == "" then base else pickerPath;
    crumbs := [Crumb(BaseLabel(base), base)];
    assert crumbs + [] == crumbs;
    if cur != base && StartsWith(cur, base) {
      crumbs := PushSegments(crumbs, if base == "/" then "" else base, NamesBelow(base, cur));
    }
  }

  /** The getter's loop: one crumb per name, each path one name longer. */
  method PushSegments(first: seq<Crumb>, start: string, rest: seq<string>) returns (crumbs: seq<Crumb>)
    ensures crumbs == first + Trail(start, rest)
  {
    crumbs := first;
    var acc := start;
    for i := 0 to |rest|
      invariant acc == start + Tail(rest[..i])
      invariant crumbs == first + Trail(start, rest[..i])
    {
      TrailStep(first, start, rest, i);
      acc := acc + "/" + rest[i];
      crumbs := crumbs + [Crumb(rest[i], acc)];
    }
    assert rest[..|rest|] == rest;
  }

  lemma TrailStep(first: seq<Crumb>, start: string, rest: seq<string>, i: nat)
    requires i < |rest|
    ensures var acc := start + Tail(rest[..i]) + "/" + rest[i];
            && start + Tail(rest[..i + 1]) == acc
            && first + Trail(start, rest[..i + 1]) == first + Trail(start, rest[..i]) + [Crumb(rest[i], acc)]
  {
    var acc := start + Tail(rest[..i]) + "/" + rest[i];
    assert rest[..i + 1][..i] == rest[..i];
    assert start + (Tail(rest[..i]) + "/" + rest[i]) == acc;
    assert first + (Trail(start, rest[..i]) + [Crumb(rest[i], acc)]) == first + Trail(start, rest[..i]) + [Crumb(rest[i], acc)];
  }

  lemma {:induction false} NonEmptyAppend(a: seq<string>, b: seq<string>)
    ensures NonEmpty(a + b) == NonEmpty(a) + NonEmpty(b)
  {
    if b == [] {
      assert a + b == a;
    } else {
      assert (a + b)[..|a + b| - 1] == a + b[..|b| - 1];
      NonEmptyAppend(a, b[..|b| - 1]);
    }
  }

  lemma NonEmptyOne(s: string)
    ensures NonEmpty([s]) == if s == "" then [] else [s]
  {
    assert [s][..0] == [];
  }

  lemma OneMoreSegment(path: string, name: string)
    requires IsSegment(name)
    ensures NonEmpty(Split(path + "/" + name, '/')) == NonEmpty(Split(path, '/')) + [name]
  {
    SplitAtSeparator(path, name, '/');
    SplitNoSeparator(name, '/');
    NonEmptyAppend(Split(path, '/'), [name]);
    NonEmptyOne(name);
  }

  /** Splitting a path at its slashes gives back its segments. */
  lemma {:induction false} SegmentsOfTail(segs: seq<string>)
    requires Segments(segs)
    ensures NonEmpty(Split(Tail(segs), '/')) == segs
  {
    if segs == [] {
      assert Split("", '/') == [""];
      NonEmptyOne("");
    } else {
      var init, last := segs[..|segs| - 1], segs[|segs| - 1];
      SegmentsOfTail(init);
      OneMoreSegment(Tail(init), last);
    }
  }

  lemma SegmentsAfterRoot(segs: seq<string>)
    requires Segments(segs) && segs != []
    ensures NonEmpty(Split(Tail(segs)[1..], '/')) == segs
  {
    TailStartsWithSlash(segs);
    var rest := Tail(segs)[1..];
    assert Tail(segs) == [] + ['/'] + rest;
    SplitAtSeparator([], rest, '/');
    assert Split([], '/') == [""];
    NonEmptyAppend([""], Split(rest, '/'));
    NonEmptyOne("");
    SegmentsOfTail(segs);
  }

  lemma {:induction false} TrailLength(acc: string, segs: seq<string>)
    ensures |Trail(acc, segs)| == |segs|
  {
    if segs == [] {
    } else {
      TrailLength(acc, segs[..|segs| - 1]);
    }
  }

  lemma {:induction false} TrailAt(acc: string, segs: seq<string>, i: nat)
    requires i < |segs| == |Trail(acc, segs)|
    ensures Trail(acc, segs)[i] == Crumb(segs[i], acc + Tail(segs[..i + 1]))
  {
    var init := segs[..|segs| - 1];
    TrailLength(acc, init);
    if i < |init| {
      TrailAt(acc, init, i);
      assert init[..i + 1] == segs[..i + 1];
    } else {
      assert segs[..i + 1] == segs;
    }
  }

  /** The pieces of the current path below the base are its segments below the base. */
  lemma RestBelowBase(base: seq<string>, target: seq<string>)
    requires Segments(base) && Segments(target) && Inside(base, target) && base != target
    ensures var b, t := Path(base), Path(target);
            StartsWith(t, b) && NamesBelow(b, t) == target[|base|..]
  {
    RootOnly(base);
    var rest := target[|base|..];
    assert target == base + rest;
    TailAppend(base, rest);
    if base == [] {
      SegmentsAfterRoot(target);
      TailStartsWithSlash(target);
      assert target[0..] == target && Path(target)[..1] == "/";
    } else {
      assert Path(target)[|Path(base)|..] == Tail(rest) && Path(target)[..|Path(base)|] == Path(base);
      SegmentsOfTail(rest);
    }
  }

  lemma CrumbsAlong(base: seq<string>, target: seq<string>)
    requires Segments(base) && Segments(target) && Inside(base, target)
    ensures var crumbs := CrumbsFor(Path(base), Path(target));
            && |crumbs| == |target| - |base| + 1
            && (forall i | 0 <= i < |crumbs| :: crumbs[i].path == Path(target[..|base| + i]))
            && (forall i | 0 < i < |crumbs| :: crumbs[i].caption == target[|base| + i - 1])
  {
    assert target[..|base|] == base;
    if base != target {
      CrumbsBelowBase(base, target);
    }
  }

  lemma CrumbsBelowBase(base: seq<string>, target: seq<string>)
    requires Segments(base) && Segments(target) && Inside(base, target) && base != target
    ensures var crumbs := CrumbsFor(Path(base), Path(target));
            && |crumbs| == |target| - |base| + 1
            && crumbs[0].path == Path(base)
            && (forall i | 0 < i < |crumbs| ::
                  crumbs[i] == Crumb(target[|base| + i - 1], Path(target[..|base| + i])))
  {
    var crumbs := CrumbsFor(Path(base), Path(target));
    CrumbsAreTrail(base, target);
    TrailLength(if base == [] then "" else Path(base), target[|base|..]);
    forall i | 0 < i < |crumbs|
      ensures crumbs[i] == Crumb(target[|base| + i - 1], Path(target[..|base| + i]))
    {
      TrailBelow(base, target, i);
    }
  }

  /** The i-th crumb below the base. */
  lemma TrailBelow(base: seq<string>, target: seq<string>, i: nat)
    requires Inside(base, target) && 0 < i <= |target| - |base|
    ensures var trail := Trail(if base == [] then "" else Path(base), target[|base|..]);
            i <= |trail| && trail[i - 1] == Crumb(target[|base| + i - 1], Path(target[..|base| + i]))
  {
    var start, rest := if base == [] then "" else Path(base), target[|base|..];
    TrailLength(start, rest);
    TrailAt(start, rest, i - 1);
    PathBelow(base, target, i);
  }

  lemma CrumbsAreTrail(base: seq<string>, target: seq<string>)
    requires Segments(base) && Segments(target) && Inside(base, target) && base != target
    ensures CrumbsFor(Path(base), Path(target))
         == [Crumb(BaseLabel(Path(base)), Path(base))] + Trail(if base == [] then "" else Path(base), target[|base|..])
  {
    RootOnly(base);
    if Path(base) == Path(target) {
      PathInjective(base, target);
    }
    RestBelowBase(base, target);
  }

  lemma PathBelow(base: seq<string>, target: seq<string>, i: nat)
    requires Inside(base, target) && 0 < i <= |target| - |base|
    ensures (if base == [] then "" else Path(base)) + Tail(target[|base|..][..i]) == Path(target[..|base| + i])
  {
    assert base + target[|base|..][..i] == target[..|base| + i];
    TailAppend(base, target[|base|..][..i]);
  }

  /** The breadcrumbs lead from the base to the current path, one per directory; each one's path is the
      browse parent of the next, so read backwards they are what going up visits, and each below the
      base is labelled with its own directory's name. */
  lemma CrumbsAreTheChain(base: seq<string>, target: seq<string>)
    requires Segments(base) && Segments(target) && Inside(base, target)
    ensures var crumbs := CrumbsFor(Path(base), Path(target));
            && |crumbs| == |target| - |base| + 1
            && crumbs[0] == Crumb(if base == [] then "/" else base[|base| - 1], Path(base))
            && crumbs[|crumbs| - 1].path == Path(target)
            && (forall i | 0 < i < |crumbs| :: crumbs[i - 1].path == BrowseParent(Path(base), crumbs[i].path))
            && (forall i | 0 < i < |crumbs| :: crumbs[i].caption == target[|base| + i - 1])
  {
    assert target[..|target|] == target && target[..|base|] == base;
    CrumbsAlong(base, target);
    LabelIsLastSegment(base);
    ChainIsUpward(base, target, CrumbsFor(Path(base), Path(target)));
  }

  /** For any two canonical paths the crumbs end at the current one exactly when it is inside the base: a
      path that merely continues the base's text gets crumbs to somewhere else. */
  lemma CrumbsReachPathIff(base: seq<string>, target: seq<string>)
    requires Segments(base) && Segments(target)
    ensures var crumbs := CrumbsFor(Path(base), Path(target));
            crumbs[|crumbs| - 1].path == Path(target) <==> Inside(base, target)
  {
    if Inside(base, target) {
      CrumbsAreTheChain(base, target);
    } else {
      OutsideIsNotReached(base, target);
    }
  }

  lemma OutsideIsNotReached(base: seq<string>, target: seq<string>)
    requires Segments(base) && Segments(target) && !Inside(base, target)
    ensures var crumbs := CrumbsFor(Path(base), Path(target));
            crumbs[|crumbs| - 1].path != Path(target)
  {
    var b, t := Path(base), Path(target);
    TextTestDecidesInside(base, target);
    RootOnly(base);
    if StartsWith(t, b) {
      var names := NamesBelow(b, t);
      if names != [] {
        StartsBelow(b, names);
      }
    }
  }

  lemma StartsBelow(b: string, names: seq<string>)
    requires names != []
    ensures StartsWith(b + Tail(names), b + "/")
  {
    TailStartsWithSlash(names);
    assert (b + Tail(names))[..|b| + 1] == b + "/";
  }

  lemma LabelIsLastSegment(base: seq<string>)
    requires Segments(base)
    ensures BaseLabel(Path(base)) == if base == [] then "/" else base[|base| - 1]
  {
    RootOnly(base);
    if base != [] {
      SegmentsOfTail(base);
    }
  }

  lemma ChainIsUpward(base: seq<string>, target: seq<string>, crumbs: seq<Crumb>)
    requires Segments(base) && Segments(target) && Inside(base, target)
    requires |crumbs| == |target| - |base| + 1
    requires forall i | 0 <= i < |crumbs| :: crumbs[i].path == Path(target[..|base| + i])
    ensures forall i | 0 < i < |crumbs| :: crumbs[i - 1].path == BrowseParent(Path(base), crumbs[i].path)
  {
    forall i | 0 < i < |crumbs|
      ensures crumbs[i - 1].path == BrowseParent(Path(base), crumbs[i].path)
    {
      LinkAt(base, target, |base| + i, crumbs[i].path, crumbs[i - 1].path);
    }
  }

  lemma LinkAt(base: seq<string>, target: seq<string>, k: nat, child: string, parent: string)
    requires Segments(base) && Segments(target) && Inside(base, target) && |base| < k <= |target|
    requires child == Path(target[..k]) && parent == Path(target[..k - 1])
    ensures parent == BrowseParent(Path(base), child)
  {
    UpOneFrom(base, target, k);
  }

  // ---- Remote paths: string arithmetic only ----------------------------------------------------------------

  function RemoteParent(target: string): string {
    if target == "/" then "/" else DirPart(target)
  }

  function TrimSlashes(p: string): string {
    if |p| > 1 && p[|p| - 1] == '/' then TrimSlashes(p[..|p| - 1]) else p
  }

  function ComposedPath(path: string, name: string): string {
    var parent := TrimSlashes(if path == "" then "/" else path);
    if parent == "/" then "/" + name else parent + "/" + name
  }

  method ComposeRemotePath(path: string, name: string) returns (full: string)
    ensures full == ComposedPath(path, name)
  {
    var parent := if path == "" then "/" else path;
    while |parent| > 1 && parent[|parent| - 1] == '/'
      invariant TrimSlashes(parent) == TrimSlashes(if path == "" then "/" else path)
      decreases |parent|
    {
      parent := parent[..|parent| - 1];
    }
    full := if parent == "/" then "/" + name else parent + "/" + name;
  }

  lemma {:induction false} TrimSlashesShape(p: string)
    requires p != ""
    ensures var t := TrimSlashes(p);
            && t != ""
            && (|t| > 1 ==> t[|t| - 1] != '/')
            && t <= p
            && (forall i | |t| <= i < |p| :: p[i] == '/')
  {
    if |p| > 1 && p[|p| - 1] == '/' {
      TrimSlashesShape(p[..|p| - 1]);
    }
  }

  /** The composed path is the name below the path given, without its trailing slashes: that is its
      remote parent, and the name is what follows the last slash. */
  lemma RemoteParentOfComposed(path: string, name: string)
    requires IsSegment(name)
    ensures var given := if path == "" then "/" else path;
            var full := ComposedPath(path, name);
            var parent := RemoteParent(full);
            && parent != "" && parent <= given
            && (forall i | |parent| <= i < |given| :: given[i] == '/')
            && (|parent| > 1 ==> parent[|parent| - 1] != '/')
            && full == (if parent == "/" then "/" else parent + "/") + name
  {
    var given := if path == "" then "/" else path;
    var parent := TrimSlashes(given);
    TrimSlashesShape(given);
    if parent == "/" {
      assert "/" + name == "" + "/" + name;
      DirPartOfChild("", name);
    } else {
      DirPartOfChild(parent, name);
      assert |ComposedPath(path, name)| > 1;
    }
  }

  /** Composing below a canonical path, with any number of slashes after it, gives the canonical path of
      the child. */
  lemma ComposedIsChild(segs: seq<string>, slashes: string, name: string)
    requires Segments(segs) && IsSegment(name) && forall c | c in slashes :: c == '/'
    ensures ComposedPath(Path(segs) + slashes, name) == Path(segs + [name])
  {
    SlashesTrimmed(segs, slashes);
    NotEmptyPath(segs);
    assert Path(segs) + slashes != "";
    ChildPath(segs, name);
  }

  lemma NotEmptyPath(segs: seq<string>)
    ensures Path(segs) != ""
  {
    TailStartsWithSlash(segs);
  }

  lemma ChildPath(segs: seq<string>, name: string)
    requires Segments(segs)
    ensures Path(segs + [name]) == if Path(segs) == "/" then "/" + name else Path(segs) + "/" + name
  {
    RootOnly(segs);
    var child := segs + [name];
    assert child[..|child| - 1] == segs;
    assert Path(child) == Tail(segs) + "/" + name;
    if segs == [] {
      assert Tail(segs) == "" && "" + "/" + name == "/" + name;
    }
  }

  lemma {:induction false} SlashesTrimmed(segs: seq<string>, slashes: string)
    requires Segments(segs) && forall c | c in slashes :: c == '/'
    ensures TrimSlashes(Path(segs) + slashes) == Path(segs)
    decreases |slashes|
  {
    TailStartsWithSlash(segs);
    var p := Path(segs);
    if slashes == "" {
      assert p + slashes == p;
      if segs != [] {
        var last := segs[|segs| - 1];
        assert p[|p| - 1] == last[|last| - 1];
      }
    } else {
      var init := slashes[..|slashes| - 1];
      assert slashes[|slashes| - 1] in slashes && forall c | c in init :: c in slashes;
      assert (p + slashes)[..|p + slashes| - 1] == p + init;
      SlashesTrimmed(segs, init);
    }
  }

  /** On a canonical remote path the parent is one segment up, and the root stays. */
  lemma RemoteParentIsOneUp(segs: seq<string>)
    requires Segments(segs)
    ensures RemoteParent(Path(segs)) == Path(if segs == [] then [] else segs[..|segs| - 1])
  {
    RootOnly(segs);
    if segs != [] {
      DirPartOfPath(segs);
    }
  }
}
