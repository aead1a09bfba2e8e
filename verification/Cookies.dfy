/** Reading one cookie out of a Cookie header. */
module Cookies {
  import opened Text

  /** The name and value in one piece of a header, if it is a pair at all. */
  predicate PairNamed(piece: string, name: string) {
    var t := Trim(piece);
    var eq := IndexOf(t, '=');
    eq > 0 && t[..eq] == name
  }

  function PairValue(piece: string): string {
    var t := Trim(piece);
    t[IndexOf(t, '=') + 1..]
  }

  function FirstNamed(pieces: seq<string>, name: string): string {
    if pieces == [] then ""
    else if PairNamed(pieces[0], name) then PairValue(pieces[0])
    else FirstNamed(pieces[1..], name)
  }

  function ValueIn(header: string, name: string): string {
    FirstNamed(Split(header, ';'), name)
  }

  method CookieValue(header: string, name: string) returns (value: string)
    ensures value == ValueIn(header, name)
  {
    var parts := Split(header, ';');
    for i := 0 to |parts|
      invariant FirstNamed(parts, name) == FirstNamed(parts[i..], name)
    {
      var t := Trim(parts[i]);
      var eq := IndexOf(t, '=');
      if eq > 0 && t[..eq] == name {
        return t[eq + 1..];
      }
    }
    return "";
  }

  // ---- Headers as section 4.2.1 of RFC 6265 writes them --------------------------------------

  datatype Pair = Pair(name: string, value: string)

  /** A token for a name; a value free of white space and semicolons, which may hold `=` signs. */
  predicate WellFormed(p: Pair) {
    && p.name != ""
    && (forall i | 0 <= i < |p.name| :: !IsSpace(p.name[i]) && p.name[i] !in "=;")
    && (forall i | 0 <= i < |p.value| :: !IsSpace(p.value[i]) && p.value[i] != ';')
  }

  function PairText(p: Pair): string {
    p.name + "=" + p.value
  }

  function Render(pairs: seq<Pair>): string {
    if pairs == [] then ""
    else if |pairs| == 1 then PairText(pairs[0])
    else PairText(pairs[0]) + "; " + Render(pairs[1..])
  }

  /** The value of the first cookie with this name. */
  function FirstValue(pairs: seq<Pair>, name: string): string {
    if pairs == [] then ""
    else if pairs[0].name == name then pairs[0].value
    else FirstValue(pairs[1..], name)
  }

  lemma FirstPosition(s: string, c: char, k: nat)
    requires k < |s| && s[k] == c && c !in s[..k]
    ensures IndexOf(s, c) == k
  {
    var i := IndexOf(s, c);
    forall j | 0 <= j < k
      ensures s[j] != c
    {
      assert s[..k][j] == s[j];
    }
    forall j | 0 <= j < i
      ensures s[j] != c
    {
      assert s[..i][j] == s[j];
    }
  }

  /** The piece is this name, an equals sign and this value, white space around it apart. */
  predicate IsPair(piece: string, name: string, value: string) {
    Trim(piece) == name + "=" + value
  }

  ghost predicate HasPair(piece: string, name: string) {
    exists value :: IsPair(piece, name, value)
  }

  lemma PairNamedIff(piece: string, name: string)
    requires name != "" && '=' !in name
    ensures PairNamed(piece, name) <==> HasPair(piece, name)
    ensures forall value | IsPair(piece, name, value) :: PairValue(piece) == value
  {
    var t := Trim(piece);
    var eq := IndexOf(t, '=');
    if PairNamed(piece, name) {
      assert t == t[..eq] + "=" + t[eq + 1..];
      assert IsPair(piece, name, t[eq + 1..]);
    }
    forall value | IsPair(piece, name, value)
      ensures PairNamed(piece, name) && PairValue(piece) == value
    {
      assert t[..|name|] == name && t[|name| + 1..] == value && t[|name|] == '=';
      FirstPosition(t, '=', |name|);
    }
  }

  /** From any pieces at all: the value of the first one that is a pair of that name, or nothing. */
  lemma {:induction false} FirstPairWins(pieces: seq<string>, name: string)
    requires name != "" && '=' !in name
    ensures (forall i | 0 <= i < |pieces| :: !HasPair(pieces[i], name)) ==> FirstNamed(pieces, name) == ""
    ensures forall i, value | 0 <= i < |pieces| && IsPair(pieces[i], name, value)
                              && (forall j | 0 <= j < i :: !HasPair(pieces[j], name)) ::
              FirstNamed(pieces, name) == value
  {
    if pieces == [] {
    } else {
      PairNamedIff(pieces[0], name);
      FirstPairWins(pieces[1..], name);
      forall i, value | 0 <= i < |pieces| && IsPair(pieces[i], name, value)
                        && (forall j | 0 <= j < i :: !HasPair(pieces[j], name))
        ensures FirstNamed(pieces, name) == value
      {
        if i > 0 {
          assert !HasPair(pieces[0], name);
          assert pieces[1..][i - 1] == pieces[i];
          assert forall j | 0 <= j < i - 1 :: !HasPair(pieces[1..][j], name) by {
            assert forall j | 0 <= j < i - 1 :: pieces[1..][j] == pieces[j + 1];
          }
        } else {
          assert HasPair(pieces[0], name);
        }
      }
    }
  }

  lemma PairTextReads(p: Pair, name: string)
    requires WellFormed(p)
    ensures ';' !in PairText(p)
    ensures PairNamed(PairText(p), name) <==> p.name == name
    ensures PairValue(PairText(p)) == p.value
  {
    var t := PairText(p);
    assert t[0] == p.name[0];
    assert t[|t| - 1] == if p.value == "" then '=' else p.value[|p.value| - 1];
    TrimNothing(t);
    assert t[|p.name|] == '=' && t[..|p.name|] == p.name;
    FirstPosition(t, '=', |p.name|);
    assert t[..|p.name|] == p.name && t[|p.name| + 1..] == p.value;
  }

  lemma LeadingSpace(piece: string)
    ensures Trim(" " + piece) == Trim(piece)
  {
    assert (" " + piece)[1..] == piece;
  }

  lemma LeadingSpaceBeforeAll(s: string, name: string)
    ensures FirstNamed(Split(" " + s, ';'), name) == FirstNamed(Split(s, ';'), name)
  {
    assert (" " + s)[1..] == s;
    var parts := Split(s, ';');
    var spaced := Split(" " + s, ';');
    assert spaced == [" " + parts[0]] + parts[1..];
    LeadingSpace(parts[0]);
    assert spaced[1..] == parts[1..];
  }

  lemma OnePairMore(text: string, rest: string, name: string)
    requires Split(text, ';') == [text]
    ensures ValueIn(text + "; " + rest, name) == if PairNamed(text, name) then PairValue(text) else ValueIn(rest, name)
  {
    assert text + "; " + rest == text + [';'] + (" " + rest);
    SplitAtSeparator(text, " " + rest, ';');
    assert ([text] + Split(" " + rest, ';'))[1..] == Split(" " + rest, ';');
    LeadingSpaceBeforeAll(rest, name);
  }

  /** From a well-formed header the reader returns the first cookie of that name. */
  lemma {:induction false} ReadsFirstCookie(pairs: seq<Pair>, name: string)
    requires forall i | 0 <= i < |pairs| :: WellFormed(pairs[i])
    ensures ValueIn(Render(pairs), name) == FirstValue(pairs, name)
  {
    if pairs == [] {
      assert Split("", ';') == [[]] && Trim([]) == [] && [""][1..] == [];
      assert !PairNamed("", name) && FirstNamed([""], name) == FirstNamed([], name);
    } else {
      var text := PairText(pairs[0]);
      PairTextReads(pairs[0], name);
      SplitNoSeparator(text, ';');
      if |pairs| == 1 {
        assert FirstNamed([], name) == "" && FirstValue(pairs[1..], name) == "";
        assert Split(Render(pairs), ';') == [text] && [text][1..] == [];
      } else {
        OnePairMore(text, Render(pairs[1..]), name);
        ReadsFirstCookie(pairs[1..], name);
      }
    }
  }
}
