/** The stored form of the web password: its text format, the superseded format, and the check.
    PBKDF2 (section 5.2 of RFC 8018), SHA-256 and UTF-8 stay uninterpreted. */
module PasswordHash {
  import opened Bits
  import opened Text
  import opened Wrappers

  type bytes = seq<byte>

  /** `pbkdf2` takes the password, the salt, the iteration count and the key length. */
  datatype Crypto = Crypto(
    pbkdf2: (bytes, bytes, int, int) -> bytes,
    sha256: bytes -> bytes,
    utf8: string -> bytes)
  {
    ghost predicate Valid() {
      forall b: bytes :: |sha256(b)| == 32
    }
  }

  const SCHEME := "pbkdf2_sha256"
  const PREFIX := SCHEME + "$"
  const KEY_LEN := 32
  const DEFAULT_ITERATIONS := 210000
  const LEGACY_ITERATIONS := 100000
  const INT_MAX := 0x7fff_ffff

  // ---- Hexadecimal -------------------------------------------------------------------------

  function HexDigit(n: int): (c: char)
    requires 0 <= n < 16
  {
    if n < 10 then '0' + n as char else 'a' + (n - 10) as char
  }

  /** The value of a hexadecimal digit in either case, or -1. */
  function HexValue(c: char): int {
    if '0' <= c <= '9' then c as int - '0' as int
    else if 'a' <= c <= 'f' then c as int - 'a' as int + 10
    else if 'A' <= c <= 'F' then c as int - 'A' as int + 10
    else -1
  }

  function ToHex(b: bytes): string {
    if b == [] then []
    else
      var x := b[|b| - 1] as int;
      ToHex(b[..|b| - 1]) + [HexDigit(x / 16), HexDigit(x % 16)]
  }

  /** Decodes from the right, skipping what is no digit; `low` is a nibble waiting for its other half. */
  function FromHexRight(s: string, low: int): bytes
    requires -1 <= low < 16
  {
    if s == [] then (if low < 0 then [] else [low as byte])
    else
      var v := HexValue(s[|s| - 1]);
      var rest := s[..|s| - 1];
      if v < 0 then FromHexRight(rest, low)
      else if low < 0 then FromHexRight(rest, v)
      else FromHexRight(rest, -1) + [(v * 16 + low) as byte]
  }

  function FromHex(s: string): bytes {
    FromHexRight(s, -1)
  }

  lemma {:induction false} HexRoundTrip(b: bytes)
    ensures FromHex(ToHex(b)) == b
  {
    if b == [] {
    } else {
      HexRoundTrip(b[..|b| - 1]);
      TwoDigitsBack(ToHex(b[..|b| - 1]), b[|b| - 1]);
    }
  }

  lemma DigitBack(n: int)
    requires 0 <= n < 16
    ensures HexValue(HexDigit(n)) == n
  {
  }

  lemma TwoDigitsBack(s: string, x: byte)
    ensures FromHexRight(s + [HexDigit(x as int / 16), HexDigit(x as int % 16)], -1) == FromHexRight(s, -1) + [x]
  {
    var hi, lo := HexDigit(x as int / 16), HexDigit(x as int % 16);
    DigitBack(x as int / 16);
    DigitBack(x as int % 16);
    assert (s + [hi, lo])[..|s| + 1] == s + [hi];
    assert (s + [hi])[..|s|] == s;
  }

  lemma ToHexInjective(a: bytes, b: bytes)
    ensures ToHex(a) == ToHex(b) <==> a == b
  {
    HexRoundTrip(a);
    HexRoundTrip(b);
  }

  predicate IsLowerHex(c: char) {
    '0' <= c <= '9' || 'a' <= c <= 'f'
  }

  lemma {:induction false} ToHexDigits(b: bytes)
    ensures forall i | 0 <= i < |ToHex(b)| :: IsLowerHex(ToHex(b)[i])
    ensures |ToHex(b)| == 2 * |b|
  {
    if b == [] {
    } else {
      ToHexDigits(b[..|b| - 1]);
    }
  }

  /** Each byte is written high digit first, in lower case. */
  lemma {:induction false} ToHexAt(b: bytes, i: nat)
    requires i < |b|
    ensures |ToHex(b)| == 2 * |b|
    ensures ToHex(b)[2 * i] == "0123456789abcdef"[b[i] as int / 16]
    ensures ToHex(b)[2 * i + 1] == "0123456789abcdef"[b[i] as int % 16]
  {
    ToHexDigits(b);
    ToHexDigits(b[..|b| - 1]);
    if i < |b| - 1 {
      ToHexAt(b[..|b| - 1], i);
    }
  }

  // ---- Decimal -----------------------------------------------------------------------------

  function PrintNat(n: nat): string {
    (if n < 10 then [] else PrintNat(n / 10)) + ['0' + (n % 10) as char]
  }

  function PrintInt(n: int): string {
    if n < 0 then "-" + PrintNat(-n) else PrintNat(n)
  }

  predicate AllDigits(s: string) {
    forall i | 0 <= i < |s| :: IsDigit(s[i])
  }

  function DigitsValue(s: string): nat
    requires AllDigits(s)
  {
    if s == [] then 0
    else DigitsValue(s[..|s| - 1]) * 10 + (s[|s| - 1] as int - '0' as int)
  }

  /** Reads a 32-bit signed decimal, allowing white space around it and a sign. */
  function ToInt(s: string): (r: Option<int>)
    ensures r.Some? ==> -INT_MAX - 1 <= r.value <= INT_MAX
  {
    ToIntTrimmed(Trim(s))
  }

  function ToIntTrimmed(t: string): (r: Option<int>)
    ensures r.Some? ==> -INT_MAX - 1 <= r.value <= INT_MAX
  {
    var signed := t != [] && (t[0] == '-' || t[0] == '+');
    var digits := if signed then t[1..] else t;
    if digits == [] || !AllDigits(digits) then None
    else
      var v: int := if signed && t[0] == '-' then -(DigitsValue(digits) as int) else DigitsValue(digits);
      if -INT_MAX - 1 <= v <= INT_MAX then Some(v) else None
  }

  /** Digits are written most significant first. */
  lemma PrintOneMoreDigit(n: nat, d: nat)
    requires d < 10
    ensures PrintNat(n * 10 + d) == (if n == 0 then "" else PrintNat(n)) + ['0' + d as char]
  {
  }

  lemma {:induction false} PrintNatRoundTrip(n: nat)
    ensures var s := PrintNat(n);
            s != [] && AllDigits(s) && DigitsValue(s) == n
    decreases n
  {
    var m, d := n / 10, n % 10;
    PrintOneMoreDigit(m, d);
    if m == 0 {
      ReadOneMoreDigit([], m, d);
    } else {
      PrintNatRoundTrip(m);
      ReadOneMoreDigit(PrintNat(m), m, d);
    }
  }

  lemma ReadOneMoreDigit(s: string, m: nat, d: nat)
    requires AllDigits(s) && DigitsValue(s) == m && d < 10
    ensures var longer := s + ['0' + d as char];
            longer != [] && AllDigits(longer) && DigitsValue(longer) == m * 10 + d
  {
    OneMoreDigit(s, d);
  }

  lemma OneMoreDigit(s: string, d: nat)
    requires AllDigits(s) && d < 10
    ensures var longer := s + ['0' + d as char];
            AllDigits(longer) && DigitsValue(longer) == DigitsValue(s) * 10 + d
  {
    var longer := s + ['0' + d as char];
    assert longer[..|longer| - 1] == s;
  }

  lemma PrintIntRoundTrip(n: int)
    requires -INT_MAX - 1 <= n <= INT_MAX
    ensures ToInt(PrintInt(n)) == Some(n)
  {
    PrintedIsTrimmed(n);
    PrintedReadsBack(n);
  }

  lemma PrintedReadsBack(n: int)
    requires -INT_MAX - 1 <= n <= INT_MAX
    ensures ToIntTrimmed(PrintInt(n)) == Some(n)
  {
    if n < 0 {
      PrintNatRoundTrip(-n);
      SignedReadsBack(PrintNat(-n), -n);
    } else {
      PrintNatRoundTrip(n);
      UnsignedReadsBack(PrintNat(n), n);
    }
  }

  lemma UnsignedReadsBack(digits: string, n: nat)
    requires digits != "" && AllDigits(digits) && DigitsValue(digits) == n <= INT_MAX
    ensures ToIntTrimmed(digits) == Some(n)
  {
    assert IsDigit(digits[0]);
  }

  lemma SignedReadsBack(digits: string, n: nat)
    requires digits != "" && AllDigits(digits) && DigitsValue(digits) == n <= INT_MAX + 1
    ensures ToIntTrimmed("-" + digits) == Some(-(n as int))
  {
    assert ("-" + digits)[1..] == digits;
  }

  lemma PrintedIsTrimmed(n: int)
    ensures Trim(PrintInt(n)) == PrintInt(n)
  {
    var digits := PrintNat(if n < 0 then -n else n);
    PrintNatRoundTrip(if n < 0 then -n else n);
    assert IsDigit(digits[0]) && IsDigit(digits[|digits| - 1]);
    TrimNothing(PrintInt(n));
  }

  /** A 32-bit decimal with an optional sign. */
  ghost predicate IsDecimal(t: string, sign: string, digits: string, v: int) {
    && t == sign + digits && sign in ["", "+", "-"]
    && digits != "" && AllDigits(digits)
    && v == (if sign == "-" then -(DigitsValue(digits) as int) else DigitsValue(digits))
    && -0x8000_0000 <= v < 0x8000_0000
  }

  /** The texts read as a number: its digits with an optional sign, and white space around. */
  lemma ToIntIff(s: string, v: int)
    ensures ToInt(s) == Some(v)
       <==> exists a, sign, digits, b :: Blank(a) && Blank(b) && IsDecimal(sign + digits, sign, digits, v) && s == a + (sign + digits) + b
  {
    if ToInt(s) == Some(v) {
      var a, b := TrimParts(s);
      var sign, digits := SignAndDigits(Trim(s), v);
      assert IsDecimal(sign + digits, sign, digits, v) && s == a + (sign + digits) + b;
    }
    forall a, sign, digits, b | Blank(a) && Blank(b) && IsDecimal(sign + digits, sign, digits, v) && s == a + (sign + digits) + b
      ensures ToInt(s) == Some(v)
    {
      DecimalIsRead(sign, digits, v);
      TrimRemoves(a, sign + digits, b);
    }
  }

  lemma SignAndDigits(t: string, v: int) returns (sign: string, digits: string)
    requires ToIntTrimmed(t) == Some(v)
    ensures t == sign + digits && IsDecimal(sign + digits, sign, digits, v)
  {
    if t[0] == '-' || t[0] == '+' {
      sign, digits := [t[0]], t[1..];
    } else {
      sign, digits := "", t;
    }
    assert t == sign + digits;
  }

  lemma DecimalIsRead(sign: string, digits: string, v: int)
    requires IsDecimal(sign + digits, sign, digits, v)
    ensures ToIntTrimmed(sign + digits) == Some(v)
    ensures !IsSpace((sign + digits)[0]) && !IsSpace((sign + digits)[|sign + digits| - 1])
  {
    var t := sign + digits;
    assert IsDigit(digits[0]) && IsDigit(digits[|digits| - 1]);
    assert t[|t| - 1] == digits[|digits| - 1];
    assert t[|sign|..] == digits;
    if sign == "" {
      assert t == digits;
    } else {
      assert t[1..] == digits && t[0] == sign[0];
    }
  }

  // ---- Comparison --------------------------------------------------------------------------

  predicate IsLatin1(s: string) {
    forall i | 0 <= i < |s| :: s[i] as int < 256
  }

  /** Text as Latin-1; characters outside it become question marks. */
  function Latin1(s: string): (r: string)
    ensures IsLatin1(r)
  {
    if s == [] then [] else [if s[0] as int < 256 then s[0] else '?'] + Latin1(s[1..])
  }

  lemma {:induction false} Latin1Same(s: string)
    requires IsLatin1(s)
    ensures Latin1(s) == s
  {
    if s == [] {
    } else {
      Latin1Same(s[1..]);
    }
  }

  /** Text that has the Latin-1 form of hexadecimal is that hexadecimal. */
  lemma {:induction false} Latin1Exact(s: string, hex: string)
    requires Latin1(s) == hex && forall i | 0 <= i < |hex| :: IsLowerHex(hex[i])
    ensures s == hex
  {
    if s == [] {
    } else {
      Latin1Exact(s[1..], hex[1..]);
    }
  }

  /** Compares without stopping at the first difference. */
  method ConstTimeEqual(a: string, b: string) returns (equal: bool)
    requires IsLatin1(a) && IsLatin1(b)
    ensures equal <==> a == b
  {
    if |a| != |b| {
      return false;
    }
    var diff: byte := 0;
    for i := 0 to |a|
      invariant diff == 0 <==> a[..i] == b[..i]
    {
      assert a[..i + 1] == a[..i] + [a[i]] && b[..i + 1] == b[..i] + [b[i]];
      var x, y := a[i] as int as byte, b[i] as int as byte;
      DifferenceAccumulates(diff, x, y);
      diff := ByteOr(diff, ByteXor(x, y));
    }
    assert a[..|a|] == a && b[..|b|] == b;
    return diff == 0;
  }

  // ---- The two formats ---------------------------------------------------------------------

  function DerivedKey(c: Crypto, pw: string, saltHex: string, iterations: int): bytes {
    c.pbkdf2(c.utf8(pw), FromHex(saltHex), iterations, KEY_LEN)
  }

  function Hash(c: Crypto, pw: string, saltHex: string, iterations: int): string {
    PREFIX + PrintInt(iterations) + "$" + ToHex(DerivedKey(c, pw, saltHex, iterations))
  }

  function LegacyRounds(c: Crypto, salt: bytes, digest: bytes, n: nat): bytes {
    if n == 0 then digest else c.sha256(salt + LegacyRounds(c, salt, digest, n - 1))
  }

  function LegacyDigest(c: Crypto, pw: string, saltHex: string): bytes {
    var salt := FromHex(saltHex);
    LegacyRounds(c, salt, c.sha256(salt + c.utf8(pw)), LEGACY_ITERATIONS - 1)
  }

  /** The superseded scheme: 100000 digests, the first of salt and password, each other one of the salt
      and the digest before it. */
  ghost predicate IsLegacyChain(c: Crypto, pw: string, saltHex: string, ds: seq<bytes>) {
    && |ds| == 100000
    && ds[0] == c.sha256(FromHex(saltHex) + c.utf8(pw))
    && forall i | 0 < i < |ds| :: ds[i] == c.sha256(FromHex(saltHex) + ds[i - 1])
  }

  lemma {:induction false} RoundsAlong(c: Crypto, salt: bytes, ds: seq<bytes>, k: nat)
    requires k < |ds| && forall i | 0 < i < |ds| :: ds[i] == c.sha256(salt + ds[i - 1])
    ensures LegacyRounds(c, salt, ds[0], k) == ds[k]
  {
    if k == 0 {
    } else {
      RoundsAlong(c, salt, ds, k - 1);
    }
  }

  /** The digest is the end of the chain, and there is a chain. */
  lemma LegacyDigestEndsChain(c: Crypto, pw: string, saltHex: string, ds: seq<bytes>)
    requires IsLegacyChain(c, pw, saltHex, ds)
    ensures LegacyDigest(c, pw, saltHex) == ds[|ds| - 1]
  {
    RoundsAlong(c, FromHex(saltHex), ds, LEGACY_ITERATIONS - 1);
  }

  lemma LegacyChainExists(c: Crypto, pw: string, saltHex: string) returns (ds: seq<bytes>)
    ensures IsLegacyChain(c, pw, saltHex, ds)
  {
    var salt := FromHex(saltHex);
    var first := c.sha256(salt + c.utf8(pw));
    ds := seq(100000, i requires 0 <= i => LegacyRounds(c, salt, first, i));
    forall i | 0 < i < |ds|
      ensures ds[i] == c.sha256(salt + ds[i - 1])
    {
      RoundsStep(c, salt, first, i);
    }
  }

  lemma RoundsStep(c: Crypto, salt: bytes, digest: bytes, n: nat)
    requires n > 0
    ensures LegacyRounds(c, salt, digest, n) == c.sha256(salt + LegacyRounds(c, salt, digest, n - 1))
  {
  }

  method LegacyHashHex(c: Crypto, pw: string, saltHex: string) returns (hex: string)
    ensures hex == ToHex(LegacyDigest(c, pw, saltHex))
    ensures forall ds | IsLegacyChain(c, pw, saltHex, ds) :: hex == ToHex(ds[|ds| - 1])
  {
    var salt := FromHex(saltHex);
    var digest := c.sha256(salt + c.utf8(pw));
    for i := 1 to LEGACY_ITERATIONS
      invariant digest == LegacyRounds(c, salt, c.sha256(salt + c.utf8(pw)), i - 1)
    {
      digest := c.sha256(salt + digest);
    }
    hex := ToHex(digest);
    forall ds | IsLegacyChain(c, pw, saltHex, ds)
      ensures hex == ToHex(ds[|ds| - 1])
    {
      LegacyDigestEndsChain(c, pw, saltHex, ds);
    }
  }

  predicate NeedsUpgrade(stored: string) {
    !StartsWith(stored, PREFIX)
  }

  /** Does the stored hash accept this password? */
  predicate Verifies(c: Crypto, pw: string, saltHex: string, stored: string) {
    if saltHex == [] || stored == [] then false
    else if StartsWith(stored, PREFIX) then
      var parts := Split(stored, '$');
      if |parts| != 3 then false
      else
        var iterations := ToInt(parts[1]);
        && iterations.Some?
        && iterations.value > 0
        && ToHex(DerivedKey(c, pw, saltHex, iterations.value)) == Latin1(parts[2])
    else ToHex(LegacyDigest(c, pw, saltHex)) == Latin1(stored)
  }

  method Verify(c: Crypto, pw: string, saltHex: string, stored: string) returns (ok: bool)
    ensures ok <==> Verifies(c, pw, saltHex, stored)
  {
    if saltHex == [] || stored == [] {
      return false;
    }
    if StartsWith(stored, PREFIX) {
      var parts := Split(stored, '$');
      if |parts| != 3 {
        return false;
      }
      var iterations := ToInt(parts[1]);
      if iterations.None? || iterations.value <= 0 {
        return false;
      }
      var derived := DerivedKey(c, pw, saltHex, iterations.value);
      ToHexDigits(derived);
      ok := ConstTimeEqual(ToHex(derived), Latin1(parts[2]));
    } else {
      var legacy := LegacyHashHex(c, pw, saltHex);
      ToHexDigits(LegacyDigest(c, pw, saltHex));
      ok := ConstTimeEqual(legacy, Latin1(stored));
    }
  }

  // ---- What the check decides --------------------------------------------------------------

  lemma SplitThree(a: string, b: string, c: string, sep: char)
    requires sep !in a && sep !in b && sep !in c
    ensures Split(a + [sep] + b + [sep] + c, sep) == [a, b, c]
  {
    SplitNoSeparator(a, sep);
    SplitNoSeparator(b, sep);
    SplitNoSeparator(c, sep);
    SplitAtSeparator(a, b, sep);
    SplitAtSeparator(a + [sep] + b, c, sep);
  }

  lemma NotPrefix(s: string, prefix: string)
    requires prefix != [] && s != [] && s[0] != prefix[0]
    ensures !StartsWith(s, prefix)
  {
    if |prefix| <= |s| {
      assert s[..|prefix|][0] == s[0];
    }
  }

  /** A new hash splits back into its three fields. */
  lemma HashFields(c: Crypto, pw: string, saltHex: string, n: nat)
    ensures var hex := ToHex(c.pbkdf2(c.utf8(pw), FromHex(saltHex), n, 32));
            var stored := Hash(c, pw, saltHex, n);
            && stored == "pbkdf2_sha256" + "$" + PrintInt(n) + "$" + hex
            && StartsWith(stored, PREFIX)
            && Split(stored, '$') == ["pbkdf2_sha256", PrintInt(n), hex]
  {
    var key := DerivedKey(c, pw, saltHex, n);
    PrintNatRoundTrip(n);
    ToHexDigits(key);
    NoDollar(PrintInt(n), ToHex(key));
    ThreeFields(SCHEME, PrintInt(n), ToHex(key));
  }

  lemma NoDollar(number: string, hex: string)
    requires AllDigits(number) && forall i | 0 <= i < |hex| :: IsLowerHex(hex[i])
    ensures '$' !in SCHEME && '$' !in number && '$' !in hex
  {
  }

  lemma ThreeFields(scheme: string, number: string, hex: string)
    requires '$' !in scheme && '$' !in number && '$' !in hex
    ensures var stored := scheme + "$" + number + "$" + hex;
            StartsWith(stored, scheme + "$") && Split(stored, '$') == [scheme, number, hex]
  {
    SplitThree(scheme, number, hex, '$');
    var tail := number + "$" + hex;
    assert scheme + "$" + number + "$" + hex == (scheme + "$") + tail;
    assert ((scheme + "$") + tail)[..|scheme + "$"|] == scheme + "$";
  }

  /** A hash made from one password accepts another exactly when their derived keys agree. */
  lemma VerifiesOwnFormat(c: Crypto, p1: string, p2: string, saltHex: string, n: nat)
    requires saltHex != [] && 0 < n <= INT_MAX
    ensures Verifies(c, p2, saltHex, Hash(c, p1, saltHex, n))
       <==> c.pbkdf2(c.utf8(p1), FromHex(saltHex), n, 32) == c.pbkdf2(c.utf8(p2), FromHex(saltHex), n, 32)
    ensures !NeedsUpgrade(Hash(c, p1, saltHex, n))
  {
    var k1, k2 := DerivedKey(c, p1, saltHex, n), DerivedKey(c, p2, saltHex, n);
    HashFields(c, p1, saltHex, n);
    PrintIntRoundTrip(n);
    ToHexDigits(k1);
    Latin1Same(ToHex(k1));
    ToHexInjective(k1, k2);
  }

  /** `stored` is the scheme, this count, and the key derived from the password with it. */
  ghost predicate IsHashOf(c: Crypto, pw: string, saltHex: string, stored: string, count: string) {
    && '$' !in count && ToInt(count).Some? && ToInt(count).value > 0
    && stored == "pbkdf2_sha256$" + count + "$" + ToHex(c.pbkdf2(c.utf8(pw), FromHex(saltHex), ToInt(count).value, 32))
  }

  /** Of all texts in the new format, malformed ones included, exactly those accept the password that
      hold its derived key after some positive count. */
  lemma NewFormatAcceptsIff(c: Crypto, pw: string, saltHex: string, stored: string)
    requires StartsWith(stored, PREFIX)
    ensures Verifies(c, pw, saltHex, stored)
       <==> saltHex != "" && exists count :: IsHashOf(c, pw, saltHex, stored, count)
  {
    if Verifies(c, pw, saltHex, stored) {
      AcceptedIsHashOf(c, pw, saltHex, stored);
    } else if saltHex != "" && exists count :: IsHashOf(c, pw, saltHex, stored, count) {
      var count :| IsHashOf(c, pw, saltHex, stored, count);
      HashOfIsAccepted(c, pw, saltHex, stored, count);
    }
  }

  lemma AcceptedIsHashOf(c: Crypto, pw: string, saltHex: string, stored: string)
    requires StartsWith(stored, PREFIX) && Verifies(c, pw, saltHex, stored)
    ensures IsHashOf(c, pw, saltHex, stored, Split(stored, '$')[1])
  {
    var parts := Split(stored, '$');
    FieldsOf(stored);
    var key := DerivedKey(c, pw, saltHex, ToInt(parts[1]).value);
    ToHexDigits(key);
    Latin1Exact(parts[2], ToHex(key));
  }

  lemma HashOfIsAccepted(c: Crypto, pw: string, saltHex: string, stored: string, count: string)
    requires saltHex != "" && IsHashOf(c, pw, saltHex, stored, count)
    ensures Verifies(c, pw, saltHex, stored)
  {
    var key := DerivedKey(c, pw, saltHex, ToInt(count).value);
    ToHexDigits(key);
    Latin1Same(ToHex(key));
    ThreeFields(SCHEME, count, ToHex(key));
    assert PREFIX == "pbkdf2_sha256$";
  }

  /** A text in the new format that splits into three: the fields, put together, are the text. */
  lemma FieldsOf(stored: string)
    requires StartsWith(stored, PREFIX) && |Split(stored, '$')| == 3
    ensures var parts := Split(stored, '$');
            stored == "pbkdf2_sha256$" + parts[1] + "$" + parts[2] && '$' !in parts[1]
  {
    var parts := Split(stored, '$');
    JoinSplit(stored, '$');
    JoinThree(parts);
    var rest := parts[1] + "$" + parts[2];
    assert stored == parts[0] + "$" + rest;
    assert stored == SCHEME + "$" + stored[|PREFIX|..];
    SameBefore(parts[0], rest, SCHEME, stored[|PREFIX|..], '$');
    assert parts[0] + "$" + rest == PREFIX + parts[1] + "$" + parts[2];
  }

  lemma JoinThree(parts: seq<string>)
    requires |parts| == 3
    ensures Join(parts, '$') == parts[0] + "$" + (parts[1] + "$" + parts[2])
  {
    assert parts[1..][1..] == [parts[2]];
    assert Join(parts[1..], '$') == parts[1] + "$" + parts[2];
  }

  /** The text before the first separator is determined. */
  lemma SameBefore(a: string, x: string, b: string, y: string, sep: char)
    requires sep !in a && sep !in b && a + [sep] + x == b + [sep] + y
    ensures a == b
  {
    var s := a + [sep] + x;
    assert s[|a|] == sep && s[|b|] == sep;
    assert forall i | 0 <= i < |a| :: s[i] == a[i];
    assert forall i | 0 <= i < |b| :: s[i] == b[i];
    assert s[..|a|] == a && s[..|b|] == b;
  }

  /** Any other text accepts the password exactly when it is the hexadecimal end of its digest chain. */
  lemma LegacyAcceptsIff(c: Crypto, pw: string, saltHex: string, stored: string, ds: seq<bytes>)
    requires !StartsWith(stored, PREFIX) && IsLegacyChain(c, pw, saltHex, ds)
    ensures Verifies(c, pw, saltHex, stored) <==> saltHex != "" && stored != "" && stored == ToHex(ds[|ds| - 1])
  {
    var hex := ToHex(LegacyDigest(c, pw, saltHex));
    LegacyDigestEndsChain(c, pw, saltHex, ds);
    ToHexDigits(LegacyDigest(c, pw, saltHex));
    Latin1Same(hex);
    if Latin1(stored) == hex {
      Latin1Exact(stored, hex);
    }
  }

  /** A legacy hash accepts a password exactly when the digest chains end alike, and it is never taken
      for the new format. */
  lemma VerifiesLegacyFormat(c: Crypto, p1: string, p2: string, saltHex: string, ds1: seq<bytes>, ds2: seq<bytes>)
    requires c.Valid() && saltHex != []
    requires IsLegacyChain(c, p1, saltHex, ds1) && IsLegacyChain(c, p2, saltHex, ds2)
    ensures var stored := ToHex(ds1[|ds1| - 1]);
            NeedsUpgrade(stored) && (Verifies(c, p2, saltHex, stored) <==> ds1[|ds1| - 1] == ds2[|ds2| - 1])
  {
    var d1, d2 := ds1[|ds1| - 1], ds2[|ds2| - 1];
    assert d1 == c.sha256(FromHex(saltHex) + ds1[|ds1| - 2]);
    ToHexDigits(d1);
    NotPrefix(ToHex(d1), PREFIX);
    LegacyAcceptsIff(c, p2, saltHex, ToHex(d1), ds2);
    ToHexInjective(d1, d2);
  }
}
