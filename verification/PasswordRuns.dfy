/** The stored password over whole runs of setup, login and command-line resets. */
module PasswordRuns {
  import opened PasswordHash
  import opened Text
  import opened Wrappers

  datatype Credentials = Credentials(passhash: string, salt: string)

  /** `raw` is the fresh salt the handler would draw; `allowed` is what the login gate said. */
  datatype AuthEvent =
    | Setup(pw: string, raw: bytes)
    | Login(allowed: bool, pw: string, raw: bytes)
    | SetPassword(pw: string, raw: bytes)

  const MIN_LENGTH := 8

  function Fresh(c: Crypto, pw: string, raw: bytes): Credentials {
    Credentials(Hash(c, pw, ToHex(raw), DEFAULT_ITERATIONS), ToHex(raw))
  }

  predicate SetupSucceeds(s: Credentials, e: AuthEvent) {
    e.Setup? && s.passhash == "" && |e.pw| >= MIN_LENGTH
  }

  predicate LoginSucceeds(c: Crypto, s: Credentials, e: AuthEvent) {
    e.Login? && e.allowed && s.passhash != "" && Verifies(c, e.pw, s.salt, s.passhash)
  }

  predicate Migrates(c: Crypto, s: Credentials, e: AuthEvent) {
    LoginSucceeds(c, s, e) && NeedsUpgrade(s.passhash)
  }

  /** Does the event write a new salt and hash? */
  predicate Stores(c: Crypto, s: Credentials, e: AuthEvent) {
    || SetupSucceeds(s, e)
    || Migrates(c, s, e)
    || (e.SetPassword? && |e.pw| >= MIN_LENGTH)
  }

  function After(c: Crypto, s: Credentials, e: AuthEvent): Credentials {
    if Stores(c, s, e) then Fresh(c, e.pw, e.raw) else s
  }

  function Run(c: Crypto, s: Credentials, es: seq<AuthEvent>): Credentials {
    if es == [] then s else After(c, Run(c, s, es[..|es| - 1]), es[|es| - 1])
  }

  function Setups(c: Crypto, s: Credentials, es: seq<AuthEvent>): nat {
    if es == [] then 0
    else Setups(c, s, es[..|es| - 1])
         + if SetupSucceeds(Run(c, s, es[..|es| - 1]), es[|es| - 1]) then 1 else 0
  }

  function Migrations(c: Crypto, s: Credentials, es: seq<AuthEvent>): nat {
    if es == [] then 0
    else Migrations(c, s, es[..|es| - 1])
         + if Migrates(c, Run(c, s, es[..|es| - 1]), es[|es| - 1]) then 1 else 0
  }

  /** Every salt the handlers draw is 16 bytes long. */
  ghost predicate Salted(es: seq<AuthEvent>) {
    forall i | 0 <= i < |es| :: |es[i].raw| == 16
  }

  predicate HoldsLegacy(s: Credentials) {
    s.passhash != "" && NeedsUpgrade(s.passhash)
  }

  /** What setup, migration and the command line store: the scheme, 210000 rounds and the key under the
      fresh salt. */
  lemma FreshIsNewFormat(c: Crypto, pw: string, raw: bytes)
    ensures Fresh(c, pw, raw).salt == ToHex(raw)
    ensures Fresh(c, pw, raw).passhash
         == "pbkdf2_sha256" + "$" + PrintInt(210000) + "$" + ToHex(c.pbkdf2(c.utf8(pw), raw, 210000, 32))
    ensures Fresh(c, pw, raw).passhash != "" && !NeedsUpgrade(Fresh(c, pw, raw).passhash)
  {
    HashFields(c, pw, ToHex(raw), DEFAULT_ITERATIONS);
    HexRoundTrip(raw);
  }

  /** Over any run: a stored hash never becomes empty again, setup succeeds at most once and only
      from an unconfigured start, and a legacy hash is migrated at most once and never comes back. */
  lemma {:induction false} SetupAndMigrationHappenOnce(c: Crypto, s: Credentials, es: seq<AuthEvent>)
    ensures var end := Run(c, s, es);
            && (s.passhash != "" ==> end.passhash != "")
            && (!HoldsLegacy(s) ==> !HoldsLegacy(end))
            && Setups(c, s, es) <= (if s.passhash == "" && end.passhash != "" then 1 else 0)
            && Migrations(c, s, es) <= (if HoldsLegacy(s) && !HoldsLegacy(end) then 1 else 0)
  {
    if es == [] {
    } else {
      SetupAndMigrationHappenOnce(c, s, es[..|es| - 1]);
      FreshIsNewFormat(c, es[|es| - 1].pw, es[|es| - 1].raw);
    }
  }

  /** The last event of a run that wrote the store, if any did. */
  function LastStored(c: Crypto, s: Credentials, es: seq<AuthEvent>): Option<AuthEvent> {
    if es == [] then None
    else if Stores(c, Run(c, s, es[..|es| - 1]), es[|es| - 1]) then Some(es[|es| - 1])
    else LastStored(c, s, es[..|es| - 1])
  }

  /** An event that leaves these credentials alone: setup once a hash is stored, any short new password,
      and a login that is refused, fails, or finds the new format. */
  predicate Keeps(c: Crypto, s: Credentials, e: AuthEvent) {
    match e
    case Setup(pw, _) => s.passhash != "" || |pw| < 8
    case Login(allowed, pw, _) =>
      !allowed || StartsWith(s.passhash, "pbkdf2_sha256$") || !Verifies(c, pw, s.salt, s.passhash)
    case SetPassword(pw, _) => |pw| < 8
  }

  /** A run writes the store exactly when some event of it does not keep the starting credentials. So the
      first accepted login on a legacy hash migrates it, and one on the new format writes nothing. */
  lemma {:induction false} WrittenIff(c: Crypto, s: Credentials, es: seq<AuthEvent>)
    ensures LastStored(c, s, es) == None <==> forall i | 0 <= i < |es| :: Keeps(c, s, es[i])
    ensures LastStored(c, s, es) == None ==> Run(c, s, es) == s
  {
    if es == [] {
    } else {
      WrittenIff(c, s, es[..|es| - 1]);
      if LastStored(c, s, es[..|es| - 1]) == None {
        KeepsUnlessStored(c, s, es[|es| - 1]);
      }
    }
  }

  lemma KeepsUnlessStored(c: Crypto, s: Credentials, e: AuthEvent)
    ensures Keeps(c, s, e) <==> !Stores(c, s, e)
  {
    assert PREFIX == "pbkdf2_sha256$";
  }

  /** Which passwords the store accepts after a run: those whose derived key under the stored salt
      is that of the password last set up, migrated or reset; with no such event, those it accepted
      at the start. So the password that triggered a migration still works after it. */
  lemma {:induction false} AcceptedAfterRun(c: Crypto, s: Credentials, es: seq<AuthEvent>, p: string)
    requires Salted(es)
    ensures var end := Run(c, s, es);
            match LastStored(c, s, es)
            case None => end == s
            case Some(e) =>
              && end.salt == ToHex(e.raw)
              && (Verifies(c, p, end.salt, end.passhash)
                  <==> c.pbkdf2(c.utf8(p), e.raw, 210000, 32) == c.pbkdf2(c.utf8(e.pw), e.raw, 210000, 32))
  {
    if es == [] {
    } else {
      var before, e := es[..|es| - 1], es[|es| - 1];
      AcceptedAfterRun(c, s, before, p);
      if Stores(c, Run(c, s, before), e) {
        HexRoundTrip(e.raw);
        ToHexDigits(e.raw);
        VerifiesOwnFormat(c, e.pw, p, ToHex(e.raw), DEFAULT_ITERATIONS);
      }
    }
  }
}
