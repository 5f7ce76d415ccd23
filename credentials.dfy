/**
 * The credential store: `load_credentials` (seed a default account when the
 * store is absent, then parse `user:digest` lines) and `verify_credentials`.
 * The store is a sequence of lines; SHA-256 with hex encoding is the
 * function-valued parameter `hash`, about which nothing is assumed except
 * where a lemma says so.
 */
module Credentials {
  import opened Wrappers
  import opened Text

  const DefaultUser: string := "aiba"
  const DefaultPassword: string := "123"

  /** What a SHA-256 `hexdigest()` looks like: 64 lower-case hexadecimal digits. */
  predicate IsHexDigest(d: string) {
    |d| == 64 && forall k :: 0 <= k < |d| ==> d[k] in "0123456789abcdef"
  }

  /** The `ValueError` that the two-way unpacking of `line.split(":")` raises. */
  datatype LoadError = Malformed(line: string, fields: nat)

  /** What one line of the store contributes. */
  datatype LineKind = Blank | Entry(user: string, digest: string) | Bad(line: string, fields: nat)

  /** The one line written when the store does not exist. */
  function SeedLine(hash: string -> string): string {
    DefaultUser + ":" + hash(DefaultPassword) + "\n"
  }

  /** The store's lines after `load_credentials` has seeded it if it was absent. */
  function Seeded(store: Option<seq<string>>, hash: string -> string): seq<string> {
    match store
    case None => [SeedLine(hash)]
    case Some(lines) => lines
  }

  /**
   * One line, as the loop body treats it: blank after stripping, a `user:digest`
   * pair when the stripped line has exactly one colon, and an unpacking error
   * otherwise.
   */
  function Classify(raw: string): LineKind
  {
    var line := Strip(raw);
    if line == "" then Blank
    else
      var parts := Split(line, ':');
      if |parts| == 2 then Entry(parts[0], parts[1]) else Bad(line, |parts|)
  }

  /**
   * A line is blank exactly when it is all white space, an entry exactly when
   * its stripped text has one colon (and then it is user, colon, digest), and
   * malformed otherwise, with the field count the split produced.
   */
  lemma ClassifySpec(raw: string)
    ensures Classify(raw).Blank? <==> AllSpace(raw)
    ensures Classify(raw).Entry? <==> !AllSpace(raw) && Count(Strip(raw), ':') == 1
    ensures Classify(raw).Entry? ==>
              var k := Classify(raw);
              Strip(raw) == k.user + ":" + k.digest && ':' !in k.user && ':' !in k.digest
    ensures Classify(raw).Bad? ==>
              var k := Classify(raw);
              k.line == Strip(raw) && k.fields == Count(Strip(raw), ':') + 1 && k.fields != 2
  {
    var line := Strip(raw);
    StripEmpty(raw);
    if line != "" {
      var parts := Split(line, ':');
      if |parts| == 2 {
        JoinSplit(line, ':');
        assert Join(parts, ':') == parts[0] + [':'] + parts[1];
      }
    }
  }

  /** Conversely, a line whose stripped text is `u:d` with no other colon is the entry for `u` with digest `d`. */
  lemma ClassifyEntry(raw: string, u: string, d: string)
    requires Strip(raw) == u + ":" + d && ':' !in u && ':' !in d
    ensures Classify(raw) == Entry(u, d)
  {
    SplitOnce(u, d, ':');
  }

  /** The specification of the parsing loop: lines are taken in order, later entries overwrite earlier ones. */
  function Parsed(lines: seq<string>): Result<map<string, string>, LoadError>
    decreases |lines|
  {
    if lines == [] then Ok(map[])
    else
      match Parsed(lines[..|lines| - 1])
      case Err(e) => Err(e)
      case Ok(m) =>
        match Classify(lines[|lines| - 1])
        case Blank => Ok(m)
        case Entry(u, d) => Ok(m[u := d])
        case Bad(line, n) => Err(Malformed(line, n))
  }

  /**
   * `load_credentials`: returns the store as it is after the call (seeded when
   * it was absent) and the credential map parsed from it, or the error the
   * first malformed line raises.
   */
  method LoadCredentials(store: Option<seq<string>>, hash: string -> string)
    returns (file: seq<string>, creds: Result<map<string, string>, LoadError>)
    ensures store.Some? ==> file == store.value
    ensures store.None? ==> file == [SeedLine(hash)]
    ensures creds == Parsed(file)
  {
    if store.None? {
      file := [SeedLine(hash)];
    } else {
      file := store.value;
    }
    var m: map<string, string> := map[];
    var i := 0;
    while i < |file|
      invariant 0 <= i <= |file|
      invariant Parsed(file[..i]) == Ok(m)
    {
      assert file[..i + 1][..i] == file[..i];
      match Classify(file[i]) {
        case Blank =>
        case Entry(u, d) =>
          m := m[u := d];
        case Bad(line, n) =>
          assert Parsed(file[..i + 1]) == Err(Malformed(line, n));
          ParsedStopsAtError(file, i + 1);
          return file, Err(Malformed(line, n));
      }
      i := i + 1;
    }
    assert file[..i] == file;
    creds := Ok(m);
  }

  /** `verify_credentials`: false for an unknown user, otherwise the digest comparison. */
  function VerifyCredentials(username: string, password: string, credentials: map<string, string>,
                             hash: string -> string): (ok: bool)
    ensures username !in credentials ==> !ok
    ensures ok <==> username in credentials && hash(password) == credentials[username]
  {
    if username !in credentials then false
    else hash(password) == credentials[username]
  }

  /** Once a prefix of the store fails to parse, the whole store fails with the same error. */
  lemma {:induction false} ParsedStopsAtError(lines: seq<string>, i: nat)
    requires i <= |lines| && Parsed(lines[..i]).Err?
    ensures Parsed(lines) == Parsed(lines[..i])
    decreases |lines| - i
  {
    if i < |lines| {
      assert lines[..i + 1][..i] == lines[..i];
      ParsedStopsAtError(lines, i + 1);
    } else {
      assert lines[..i] == lines;
    }
  }

  /** The store parses exactly when none of its lines is malformed. */
  lemma {:induction false} ParsedOkIff(lines: seq<string>)
    ensures Parsed(lines).Ok? <==> forall i :: 0 <= i < |lines| ==> !Classify(lines[i]).Bad?
    decreases |lines|
  {
    if lines != [] {
      var init := lines[..|lines| - 1];
      var last := lines[|lines| - 1];
      ParsedOkIff(init);
      assert forall i :: 0 <= i < |init| ==> init[i] == lines[i];
      assert Parsed(lines).Ok? <==> Parsed(init).Ok? && !Classify(last).Bad?;
    }
  }

  /** A malformed store reports its first malformed line, with the number of fields it split into. */
  lemma {:induction false} ParsedFirstBad(lines: seq<string>, i: nat)
    requires i < |lines| && Classify(lines[i]).Bad?
    requires forall j :: 0 <= j < i ==> !Classify(lines[j]).Bad?
    ensures Parsed(lines) == Err(Malformed(Strip(lines[i]), Count(Strip(lines[i]), ':') + 1))
    decreases |lines|
  {
    var init := lines[..|lines| - 1];
    assert forall j :: 0 <= j < |init| ==> init[j] == lines[j];
    ClassifySpec(lines[i]);
    if i == |lines| - 1 {
      ParsedOkIff(init);
    } else {
      ParsedFirstBad(init, i);
    }
  }

  /** True when line `i` is an entry for `u` and no later line is. */
  predicate LastEntryFor(lines: seq<string>, i: nat, u: string) {
    i < |lines| && Classify(lines[i]).Entry? && Classify(lines[i]).user == u
    && forall j :: i < j < |lines| ==> !(Classify(lines[j]).Entry? && Classify(lines[j]).user == u)
  }

  /** The digest stored for a user is the one on the last line for that user. */
  lemma {:induction false} ParsedLastEntryWins(lines: seq<string>, i: nat, u: string)
    requires Parsed(lines).Ok? && LastEntryFor(lines, i, u)
    ensures u in Parsed(lines).value && Parsed(lines).value[u] == Classify(lines[i]).digest
    decreases |lines|
  {
    var init := lines[..|lines| - 1];
    if i < |lines| - 1 {
      assert forall j :: 0 <= j < |init| ==> init[j] == lines[j];
      ParsedLastEntryWins(init, i, u);
    }
  }

  /** The users of the parsed map are exactly the users named on some entry line. */
  lemma {:induction false} ParsedUsers(lines: seq<string>, u: string)
    requires Parsed(lines).Ok?
    ensures u in Parsed(lines).value <==>
            exists i :: 0 <= i < |lines| && Classify(lines[i]).Entry? && Classify(lines[i]).user == u
    decreases |lines|
  {
    if lines != [] {
      var init := lines[..|lines| - 1];
      ParsedUsers(init, u);
      assert forall j :: 0 <= j < |init| ==> init[j] == lines[j];
      var k := Classify(lines[|lines| - 1]);
      if k.Entry? && k.user == u {
        assert Classify(lines[|lines| - 1]).Entry?;
      }
    }
  }

  /** No user name of a parsed store contains a colon. */
  lemma {:induction false} ParsedUsersHaveNoColon(lines: seq<string>)
    requires Parsed(lines).Ok?
    ensures forall u :: u in Parsed(lines).value ==> ':' !in u
    decreases |lines|
  {
    if lines != [] {
      ParsedUsersHaveNoColon(lines[..|lines| - 1]);
      ClassifySpec(lines[|lines| - 1]);
    }
  }

  /** A line that is blank after stripping can be dropped from the store without changing the outcome. */
  lemma {:induction false} BlankLineSkipped(a: seq<string>, b: string, c: seq<string>)
    requires AllSpace(b)
    ensures Parsed(a + [b] + c) == Parsed(a + c)
    decreases |c|
  {
    StripEmpty(b);
    if c == [] {
      assert (a + [b] + c)[..|a|] == a;
      assert a + c == a;
    } else {
      var c' := c[..|c| - 1];
      assert (a + [b] + c)[..|a + [b] + c| - 1] == a + [b] + c';
      assert (a + c)[..|a + c| - 1] == a + c';
      BlankLineSkipped(a, b, c');
    }
  }

  /** Seeding and parsing round-trip: the seeded store parses to the single default account. */
  lemma SeedRoundTrip(hash: string -> string)
    requires IsHexDigest(hash(DefaultPassword))
    ensures Parsed(Seeded(None, hash)) == Ok(map[DefaultUser := hash(DefaultPassword)])
  {
    var h := hash(DefaultPassword);
    var core := DefaultUser + ":" + h;
    assert SeedLine(hash) == "" + core + "\n";
    assert core[|core| - 1] == h[63];
    StripAround("", core, "\n");
    assert ':' !in h by {
      forall k | 0 <= k < |h| ensures h[k] != ':' {
        assert h[k] in "0123456789abcdef";
      }
    }
    ClassifyEntry(SeedLine(hash), DefaultUser, h);
    assert [SeedLine(hash)][..0] == [];
  }

  /** After seeding, the default account logs in with its default password, and no other user does. */
  lemma DefaultLogin(hash: string -> string, username: string, password: string)
    requires IsHexDigest(hash(DefaultPassword))
    ensures Parsed(Seeded(None, hash)).Ok?
    ensures VerifyCredentials(DefaultUser, DefaultPassword, Parsed(Seeded(None, hash)).value, hash)
    ensures username != DefaultUser ==> !VerifyCredentials(username, password, Parsed(Seeded(None, hash)).value, hash)
  {
    SeedRoundTrip(hash);
  }

  /** A user whose last store line records `hash(password)` is accepted with that password. */
  lemma StoredPasswordVerifies(lines: seq<string>, i: nat, u: string, password: string, hash: string -> string)
    requires Parsed(lines).Ok? && LastEntryFor(lines, i, u)
    requires Classify(lines[i]).digest == hash(password)
    ensures VerifyCredentials(u, password, Parsed(lines).value, hash)
  {
    ParsedLastEntryWins(lines, i, u);
  }
}
