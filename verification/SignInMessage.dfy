/** The sign-in message printer and parser of apps/api/src/auth/message.ts. */
module SignInMessage {
  import opened Prelude
  import opened Text

  datatype Fields = Fields(domain: string, pubkey: string, nonce: string, issuedAt: string, expirationTime: string)

  // Long literals are joined from short ones, in which the verifier can look up
  // every character.
  const STATEMENT :=
    "Sign in to authenticate " +
    "with the TIP API. " +
    "This request will not trigger " +
    "a blockchain transaction " +
    "or cost any fees."
  const DOMAIN_SUFFIX :=
    " wants you to sign in" +
    " with your Solana account:"
  const NONCE_PREFIX := "Nonce: "
  const ISSUED_AT_PREFIX := "Issued At: "
  const EXPIRATION_PREFIX := "Expiration Time: "

  // ---------------------------------------------------------------------
  // Lines
  // ---------------------------------------------------------------------

  function Join(lines: seq<string>): string
    requires lines != []
  {
    if |lines| == 1 then lines[0] else lines[0] + "\n" + Join(lines[1..])
  }

  /** The first line and, if there is a newline, what follows it. */
  function Split(s: string): (lines: seq<string>)
    ensures lines != []
    ensures forall i :: 0 <= i < |lines| ==> '\n' !in lines[i]
  {
    if s == "" then [""]
    else
      var rest := Split(s[1..]);
      if s[0] == '\n' then [""] + rest else [[s[0]] + rest[0]] + rest[1..]
  }

  lemma {:induction false} SplitLine(line: string)
    requires '\n' !in line
    ensures Split(line) == [line]
  {
    if line != "" {
      SplitLine(line[1..]);
      assert [line[0]] + line[1..] == line;
    }
  }

  lemma {:induction false} SplitFirst(line: string, tail: string)
    requires '\n' !in line
    ensures Split(line + "\n" + tail) == [line] + Split(tail)
  {
    var s := line + "\n" + tail;
    if line == "" {
      assert s == "\n" + tail && s[1..] == tail;
    } else {
      assert s[1..] == line[1..] + "\n" + tail;
      SplitFirst(line[1..], tail);
      assert [line[0]] + line[1..] == line;
    }
  }

  lemma {:induction false} SplitJoin(lines: seq<string>)
    requires lines != [] && forall i :: 0 <= i < |lines| ==> '\n' !in lines[i]
    ensures Split(Join(lines)) == lines
  {
    if |lines| == 1 {
      SplitLine(lines[0]);
    } else {
      SplitFirst(lines[0], Join(lines[1..]));
      SplitJoin(lines[1..]);
    }
  }

  lemma JoinEmptyLine(rest: seq<string>)
    requires rest != []
    ensures Join([""] + rest) == "\n" + Join(rest)
  {
    assert ([""] + rest)[1..] == rest;
    assert Join([""] + rest) == "" + "\n" + Join(rest);
  }

  lemma JoinLonger(c: char, rest: seq<string>)
    requires rest != []
    ensures Join([[c] + rest[0]] + rest[1..]) == [c] + Join(rest)
  {
    var lines := [[c] + rest[0]] + rest[1..];
    if |rest| == 1 {
      assert lines == [[c] + rest[0]];
    } else {
      assert lines[1..] == rest[1..];
      assert Join(lines) == [c] + rest[0] + "\n" + Join(rest[1..]);
    }
  }

  /** No message loses a character when it is cut into lines. */
  lemma {:induction false} JoinSplit(s: string)
    ensures Join(Split(s)) == s
  {
    if s != "" {
      JoinSplit(s[1..]);
      if s[0] == '\n' {
        JoinEmptyLine(Split(s[1..]));
      } else {
        JoinLonger(s[0], Split(s[1..]));
      }
    }
  }

  // ---------------------------------------------------------------------
  // Printing and parsing
  // ---------------------------------------------------------------------

  function DomainLine(f: Fields): string { f.domain + DOMAIN_SUFFIX }

  function Lines(f: Fields): (lines: seq<string>)
    ensures |lines| == 8
  {
    [DomainLine(f), f.pubkey, "", STATEMENT, "",
     NONCE_PREFIX + f.nonce, ISSUED_AT_PREFIX + f.issuedAt, EXPIRATION_PREFIX + f.expirationTime]
  }

  function Build(f: Fields): string { Join(Lines(f)) }

  predicate OneLine(s: string) { forall i :: 0 <= i < |s| ==> !IsLineTerminator(s[i]) }

  /** The group of `^(.*) wants you to sign in with your Solana account:$`. */
  function MatchDomain(line: string): Option<string> {
    var n := |line| - |DOMAIN_SUFFIX|;
    if 0 <= n && line[n..] == DOMAIN_SUFFIX && OneLine(line[..n]) then Some(line[..n]) else None
  }

  /** The first line with the prefix, without it. */
  function Find(lines: seq<string>, prefix: string): Option<string> {
    if lines == [] then None
    else if prefix <= lines[0] then Some(lines[0][|prefix|..])
    else Find(lines[1..], prefix)
  }

  function Parse(message: string): Option<Fields> {
    var lines := Split(message);
    var domain := MatchDomain(lines[0]);
    var nonce := Find(lines, NONCE_PREFIX);
    var issuedAt := Find(lines, ISSUED_AT_PREFIX);
    var expirationTime := Find(lines, EXPIRATION_PREFIX);
    if domain.None? || |lines| < 2 || lines[1] == "" || nonce.None? || issuedAt.None? || expirationTime.None? then None
    else if domain.value == "" then None
    else Some(Fields(domain.value, lines[1], nonce.value, issuedAt.value, expirationTime.value))
  }

  // ---------------------------------------------------------------------
  // The round trip, exactly
  // ---------------------------------------------------------------------

  /** The first line of the message with this prefix carries this value: the
      domain line and the public key line stand before the intended one. */
  predicate Unshadowed(f: Fields, prefix: string, value: string) {
    if prefix <= DomainLine(f) then DomainLine(f) == prefix + value
    else prefix <= f.pubkey ==> f.pubkey == prefix + value
  }

  predicate Printable(f: Fields) {
    f.domain != "" && OneLine(f.domain) &&
    f.pubkey != "" && '\n' !in f.pubkey &&
    '\n' !in f.nonce && '\n' !in f.issuedAt && '\n' !in f.expirationTime
  }

  lemma {:induction false} FindClean(lines: seq<string>, prefix: string)
    requires forall i :: 0 <= i < |lines| ==> '\n' !in lines[i]
    ensures Find(lines, prefix).Some? ==> '\n' !in Find(lines, prefix).value
  {
    if lines != [] && !(prefix <= lines[0]) {
      FindClean(lines[1..], prefix);
    }
  }

  /** What comes back never holds a newline, and the domain no line terminator. */
  lemma ParsedIsPrintable(message: string)
    ensures Parse(message).Some? ==> Printable(Parse(message).value)
  {
    var lines := Split(message);
    FindClean(lines, NONCE_PREFIX);
    FindClean(lines, ISSUED_AT_PREFIX);
    FindClean(lines, EXPIRATION_PREFIX);
  }

  lemma FindHere(lines: seq<string>, prefix: string, value: string)
    requires lines != [] && lines[0] == prefix + value
    ensures Find(lines, prefix) == Some(value)
  {
    assert (prefix + value)[|prefix|..] == value;
  }

  lemma FindLater(lines: seq<string>, prefix: string)
    requires lines != [] && 0 < |prefix| && (lines[0] == "" || lines[0][0] != prefix[0])
    ensures Find(lines, prefix) == Find(lines[1..], prefix)
  {
  }

  lemma FindFields(f: Fields)
    ensures Find(Lines(f)[2..], NONCE_PREFIX) == Some(f.nonce)
    ensures Find(Lines(f)[2..], ISSUED_AT_PREFIX) == Some(f.issuedAt)
    ensures Find(Lines(f)[2..], EXPIRATION_PREFIX) == Some(f.expirationTime)
  {
    var l := Lines(f);
    assert l[2..][1..] == l[3..] && l[3..][1..] == l[4..] && l[4..][1..] == l[5..];
    assert l[5..][1..] == l[6..] && l[6..][1..] == l[7..];
    forall p | p in [NONCE_PREFIX, ISSUED_AT_PREFIX, EXPIRATION_PREFIX]
      ensures Find(l[2..], p) == Find(l[5..], p)
    {
      FindLater(l[2..], p);
      assert l[3] == STATEMENT && STATEMENT[0] == 'S';
      FindLater(l[3..], p);
      FindLater(l[4..], p);
    }
    FindHere(l[5..], NONCE_PREFIX, f.nonce);
    FindLater(l[5..], ISSUED_AT_PREFIX);
    FindHere(l[6..], ISSUED_AT_PREFIX, f.issuedAt);
    FindLater(l[5..], EXPIRATION_PREFIX);
    FindLater(l[6..], EXPIRATION_PREFIX);
    FindHere(l[7..], EXPIRATION_PREFIX, f.expirationTime);
  }

  lemma FindShadowed(f: Fields, prefix: string, value: string)
    requires Find(Lines(f)[2..], prefix) == Some(value)
    ensures Find(Lines(f), prefix) == Some(value) <==> Unshadowed(f, prefix, value)
  {
    var l := Lines(f);
    assert l[1..][1..] == l[2..];
    assert Find(l, prefix) == if prefix <= l[0] then Some(l[0][|prefix|..]) else Find(l[1..], prefix);
    assert Find(l[1..], prefix) == if prefix <= l[1] then Some(l[1][|prefix|..]) else Find(l[2..], prefix);
    if prefix <= l[0] {
      SamePrefix(l[0], prefix, value);
    } else if prefix <= l[1] {
      SamePrefix(l[1], prefix, value);
    }
  }

  lemma SamePrefix(line: string, prefix: string, value: string)
    requires prefix <= line
    ensures line[|prefix|..] == value <==> line == prefix + value
  {
    assert line == prefix + line[|prefix|..];
  }

  lemma DomainMatches(domain: string)
    ensures MatchDomain(domain + DOMAIN_SUFFIX) == if OneLine(domain) then Some(domain) else None
  {
    var line := domain + DOMAIN_SUFFIX;
    assert line[|domain|..] == DOMAIN_SUFFIX && line[..|domain|] == domain;
  }

  lemma StatementClean()
    ensures '\n' !in STATEMENT
  {
  }

  lemma LabelsClean()
    ensures '\n' !in DOMAIN_SUFFIX && '\n' !in NONCE_PREFIX && '\n' !in ISSUED_AT_PREFIX && '\n' !in EXPIRATION_PREFIX
  {
  }

  lemma LinesClean(f: Fields)
    requires Printable(f)
    ensures forall i :: 0 <= i < 8 ==> '\n' !in Lines(f)[i]
  {
    StatementClean();
    LabelsClean();
    assert '\n' !in DomainLine(f);
    assert '\n' !in NONCE_PREFIX + f.nonce;
    assert '\n' !in ISSUED_AT_PREFIX + f.issuedAt;
    assert '\n' !in EXPIRATION_PREFIX + f.expirationTime;
  }

  lemma ParseBuilt(f: Fields)
    requires Printable(f)
    ensures Parse(Build(f)) == Some(f) <==>
            Unshadowed(f, NONCE_PREFIX, f.nonce) &&
            Unshadowed(f, ISSUED_AT_PREFIX, f.issuedAt) &&
            Unshadowed(f, EXPIRATION_PREFIX, f.expirationTime)
  {
    LinesClean(f);
    SplitJoin(Lines(f));
    DomainMatches(f.domain);
    FindFields(f);
    FindShadowed(f, NONCE_PREFIX, f.nonce);
    FindShadowed(f, ISSUED_AT_PREFIX, f.issuedAt);
    FindShadowed(f, EXPIRATION_PREFIX, f.expirationTime);
  }

  /** Exactly which fields survive printing and parsing. */
  lemma RoundTripExactly(f: Fields)
    ensures Parse(Build(f)) == Some(f) <==>
            Printable(f) &&
            Unshadowed(f, NONCE_PREFIX, f.nonce) &&
            Unshadowed(f, ISSUED_AT_PREFIX, f.issuedAt) &&
            Unshadowed(f, EXPIRATION_PREFIX, f.expirationTime)
  {
    ParsedIsPrintable(Build(f));
    if Printable(f) {
      ParseBuilt(f);
    }
  }

  /** The domain line starts like one of the labelled lines. */
  predicate LabelLike(f: Fields) {
    NONCE_PREFIX <= DomainLine(f) || ISSUED_AT_PREFIX <= DomainLine(f) || EXPIRATION_PREFIX <= DomainLine(f)
  }

  predicate EndsInColon(s: string) { s != "" && s[|s| - 1] == ':' }

  /** The domain line ends in a colon: it is never a label and a value that does not. */
  lemma LabelShadows(f: Fields, prefix: string, value: string)
    requires prefix != "" && prefix[|prefix| - 1] == ' ' && ' ' !in f.pubkey && !EndsInColon(value)
    ensures Unshadowed(f, prefix, value) <==> !(prefix <= DomainLine(f))
  {
    var line, labelled := DomainLine(f), prefix + value;
    assert line[|line| - 1] == DOMAIN_SUFFIX[|DOMAIN_SUFFIX| - 1] == ':';
    assert labelled[|labelled| - 1] == if value == "" then ' ' else value[|value| - 1];
    assert line != labelled;
    assert !(prefix <= f.pubkey);
  }

  /** Exactly which challenges are read back whole: base58, hexadecimal and
      ISO 8601 fields hold neither spaces nor a final colon. */
  lemma ChallengeRoundTrip(f: Fields)
    requires Printable(f) && ' ' !in f.pubkey
    requires !EndsInColon(f.nonce) && !EndsInColon(f.issuedAt) && !EndsInColon(f.expirationTime)
    ensures Parse(Build(f)) == Some(f) <==> !LabelLike(f)
  {
    assert NONCE_PREFIX[6] == ' ' && ISSUED_AT_PREFIX[10] == ' ' && EXPIRATION_PREFIX[16] == ' ';
    LabelShadows(f, NONCE_PREFIX, f.nonce);
    LabelShadows(f, ISSUED_AT_PREFIX, f.issuedAt);
    LabelShadows(f, EXPIRATION_PREFIX, f.expirationTime);
    RoundTripExactly(f);
  }

  /** A domain that ends in "Nonce:" turns the domain line into the nonce line,
      though it has no line break and does not itself start with a line prefix. */
  lemma DomainCanShadowNonce(f: Fields)
    requires f.domain == "Nonce:" && f.nonce == "c0ffee"
    ensures !(NONCE_PREFIX <= f.domain) && Parse(Build(f)) != Some(f)
  {
    assert DOMAIN_SUFFIX[0] == ' ' && DOMAIN_SUFFIX[1] == 'w';
    assert DomainLine(f)[..7] == NONCE_PREFIX;
    assert DomainLine(f)[7] == 'w' && (NONCE_PREFIX + f.nonce)[7] == 'c';
    RoundTripExactly(f);
  }

  // ---------------------------------------------------------------------
  // The text of a message, and every message that parses
  // ---------------------------------------------------------------------

  /** The message as the wallet shows it, line by line. */
  lemma MessageLines(f: Fields)
    requires Printable(f)
    ensures Split(Build(f)) ==
            [f.domain + (" wants you to sign in" + " with your Solana account:"),
             f.pubkey,
             "",
             "Sign in to authenticate " + "with the TIP API. " + "This request will not trigger " +
             "a blockchain transaction " + "or cost any fees.",
             "",
             "Nonce: " + f.nonce,
             "Issued At: " + f.issuedAt,
             "Expiration Time: " + f.expirationTime]
  {
    LinesClean(f);
    SplitJoin(Lines(f));
  }

  /** Line `i` is the first with this label, and `value` is the rest of it. */
  ghost predicate FirstLabelled(lines: seq<string>, prefix: string, value: string, i: nat) {
    i < |lines| && lines[i] == prefix + value && forall j :: 0 <= j < i ==> !(prefix <= lines[j])
  }

  lemma {:induction false} FindIsFirst(lines: seq<string>, prefix: string, value: string)
    ensures Find(lines, prefix) == Some(value) <==> exists i: nat :: FirstLabelled(lines, prefix, value, i)
  {
    if lines != [] {
      if prefix <= lines[0] {
        SamePrefix(lines[0], prefix, value);
        assert FirstLabelled(lines, prefix, value, 0) <==> lines[0] == prefix + value;
      } else {
        FindIsFirst(lines[1..], prefix, value);
        forall i: nat | i < |lines| - 1
          ensures FirstLabelled(lines[1..], prefix, value, i) <==> FirstLabelled(lines, prefix, value, i + 1)
        {
          assert forall j :: 1 <= j < i + 1 ==> lines[j] == lines[1..][j - 1];
          assert forall j :: 0 <= j < i ==> lines[1..][j] == lines[j + 1];
        }
        assert !FirstLabelled(lines, prefix, value, 0);
        if i: nat :| FirstLabelled(lines, prefix, value, i) {
          assert FirstLabelled(lines[1..], prefix, value, i - 1);
        }
        if i: nat :| FirstLabelled(lines[1..], prefix, value, i) {
          assert FirstLabelled(lines, prefix, value, i + 1);
        }
      }
    }
  }

  /** Exactly which messages parse to which fields: the first line names the
      domain, the second is the key, and the labelled lines may stand anywhere. */
  lemma ParsesExactly(message: string, f: Fields)
    ensures var lines := Split(message);
            Parse(message) == Some(f) <==>
            lines[0] == DomainLine(f) && f.domain != "" && OneLine(f.domain) &&
            |lines| >= 2 && lines[1] == f.pubkey && f.pubkey != "" &&
            (exists i: nat :: FirstLabelled(lines, NONCE_PREFIX, f.nonce, i)) &&
            (exists i: nat :: FirstLabelled(lines, ISSUED_AT_PREFIX, f.issuedAt, i)) &&
            exists i: nat :: FirstLabelled(lines, EXPIRATION_PREFIX, f.expirationTime, i)
  {
    var lines := Split(message);
    FindIsFirst(lines, NONCE_PREFIX, f.nonce);
    FindIsFirst(lines, ISSUED_AT_PREFIX, f.issuedAt);
    FindIsFirst(lines, EXPIRATION_PREFIX, f.expirationTime);
    DomainMatches(f.domain);
    if MatchDomain(lines[0]) == Some(f.domain) {
      var n := |lines[0]| - |DOMAIN_SUFFIX|;
      assert lines[0] == lines[0][..n] + lines[0][n..];
    }
  }
}
