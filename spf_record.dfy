/**
 * What both copies of the SPF record generator compute: the form's
 * configuration, the domain check their regular expression performs, and
 * the record as a list of space-separated terms (RFC 7208: the version
 * `v=spf1`, the mechanisms `mx`, `a`, `ip4:`, `a:` and `include:`, and a
 * final `all` with qualifier `-`, `?` or `~`).
 */
module SpfRecord {
  import opened Text

  /** The form state, one string per control. */
  datatype Config = Config(
    domain: string,
    allowMX: string,
    allowIP: string,
    allowHostname: string,
    ipAddresses: string,
    serverHostnames: string,
    relayDomains: string,
    strictness: string)
  {
    /** The value of one control. */
    function Get(f: Field): string
    {
      match f
      case Domain => domain
      case AllowMX => allowMX
      case AllowIP => allowIP
      case AllowHostname => allowHostname
      case IpAddresses => ipAddresses
      case ServerHostnames => serverHostnames
      case RelayDomains => relayDomains
      case Strictness => strictness
    }

    /** `{ ...prev, [field]: value }`: only the named control changes. */
    function With(f: Field, value: string): (c: Config)
      ensures c.Get(f) == value
      ensures forall g :: g != f ==> c.Get(g) == Get(g)
    {
      match f
      case Domain => this.(domain := value)
      case AllowMX => this.(allowMX := value)
      case AllowIP => this.(allowIP := value)
      case AllowHostname => this.(allowHostname := value)
      case IpAddresses => this.(ipAddresses := value)
      case ServerHostnames => this.(serverHostnames := value)
      case RelayDomains => this.(relayDomains := value)
      case Strictness => this.(strictness := value)
    }
  }

  /** The keys of `SPFConfig`, the names `handleChange` accepts. */
  datatype Field = Domain | AllowMX | AllowIP | AllowHostname | IpAddresses | ServerHostnames | RelayDomains | Strictness

  /** The state the hook starts in and `resetForm` restores: text fields empty, selects at `"-"`. */
  const DefaultConfig := Config("", "-", "-", "-", "", "", "", "-")

  // ---------------------------------------------------------------- the domain check

  /** `[a-zA-Z0-9][a-zA-Z0-9-]{1,61}[a-zA-Z0-9]`: 3 to 63 characters, alphanumeric at both ends, hyphens allowed inside. */
  predicate IsLabel(s: string) {
    3 <= |s| <= 63 && IsAsciiAlnum(s[0]) && IsAsciiAlnum(s[|s| - 1]) &&
    forall i :: 0 < i < |s| - 1 ==> IsAsciiAlnum(s[i]) || s[i] == '-'
  }

  /** `[a-zA-Z]{2,}`: two or more ASCII letters. */
  predicate IsTld(s: string) {
    |s| >= 2 && forall i :: 0 <= i < |s| ==> IsAsciiLetter(s[i])
  }

  /** The whole domain matches `^label\.tld$`. */
  predicate IsValidDomain(d: string) {
    exists k :: 0 <= k < |d| && d[k] == '.' && IsLabel(d[..k]) && IsTld(d[k + 1..])
  }

  /** A label has no dot, so the only place the pattern's `\.` can match is the first dot. */
  lemma ValidDomainAtFirstDot(d: string, k: nat)
    requires k < |d| && d[k] == '.' && IsLabel(d[..k]) && IsTld(d[k + 1..])
    ensures IndexOf(d, '.') == k
  {
    assert forall i :: 0 <= i < k ==> d[..k][i] != '.';
    IndexOfAt(d, '.', k);
  }

  /** `isValidDomain`: the pattern matched at the first dot, or not at all. */
  function CheckDomain(d: string): (ok: bool)
    ensures ok <==> IsValidDomain(d)
  {
    var k := IndexOf(d, '.');
    if k >= 0 && IsLabel(d[..k]) && IsTld(d[k + 1..]) then true
    else
      assert !IsValidDomain(d) by {
        forall j | 0 <= j < |d| && d[j] == '.' && IsLabel(d[..j]) && IsTld(d[j + 1..])
          ensures false
        {
          ValidDomainAtFirstDot(d, j);
        }
      }
      false
  }

  /** A domain the check accepts has exactly one dot: names with subdomains are refused. */
  lemma ValidDomainOneDot(d: string)
    requires IsValidDomain(d)
    ensures '.' in d
    ensures forall i, j :: 0 <= i < |d| && 0 <= j < |d| && d[i] == '.' && d[j] == '.' ==> i == j
  {
    var k :| 0 <= k < |d| && d[k] == '.' && IsLabel(d[..k]) && IsTld(d[k + 1..]);
    assert forall i :: 0 <= i < |d| && d[i] == '.' ==> i == k by {
      assert forall i :: 0 <= i < k ==> d[..k][i] == d[i];
      assert forall i :: k < i < |d| ==> d[k + 1..][i - k - 1] == d[i];
    }
  }

  /** A two-character first label is refused: `ab.com`. */
  lemma RejectsShortLabel()
    ensures !IsValidDomain("ab.com")
  {
    IndexOfAt("ab.com", '.', 2);
    assert !CheckDomain("ab.com");
  }

  /** A name with a subdomain is refused: `mail.example.com`. */
  lemma RejectsSubdomain()
    ensures !IsValidDomain("mail.example.com")
  {
    ValidDomainOneDotFails("mail.example.com", 4, 12);
  }

  /** A one-letter top level is refused: `example.c`. */
  lemma RejectsShortTld()
    ensures !IsValidDomain("example.c")
  {
    IndexOfAt("example.c", '.', 7);
    assert "example.c"[8..] == "c";
    assert !CheckDomain("example.c");
  }

  /** A phrase is refused: `not a domain` has no dot at all. */
  lemma RejectsPhrase()
    ensures !IsValidDomain("not a domain")
    ensures !IsValidDomain("")
  {
    assert forall i :: 0 <= i < |"not a domain"| ==> "not a domain"[i] != '.';
  }

  /** Two dots are refused. */
  lemma ValidDomainOneDotFails(d: string, i: nat, j: nat)
    requires i < j < |d| && d[i] == '.' && d[j] == '.'
    ensures !IsValidDomain(d)
  {
    if IsValidDomain(d) {
      ValidDomainOneDot(d);
    }
  }

  // ---------------------------------------------------------------- the record as terms

  /**
   * The terms one space-separated list contributes, in input order:
   * `prefix` plus each piece trimmed, blank pieces skipped.
   */
  function PieceTokens(prefix: string, pieces: seq<string>): seq<string>
  {
    if |pieces| == 0 then []
    else PieceTokens(prefix, pieces[..|pieces| - 1]) + PieceToken(prefix, pieces[|pieces| - 1])
  }

  /** The body of the `forEach`: one piece contributes its trimmed text after `prefix`, unless it is blank. */
  function PieceToken(prefix: string, piece: string): seq<string>
  {
    var t := Trim(piece);
    if t != "" then [prefix + t] else []
  }

  /** `if (field) { field.split(" ").forEach(...) }`. */
  function ListTokens(prefix: string, field: string): seq<string>
  {
    if field == "" then [] else PieceTokens(prefix, Split(field, ' '))
  }

  /** `mx` for allowMX, then one `a` for each of allowIP and allowHostname set to `"yes"`. */
  function FlagTokens(c: Config): seq<string>
  {
    (if c.allowMX == "yes" then ["mx"] else []) +
    (if c.allowIP == "yes" then ["a"] else []) +
    (if c.allowHostname == "yes" then ["a"] else [])
  }

  /** The final `all`: `-all` for Strict, `?all` for Neutral, `~all` for anything else. */
  function AllToken(strictness: string): string
  {
    if strictness == "Strict" then "-all" else if strictness == "Neutral" then "?all" else "~all"
  }

  /** The terms of the record, in the order the generator appends them. */
  function Tokens(c: Config): seq<string>
  {
    Assemble(FlagTokens(c), ListTokens("ip4:", c.ipAddresses), ListTokens("a:", c.serverHostnames),
      ListTokens("include:", c.relayDomains), AllToken(c.strictness))
  }

  /** The version term, the flag terms, the three lists and the final term, in that order. */
  function Assemble(flags: seq<string>, ips: seq<string>, hosts: seq<string>, relays: seq<string>, all: string): seq<string>
  {
    ["v=spf1"] + flags + ips + hosts + relays + [all]
  }

  /** The record shown for a configuration: empty for a domain the check refuses. */
  function Record(c: Config): string
  {
    if !CheckDomain(c.domain) then "" else Join(Tokens(c), " ")
  }

  // ---------------------------------------------------------------- properties of the terms

  /** One more piece contributes its own term after the others. */
  lemma PieceTokensSnoc(prefix: string, xs: seq<string>, x: string)
    ensures PieceTokens(prefix, xs + [x]) == PieceTokens(prefix, xs) + PieceToken(prefix, x)
  {
    assert (xs + [x])[..|xs|] == xs;
  }

  /** The lists of pieces contribute their terms in order: the terms of a concatenation are concatenated. */
  lemma {:induction false} PieceTokensAppend(prefix: string, xs: seq<string>, ys: seq<string>)
    ensures PieceTokens(prefix, xs + ys) == PieceTokens(prefix, xs) + PieceTokens(prefix, ys)
    decreases |ys|
  {
    if |ys| == 0 {
      assert xs + ys == xs;
    } else {
      var init, last := ys[..|ys| - 1], ys[|ys| - 1];
      assert ys == init + [last];
      assert xs + ys == (xs + init) + [last];
      var tail := PieceToken(prefix, last);
      calc {
        PieceTokens(prefix, xs + ys);
        { PieceTokensSnoc(prefix, xs + init, last); }
        PieceTokens(prefix, xs + init) + tail;
        { PieceTokensAppend(prefix, xs, init); }
        (PieceTokens(prefix, xs) + PieceTokens(prefix, init)) + tail;
        PieceTokens(prefix, xs) + (PieceTokens(prefix, init) + tail);
        { PieceTokensSnoc(prefix, init, last); }
        PieceTokens(prefix, xs) + PieceTokens(prefix, ys);
      }
    }
  }

  /** A term comes from the list exactly when it is the prefix and a non-blank piece, trimmed. */
  lemma {:induction false} PieceTokensMembers(prefix: string, pieces: seq<string>, t: string)
    ensures t in PieceTokens(prefix, pieces) <==>
      exists i :: 0 <= i < |pieces| && Trim(pieces[i]) != "" && t == prefix + Trim(pieces[i])
  {
    if |pieces| > 0 {
      var init := pieces[..|pieces| - 1];
      PieceTokensMembers(prefix, init, t);
      assert forall i :: 0 <= i < |init| ==> init[i] == pieces[i];
      if t in PieceTokens(prefix, init) {
        var i :| 0 <= i < |init| && Trim(init[i]) != "" && t == prefix + Trim(init[i]);
        assert pieces[i] == init[i];
      }
      assert PieceTokens(prefix, pieces) == PieceTokens(prefix, init) + PieceToken(prefix, pieces[|pieces| - 1]);
    }
  }

  /** Every list term is the prefix and a non-empty run of the pieces' characters, so it holds no space when they hold none. */
  lemma {:induction false} PieceTokensShape(prefix: string, pieces: seq<string>)
    requires ' ' !in prefix
    requires forall i :: 0 <= i < |pieces| ==> ' ' !in pieces[i]
    ensures forall t :: t in PieceTokens(prefix, pieces) ==> |t| > |prefix| && t[..|prefix|] == prefix && ' ' !in t
  {
    if |pieces| > 0 {
      var last := pieces[|pieces| - 1];
      PieceTokensShape(prefix, pieces[..|pieces| - 1]);
      var t := Trim(last);
      if t != "" {
        var a := LeadingSpace(last);
        assert ' ' !in t by {
          forall k | 0 <= k < |t| ensures t[k] != ' ' { assert t[k] == last[a + k]; }
        }
        assert (prefix + t)[..|prefix|] == prefix;
      }
    }
  }

  /** The `if (field)` guard changes nothing: an empty field splits into one blank piece. */
  lemma ListTokensGuard(prefix: string, field: string)
    ensures ListTokens(prefix, field) == PieceTokens(prefix, Split(field, ' '))
  {
    if field == "" {
      var pieces := Split(field, ' ');
      assert pieces == [""];
      assert PieceToken(prefix, "") == [] by {
        assert |Trim("")| == 0;
      }
      assert pieces[..0] == [];
    }
  }

  /** A list's terms are longer than their prefix and free of spaces. */
  lemma ListTokensShape(prefix: string, field: string)
    requires ' ' !in prefix
    ensures forall t :: t in ListTokens(prefix, field) ==> |t| > |prefix| && t[..|prefix|] == prefix && ' ' !in t
  {
    if field != "" {
      PieceTokensShape(prefix, Split(field, ' '));
    }
  }

  /** Non-empty and free of spaces: a term a space-separated list can carry. */
  predicate IsTerm(t: string) {
    t != "" && ' ' !in t
  }

  /** All of the record's terms are terms, when each part's are. */
  lemma TermsConcat(flags: seq<string>, l1: seq<string>, l2: seq<string>, l3: seq<string>, last: string)
    requires forall t :: t in flags ==> IsTerm(t)
    requires forall t :: t in l1 ==> IsTerm(t)
    requires forall t :: t in l2 ==> IsTerm(t)
    requires forall t :: t in l3 ==> IsTerm(t)
    requires IsTerm(last)
    ensures var ts := Assemble(flags, l1, l2, l3, last); forall i :: 0 <= i < |ts| ==> IsTerm(ts[i])
  {
    var ts := Assemble(flags, l1, l2, l3, last);
    forall i | 0 <= i < |ts| ensures IsTerm(ts[i]) {
      assert ts[i] in ts;
    }
  }

  /** Every term is non-empty and free of spaces, so the record is a clean space-separated list. */
  lemma TokensShape(c: Config)
    ensures forall i :: 0 <= i < |Tokens(c)| ==> IsTerm(Tokens(c)[i])
  {
    ListsShape(c);
    FlagsShape(c);
    TermsConcat(FlagTokens(c), ListTokens("ip4:", c.ipAddresses), ListTokens("a:", c.serverHostnames),
      ListTokens("include:", c.relayDomains), AllToken(c.strictness));
  }

  /** The flag terms are `mx` and `a`. */
  lemma FlagsShape(c: Config)
    ensures forall t :: t in FlagTokens(c) ==> IsTerm(t) && (t == "mx" || t == "a")
  {
  }

  /** The terms of the three lists are terms of three characters or more. */
  lemma ListsShape(c: Config)
    ensures forall t :: t in ListTokens("ip4:", c.ipAddresses) ==> IsTerm(t) && |t| >= 3
    ensures forall t :: t in ListTokens("a:", c.serverHostnames) ==> IsTerm(t) && |t| >= 3
    ensures forall t :: t in ListTokens("include:", c.relayDomains) ==> IsTerm(t) && |t| >= 3
  {
    ListTokensShape("ip4:", c.ipAddresses);
    ListTokensShape("a:", c.serverHostnames);
    ListTokensShape("include:", c.relayDomains);
  }

  /** The first part of a non-empty list opens its join. */
  lemma JoinStartsWithFirst(parts: seq<string>, sep: string)
    requires |parts| >= 1
    ensures |parts[0]| <= |Join(parts, sep)| && Join(parts, sep)[..|parts[0]|] == parts[0]
  {
    if |parts| > 1 {
      assert Join(parts, sep) == parts[0] + (sep + Join(parts[1..], sep));
    }
  }

  /** The record is empty exactly when the domain is refused. */
  lemma RecordEmpty(c: Config)
    ensures Record(c) == "" <==> !IsValidDomain(c.domain)
  {
    if IsValidDomain(c.domain) {
      JoinStartsWithFirst(Tokens(c), " ");
    }
  }

  /** A valid domain's record opens with `v=spf1` and closes with one space and the final `all` term. */
  lemma RecordEnds(c: Config)
    requires IsValidDomain(c.domain)
    ensures var r := Record(c); var a := " " + AllToken(c.strictness);
      |r| >= 6 + |a| && r[..6] == "v=spf1" && r[|r| - |a|..] == a
  {
    var ts := Tokens(c);
    assert ts[0] == "v=spf1" && ts[|ts| - 1] == AllToken(c.strictness) && |ts| >= 2;
    JoinEnds(ts, " ");
  }

  /** The join of two or more parts opens with the first part and closes with the separator and the last part. */
  lemma JoinEnds(ts: seq<string>, sep: string)
    requires |ts| >= 2
    ensures var r, a := Join(ts, sep), sep + ts[|ts| - 1];
      |r| >= |ts[0]| + |a| && r[..|ts[0]|] == ts[0] && r[|r| - |a|..] == a
  {
    var init, last := ts[..|ts| - 1], ts[|ts| - 1];
    assert init + [last] == ts;
    JoinSnoc(init, sep, last);
    JoinStartsWithFirst(init, sep);
    var j := Join(init, sep);
    assert Join(ts, sep) == j + (sep + last);
  }

  /** Splitting a record at its spaces gives back its terms. */
  lemma RecordSplit(c: Config)
    requires IsValidDomain(c.domain)
    ensures Split(Record(c), ' ') == Tokens(c)
  {
    TokensShape(c);
    SplitJoin(Tokens(c), ' ');
  }

  /**
   * For an accepted domain the record reads, term by term: `v=spf1`, the
   * allowed flags, the address, host and include lists in input order, and
   * the `all` term of the chosen strictness.
   */
  lemma RecordTerms(c: Config)
    requires IsValidDomain(c.domain)
    ensures Split(Record(c), ' ') == ["v=spf1"] + FlagTokens(c) + ListTokens("ip4:", c.ipAddresses)
      + ListTokens("a:", c.serverHostnames) + ListTokens("include:", c.relayDomains) + [AllToken(c.strictness)]
  {
    RecordSplit(c);
    TokensParts(c);
  }

  /** Terms of three characters or more do not disturb the count of `mx` and `a`. */
  lemma FlagCounts(flags: seq<string>, l1: seq<string>, l2: seq<string>, l3: seq<string>, last: string)
    requires forall t :: t in l1 ==> |t| >= 3
    requires forall t :: t in l2 ==> |t| >= 3
    requires forall t :: t in l3 ==> |t| >= 3
    requires |last| == 4
    ensures var ts := Assemble(flags, l1, l2, l3, last);
      ("mx" in ts <==> "mx" in flags) && multiset(ts)["a"] == multiset(flags)["a"]
  {
    assert "mx" !in l1 && "a" !in l1 && "mx" !in l2 && "a" !in l2 && "mx" !in l3 && "a" !in l3;
    assert multiset(l1)["a"] == 0 && multiset(l2)["a"] == 0 && multiset(l3)["a"] == 0;
  }

  /** `mx` is a term exactly when allowMX is `"yes"`; `a` occurs once per flag set to `"yes"`. */
  lemma FlagTerms(c: Config)
    ensures "mx" in Tokens(c) <==> c.allowMX == "yes"
    ensures multiset(Tokens(c))["a"] == (if c.allowIP == "yes" then 1 else 0) + (if c.allowHostname == "yes" then 1 else 0)
  {
    var flags, l1, l2, l3, last := FlagTokens(c), ListTokens("ip4:", c.ipAddresses), ListTokens("a:", c.serverHostnames),
      ListTokens("include:", c.relayDomains), AllToken(c.strictness);
    assert Tokens(c) == Assemble(flags, l1, l2, l3, last);
    ListsShape(c);
    FlagCounts(flags, l1, l2, l3, last);
    FlagTokensCount(c.allowMX, c.allowIP, c.allowHostname, flags);
  }

  /** Among the flag terms, `mx` stands for allowMX and each `a` for one of the other two flags. */
  lemma FlagTokensCount(mx: string, ip: string, host: string, flags: seq<string>)
    requires flags == (if mx == "yes" then ["mx"] else []) + (if ip == "yes" then ["a"] else []) + (if host == "yes" then ["a"] else [])
    ensures "mx" in flags <==> mx == "yes"
    ensures multiset(flags)["a"] == (if ip == "yes" then 1 else 0) + (if host == "yes" then 1 else 0)
  {
    assert "mx" != "a";
  }

  /** `example.com` passes the check. */
  lemma ExampleDomain()
    ensures IsValidDomain("example.com")
  {
    assert "example.com"[..7] == "example" && "example.com"[8..] == "com";
    assert IsLabel("example") && IsTld("com");
  }

  /** A field holding a single word contributes that word as its one term. */
  lemma SingleWordList(prefix: string, w: string)
    requires w != "" && ' ' !in w && !IsJsWhitespace(w[0]) && !IsJsWhitespace(w[|w| - 1])
    ensures ListTokens(prefix, w) == [prefix + w]
  {
    SplitNoSeparator(w, ' ');
    assert LeadingSpace(w) == 0 && TrailingSpace(w) == 0;
    assert Trim(w) == w;
    assert PieceTokens(prefix, [w]) == PieceTokens(prefix, []) + PieceToken(prefix, w);
  }

  /** The single address of the example is the only `ip4:` term. */
  lemma ExampleAddress(ip: string)
    requires ip == "10.0.0.1/32"
    ensures ListTokens("ip4:", ip) == ["ip4:10.0.0.1/32"]
  {
    ExampleAddressWord(ip);
    SingleWordList("ip4:", ip);
    ExampleAddressTerm(ip);
  }

  /** The example address is one word with no white space at its ends. */
  lemma ExampleAddressWord(ip: string)
    requires ip == "10.0.0.1/32"
    ensures ip != "" && ' ' !in ip && !IsJsWhitespace(ip[0]) && !IsJsWhitespace(ip[|ip| - 1])
  {
    assert forall i :: 0 <= i < |ip| ==> ip[i] != ' ';
  }

  lemma ExampleAddressTerm(ip: string)
    requires ip == "10.0.0.1/32"
    ensures "ip4:" + ip == "ip4:10.0.0.1/32"
  {
  }

  /** The terms of the form's example configuration. */
  lemma ExampleTokens(c: Config)
    requires c == Config("example.com", "yes", "-", "-", "10.0.0.1/32", "", "", "Strict")
    ensures Tokens(c) == ["v=spf1", "mx", "ip4:10.0.0.1/32", "-all"]
  {
    ExampleAddress(c.ipAddresses);
    assert FlagTokens(c) == ["mx"];
    assert AllToken(c.strictness) == "-all";
    assert ListTokens("a:", c.serverHostnames) == [];
    assert ListTokens("include:", c.relayDomains) == [];
    AssembleOne("mx", "ip4:10.0.0.1/32", "-all");
  }

  /** With one flag term and one list term, four terms. */
  lemma AssembleOne(flag: string, term: string, all: string)
    ensures Assemble([flag], [term], [], [], all) == ["v=spf1", flag, term, all]
  {
  }

  /** Four terms joined by spaces. */
  lemma JoinFour(a: string, b: string, c: string, d: string)
    ensures Join([a, b, c, d], " ") == a + " " + b + " " + c + " " + d
  {
    assert [a, b, c, d][1..] == [b, c, d];
    assert [b, c, d][1..] == [c, d];
    assert [c, d][1..] == [d];
    assert Join([c, d], " ") == c + " " + d;
    assert Join([b, c, d], " ") == b + " " + (c + " " + d);
  }

  /**
   * The record of the form's example configuration: `example.com` with mx
   * allowed, one address and strict policy.
   */
  lemma ExampleRecord(c: Config)
    requires c == Config("example.com", "yes", "-", "-", "10.0.0.1/32", "", "", "Strict")
    ensures Record(c) == "v=spf1 mx ip4:10.0.0.1/32 -all"
  {
    ExampleDomain();
    ExampleTokens(c);
    JoinFour("v=spf1", "mx", "ip4:10.0.0.1/32", "-all");
    assert Record(c) == Join(["v=spf1", "mx", "ip4:10.0.0.1/32", "-all"], " ");
    ExampleText();
  }

  lemma ExampleText()
    ensures "v=spf1" + " " + "mx" + " " + "ip4:10.0.0.1/32" + " " + "-all" == "v=spf1 mx ip4:10.0.0.1/32 -all"
  {
  }

  /** The starting configuration shows no record: its domain is empty. */
  lemma DefaultRecord()
    ensures Record(DefaultConfig) == ""
  {
    RejectsPhrase();
  }

  // ---------------------------------------------------------------- the forEach loop

  /**
   * One `pieces.forEach(p => { if (p.trim()) record += " " + prefix + p.trim() })`:
   * a record that joins `done` grows into the join of `done` and the list's terms.
   */
  method AppendPieces(record: string, ghost done: seq<string>, prefix: string, pieces: seq<string>) returns (r: string)
    requires |done| >= 1 && record == Join(done, " ")
    ensures r == Join(done + PieceTokens(prefix, pieces), " ")
  {
    r := record;
    var i := 0;
    assert done + PieceTokens(prefix, pieces[..0]) == done;
    while i < |pieces|
      invariant 0 <= i <= |pieces|
      invariant r == Join(done + PieceTokens(prefix, pieces[..i]), " ")
    {
      var piece := Trim(pieces[i]);
      PieceStep(done, prefix, pieces, i);
      GrowRecord(done + PieceTokens(prefix, pieces[..i]), r, prefix, pieces[i]);
      if piece != "" {
        r := r + " " + prefix + piece;
      }
      i := i + 1;
    }
    assert pieces[..i] == pieces;
  }

  /** Appending a space, a prefix and a word appends one term to the join. */
  lemma SnocTerm(before: seq<string>, r: string, prefix: string, t: string)
    requires |before| >= 1 && r == Join(before, " ")
    ensures r + " " + prefix + t == Join(before + [prefix + t], " ")
  {
    JoinSnoc(before, " ", prefix + t);
  }

  /** One more piece contributes its term after those of the pieces before it. */
  lemma PieceStep(done: seq<string>, prefix: string, pieces: seq<string>, i: nat)
    requires i < |pieces|
    ensures done + PieceTokens(prefix, pieces[..i + 1]) == (done + PieceTokens(prefix, pieces[..i])) + PieceToken(prefix, pieces[i])
  {
    assert pieces[..i + 1][..i] == pieces[..i];
  }

  /** One turn of the `forEach`: the record grows by the piece's term, or stays put for a blank piece. */
  lemma GrowRecord(before: seq<string>, r: string, prefix: string, piece: string)
    requires |before| >= 1 && r == Join(before, " ")
    ensures var t := Trim(piece);
      (if t != "" then r + " " + prefix + t else r) == Join(before + PieceToken(prefix, piece), " ")
  {
    var t := Trim(piece);
    if t != "" {
      SnocTerm(before, r, prefix, t);
    } else {
      assert before + PieceToken(prefix, piece) == before;
    }
  }

  /** The three flag tests grow `v=spf1` into the join of the version and flag terms. */
  lemma FlagsRecord(c: Config)
    ensures "v=spf1" + (if c.allowMX == "yes" then " mx" else "") + (if c.allowIP == "yes" then " a" else "")
      + (if c.allowHostname == "yes" then " a" else "") == Join(["v=spf1"] + FlagTokens(c), " ")
  {
    var m, i, h := c.allowMX == "yes", c.allowIP == "yes", c.allowHostname == "yes";
    var d0 := ["v=spf1"];
    var d1 := d0 + (if m then ["mx"] else []);
    var d2 := d1 + (if i then ["a"] else []);
    var d3 := d2 + (if h then ["a"] else []);
    var r1 := "v=spf1" + (if m then " mx" else "");
    var r2 := r1 + (if i then " a" else "");
    var r3 := r2 + (if h then " a" else "");
    if m { JoinSnoc(d0, " ", "mx"); } else { assert d1 == d0 && r1 == "v=spf1"; }
    assert r1 == Join(d1, " ");
    if i { JoinSnoc(d1, " ", "a"); } else { assert d2 == d1 && r2 == r1; }
    assert r2 == Join(d2, " ");
    if h { JoinSnoc(d2, " ", "a"); } else { assert d3 == d2 && r3 == r2; }
    assert d3 == ["v=spf1"] + FlagTokens(c);
  }

  /** `let record = "v=spf1"` and the three flag tests. */
  method StartRecord(c: Config) returns (record: string)
    ensures record == Join(["v=spf1"] + FlagTokens(c), " ")
  {
    record := "v=spf1";
    if c.allowMX == "yes" { record := record + " mx"; }
    if c.allowIP == "yes" { record := record + " a"; }
    if c.allowHostname == "yes" { record := record + " a"; }
    FlagsRecord(c);
  }

  /** The terms of a record, laid out as the generator appends them. */
  lemma TokensParts(c: Config)
    ensures Tokens(c) == ["v=spf1"] + FlagTokens(c) + ListTokens("ip4:", c.ipAddresses)
      + ListTokens("a:", c.serverHostnames) + ListTokens("include:", c.relayDomains) + [AllToken(c.strictness)]
  {
  }

  /** Appending the final qualifier completes the join with the `all` term. */
  lemma CloseRecord(record: string, done: seq<string>, strictness: string)
    requires |done| >= 1 && record == Join(done, " ")
    ensures record + (if strictness == "Strict" then " -all" else if strictness == "Neutral" then " ?all" else " ~all")
      == Join(done + [AllToken(strictness)], " ")
  {
    JoinSnoc(done, " ", AllToken(strictness));
  }

  /** `if (field) { field.split(" ").forEach(...) }`: a record that joins `done` grows by the field's terms. */
  method AppendList(record: string, ghost done: seq<string>, prefix: string, field: string) returns (r: string)
    requires |done| >= 1 && record == Join(done, " ")
    ensures r == Join(done + ListTokens(prefix, field), " ")
  {
    if field != "" {
      r := AppendPieces(record, done, prefix, Split(field, ' '));
    } else {
      r := record;
      assert done + ListTokens(prefix, field) == done;
    }
  }
}
