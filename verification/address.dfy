/** The provisioning tool's address helpers (`tools/site_id_from_address.py`):
    token canonicalisation, the US address parser and the normaliser whose
    output is encrypted into a site id. Strings are Python `str`s over the
    ASCII case mapping of `Text.Upper`. */
module SiteAddress {
  import opened Wrappers
  import opened Text

  // ---------------------------------------------------------------------
  // canonicalize_address

  /** Street-suffix and unit abbreviations and their spelled-out forms. */
  const TOKEN_MAP: map<string, string> := map[
    "ST" := "STREET", "ST." := "STREET",
    "AVE" := "AVENUE", "AVE." := "AVENUE", "AV" := "AVENUE", "AV." := "AVENUE",
    "RD" := "ROAD", "RD." := "ROAD",
    "DR" := "DRIVE", "DR." := "DRIVE",
    "CT" := "COURT", "CT." := "COURT",
    "LN" := "LANE", "LN." := "LANE",
    "BLVD" := "BOULEVARD", "BLVD." := "BOULEVARD",
    "PL" := "PLACE", "PL." := "PLACE",
    "TER" := "TERRACE", "TER." := "TERRACE",
    "PKWY" := "PARKWAY", "PKWY." := "PARKWAY",
    "HWY" := "HIGHWAY", "HWY." := "HIGHWAY",
    "CIR" := "CIRCLE", "CIR." := "CIRCLE",
    "CTR" := "CENTER", "CTR." := "CENTER",
    "APT" := "UNIT", "APT." := "UNIT",
    "STE" := "UNIT", "STE." := "UNIT",
    "SUITE" := "UNIT", "UNIT" := "UNIT"]

  /** `TOKEN_MAP.get(tok, tok)`. */
  function MapTok(t: string): string
  {
    if t in TOKEN_MAP then TOKEN_MAP[t] else t
  }

  function MapToks(ts: seq<string>): (r: seq<string>)
    ensures |r| == |ts|
    ensures forall i | 0 <= i < |ts| :: r[i] == MapTok(ts[i])
  {
    seq(|ts|, i requires 0 <= i < |ts| => MapTok(ts[i]))
  }

  /** `re.sub(r"[^A-Z0-9]+", " ", s)`: each maximal run of characters
      outside `[A-Z0-9]` becomes one space (kept here as the run's last
      character). */
  function Squash(s: string): (r: string)
    ensures forall i | 0 <= i < |r| :: IsUpperAlnum(r[i]) || r[i] == ' '
    decreases |s|
  {
    if s == [] then []
    else if IsUpperAlnum(s[0]) then [s[0]] + Squash(s[1..])
    else if |s| > 1 && !IsUpperAlnum(s[1]) then Squash(s[1..])
    else " " + Squash(s[1..])
  }

  /** `cleaned.split()` after the upper-casing, stripping and substitution. */
  function Tokens(address: string): seq<string>
  {
    Runs(Squash(Strip(Upper(address))), NotSpace)
  }

  /** `canonicalize_address`. */
  function Canonicalize(address: string): (c: string)
    ensures SingleSpaced(c)
    ensures Runs(c, IsUpperAlnum) == MapToks(Runs(Upper(address), IsUpperAlnum))
  {
    var toks := MapToks(Tokens(address));
    TokensAreAlnumRuns(address);
    MapToksShape(Runs(Upper(address), IsUpperAlnum));
    JoinSingleSpaced(toks);
    RunsOfJoin(toks, ' ', IsUpperAlnum);
    JoinWith(toks, " ")
  }

  /** Only `A`-`Z`, `0`-`9` and single spaces, none at either end. */
  predicate SingleSpaced(s: string)
  {
    && (forall i | 0 <= i < |s| :: IsUpperAlnum(s[i]) || s[i] == ' ')
    && (s == [] || (s[0] != ' ' && s[|s| - 1] != ' '))
    && (forall i | 0 <= i < |s| - 1 && s[i] == ' ' :: s[i + 1] != ' ')
  }

  predicate IsWord(t: string)
  {
    t != [] && AllKeep(t, IsUpperAlnum)
  }

  /** The spelled-out forms the map produces. */
  const EXPANSIONS: seq<string> := ["STREET", "AVENUE", "ROAD", "DRIVE", "COURT", "LANE",
    "BOULEVARD", "PLACE", "TERRACE", "PARKWAY", "HIGHWAY", "CIRCLE", "CENTER", "UNIT"]

  lemma ValuesAreExpansions()
    ensures forall k | k in TOKEN_MAP :: TOKEN_MAP[k] in EXPANSIONS
  {
  }

  /** No expansion but `UNIT` is a key, and `UNIT` maps to itself. */
  lemma ExpansionsAreFixed()
    ensures forall i | 0 <= i < |EXPANSIONS| :: MapTok(EXPANSIONS[i]) == EXPANSIONS[i]
  {
    FirstExpansionsFixed();
    LastExpansionsFixed();
  }

  lemma FirstExpansionsFixed()
    ensures forall i | 0 <= i < 7 :: MapTok(EXPANSIONS[i]) == EXPANSIONS[i]
  {
  }

  lemma LastExpansionsFixed()
    ensures forall i | 7 <= i < |EXPANSIONS| :: MapTok(EXPANSIONS[i]) == EXPANSIONS[i]
  {
  }

  lemma ExpansionsAreWords()
    ensures forall i | 0 <= i < |EXPANSIONS| :: IsWord(EXPANSIONS[i])
  {
  }

  /** Every value of the map is a word the map leaves alone. */
  lemma ValuesAreFixed()
    ensures forall k | k in TOKEN_MAP :: IsWord(TOKEN_MAP[k]) && MapTok(TOKEN_MAP[k]) == TOKEN_MAP[k]
  {
    ValuesAreExpansions();
    ExpansionsAreFixed();
    ExpansionsAreWords();
  }

  lemma MapTokIdempotent(t: string)
    ensures MapTok(MapTok(t)) == MapTok(t)
  {
    ValuesAreFixed();
  }

  lemma MapToksShape(ts: seq<string>)
    requires forall i | 0 <= i < |ts| :: IsWord(ts[i])
    ensures forall i | 0 <= i < |ts| :: IsWord(MapToks(ts)[i])
  {
    ValuesAreFixed();
  }

  lemma {:induction false} SquashWordPrefix(t: string, rest: string)
    requires AllKeep(t, IsUpperAlnum)
    ensures Squash(t + rest) == t + Squash(rest)
    decreases |t|
  {
    if t == [] {
      assert t + rest == rest;
    } else {
      assert (t + rest)[1..] == t[1..] + rest;
      SquashWordPrefix(t[1..], rest);
      assert [t[0]] + (t[1..] + Squash(rest)) == t + Squash(rest);
    }
  }

  lemma {:induction false} SquashOfGap(s: string)
    requires s == [] || !IsUpperAlnum(s[0])
    ensures Squash(s) == [] || Squash(s)[0] == ' '
    decreases |s|
  {
    if |s| > 1 && !IsUpperAlnum(s[1]) {
      SquashOfGap(s[1..]);
    }
  }

  /** The substitution keeps every run of `[A-Z0-9]`. */
  lemma {:induction false} SquashKeepsRuns(s: string)
    ensures Runs(Squash(s), IsUpperAlnum) == Runs(s, IsUpperAlnum)
    decreases |s|
  {
    if s == [] {
    } else if !IsUpperAlnum(s[0]) {
      SquashKeepsRuns(s[1..]);
      if !(|s| > 1 && !IsUpperAlnum(s[1])) {
        var x := Squash(s[1..]);
        assert Squash(s) == " " + x;
        assert (" " + x)[1..] == x;
      }
    } else {
      var n := RunLen(s, IsUpperAlnum);
      var t, rest := s[..n], s[n..];
      assert s == t + rest;
      SquashWordPrefix(t, rest);
      SquashOfGap(rest);
      SquashKeepsRuns(rest);
      var x := Squash(rest);
      RunLenOfPrefix(t, x, IsUpperAlnum);
      assert (t + x)[..n] == t && (t + x)[n..] == x;
    }
  }

  /** The tokens `canonicalize_address` maps are exactly the maximal runs of
      `[A-Z0-9]` of the upper-cased input. */
  lemma TokensAreAlnumRuns(address: string)
    ensures Tokens(address) == Runs(Upper(address), IsUpperAlnum)
    ensures forall i | 0 <= i < |Tokens(address)| :: IsWord(Tokens(address)[i])
  {
    var u := Upper(address);
    SplitOfSquashed(Strip(u));
    SpacesAreNotAlnum(u);
    RunsOfStrip(u, IsUpperAlnum);
  }

  /** No token carries a period, so the dotted keys of the map (`ST.`,
      `AVE.`, ...) never apply. */
  lemma DottedKeysUnused(address: string)
    ensures forall i | 0 <= i < |Tokens(address)| :: '.' !in Tokens(address)[i]
  {
    TokensAreAlnumRuns(address);
    forall i | 0 <= i < |Tokens(address)| ensures '.' !in Tokens(address)[i] {
      WordHasNoPeriod(Tokens(address)[i]);
    }
  }

  lemma WordHasNoPeriod(t: string)
    requires IsWord(t)
    ensures '.' !in t
  {
    assert forall k | 0 <= k < |t| :: t[k] != '.';
  }

  /** After the substitution, `split()` finds the `[A-Z0-9]` runs. */
  lemma SplitOfSquashed(s: string)
    ensures Runs(Squash(s), NotSpace) == Runs(s, IsUpperAlnum)
  {
    var q := Squash(s);
    assert forall i | 0 <= i < |q| :: NotSpace(q[i]) == IsUpperAlnum(q[i]);
    RunsKeepAgree(q, NotSpace, IsUpperAlnum);
    SquashKeepsRuns(s);
  }

  lemma SpacesAreNotAlnum(s: string)
    ensures forall i | 0 <= i < |s| :: IsSpace(s[i]) ==> !IsUpperAlnum(s[i])
  {
  }

  lemma {:induction false} JoinSingleSpaced(toks: seq<string>)
    requires forall i | 0 <= i < |toks| :: IsWord(toks[i])
    ensures SingleSpaced(JoinWith(toks, " "))
    ensures toks != [] ==> JoinWith(toks, " ") != [] && JoinWith(toks, " ")[0] == toks[0][0]
    decreases |toks|
  {
    if |toks| > 1 {
      JoinSingleSpaced(toks[1..]);
      SingleSpacedCons(toks[0], JoinWith(toks[1..], " "));
    }
  }

  /** A word, a space and a single-spaced text starting with a word. */
  lemma SingleSpacedCons(t: string, j: string)
    requires IsWord(t) && SingleSpaced(j) && j != [] && j[0] != ' '
    ensures SingleSpaced(t + " " + j) && (t + " " + j)[0] == t[0]
  {
    var s := t + " " + j;
    assert forall i | 0 <= i < |t| :: s[i] == t[i];
    assert forall i | 0 <= i < |j| :: s[|t| + 1 + i] == j[i];
    assert s[|t|] == ' ';
    forall i | 0 <= i < |s| - 1 && s[i] == ' ' ensures s[i + 1] != ' ' {
      if i > |t| {
        assert j[i - |t| - 1] == ' ';
      }
    }
  }

  /** `canonicalize_address` joins the mapped `[A-Z0-9]` runs. */
  lemma CanonicalizeIsJoin(address: string)
    ensures Canonicalize(address) == JoinWith(MapToks(Runs(Upper(address), IsUpperAlnum)), " ")
  {
    TokensAreAlnumRuns(address);
  }

  lemma MapToksIdempotent(ts: seq<string>)
    ensures MapToks(MapToks(ts)) == MapToks(ts)
  {
    forall i | 0 <= i < |ts| ensures MapToks(MapToks(ts))[i] == MapToks(ts)[i] {
      MapTokIdempotent(ts[i]);
    }
  }

  lemma SingleSpacedIsUpperCased(s: string)
    requires SingleSpaced(s)
    ensures Upper(s) == s
  {
    UpperCasedFixed(s);
  }

  /** Canonicalising twice is canonicalising once. */
  lemma CanonicalizeIdempotent(address: string)
    ensures Canonicalize(Canonicalize(address)) == Canonicalize(address)
  {
    var c := Canonicalize(address);
    CanonicalizeIsJoin(address);
    CanonicalizeIsJoin(c);
    SingleSpacedIsUpperCased(c);
    MapToksIdempotent(Runs(Upper(address), IsUpperAlnum));
  }

  // ---------------------------------------------------------------------
  // _parse_us_address

  function MapAll(f: string -> string, ps: seq<string>): (r: seq<string>)
    ensures |r| == |ps|
    ensures forall i | 0 <= i < |ps| :: r[i] == f(ps[i])
  {
    seq(|ps|, i requires 0 <= i < |ps| => f(ps[i]))
  }

  lemma MapAllAppend(f: string -> string, a: seq<string>, b: seq<string>)
    ensures MapAll(f, a + b) == MapAll(f, a) + MapAll(f, b)
  {
  }

  /** The non-empty strings, in order. */
  function NonEmpty(ps: seq<string>): seq<string>
    decreases |ps|
  {
    if ps == [] then []
    else (if ps[0] != [] then [ps[0]] else []) + NonEmpty(ps[1..])
  }

  /** `[p.strip() for p in parts if p.strip()]`. */
  function CleanParts(ps: seq<string>): seq<string>
  {
    NonEmpty(MapAll(Strip, ps))
  }

  /** The non-empty, stripped comma-separated parts of the upper-cased
      address. */
  function Parts(address: string): seq<string>
  {
    CleanParts(SplitOn(Upper(address), ','))
  }

  /** The fields the parser returns; `zip4` is `""` when absent. */
  datatype UsAddress = UsAddress(street: string, unit: string, city: string,
                                 state: string, zip5: string, zip4: string)

  /** The groups of a `([A-Z]{2})\s*(\d{5})(?:-?(\d{4}))?$` match. */
  datatype StateZip = StateZip(state: string, zip5: string, zip4: string)

  predicate AllUpperLetters(s: string)
  {
    forall i | 0 <= i < |s| :: IsUpperLetter(s[i])
  }

  predicate AllSpace(s: string)
  {
    forall i | 0 <= i < |s| :: IsSpace(s[i])
  }

  /** Group shapes: two letters, five digits, and four digits or nothing. */
  predicate WellShaped(m: StateZip)
  {
    && |m.state| == 2 && AllUpperLetters(m.state)
    && |m.zip5| == 5 && AllDigits(m.zip5)
    && (m.zip4 == [] || (|m.zip4| == 4 && AllDigits(m.zip4)))
  }

  /** What the pattern leaves after the five digits: nothing, or the four
      digits with or without a hyphen. */
  predicate Zip4Tail(rest: string, zip4: string)
  {
    if zip4 == [] then rest == [] else rest == zip4 || rest == "-" + zip4
  }

  /** The pattern matches `s[i..]` with `k` white-space characters between
      the state and the ZIP, giving groups `m`. */
  predicate FitsAt(s: string, i: nat, m: StateZip, k: nat)
  {
    && WellShaped(m)
    && i + 7 + k <= |s|
    && s[i..i + 2] == m.state
    && AllSpace(s[i + 2..i + 2 + k])
    && s[i + 2 + k..i + 7 + k] == m.zip5
    && Zip4Tail(s[i + 7 + k..], m.zip4)
  }

  /** Length of the white space that starts `s`. */
  function SpaceRun(s: string): (n: nat)
    ensures n <= |s|
    ensures forall i | 0 <= i < n :: IsSpace(s[i])
    ensures n == |s| || !IsSpace(s[n])
    decreases |s|
  {
    if s != [] && IsSpace(s[0]) then 1 + SpaceRun(s[1..]) else 0
  }

  /** The pattern tried at position `i`. `\s*` is greedy, and no digit is
      white space, so giving back spaces never helps: the only candidate
      takes the whole white-space run. */
  function MatchAt(s: string, i: nat): (r: Option<StateZip>)
    requires i <= |s|
    ensures r.Some? ==> i + 2 <= |s| && FitsAt(s, i, r.value, SpaceRun(s[i + 2..]))
  {
    if i + 2 > |s| || !AllUpperLetters(s[i..i + 2]) then None
    else
      var j := i + 2 + SpaceRun(s[i + 2..]);
      if j + 5 > |s| || !AllDigits(s[j..j + 5]) then None
      else
        var rest := s[j + 5..];
        if rest == [] then Some(StateZip(s[i..i + 2], s[j..j + 5], ""))
        else if |rest| == 4 && AllDigits(rest) then Some(StateZip(s[i..i + 2], s[j..j + 5], rest))
        else if |rest| == 5 && rest[0] == '-' && AllDigits(rest[1..]) then
          assert rest == "-" + rest[1..];
          Some(StateZip(s[i..i + 2], s[j..j + 5], rest[1..]))
        else None
  }

  /** `re.search`: the leftmost position where the pattern matches. */
  function Search(s: string, i: nat): (r: Option<StateZip>)
    requires i <= |s|
    ensures r.Some? ==> exists j | i <= j <= |s| :: MatchAt(s, j) == r
    ensures r.None? ==> forall j | i <= j <= |s| :: MatchAt(s, j).None?
    decreases |s| - i
  {
    if MatchAt(s, i).Some? then MatchAt(s, i)
    else if i == |s| then None
    else Search(s, i + 1)
  }

  /** Every decomposition the pattern allows is the one `MatchAt` finds. */
  lemma MatchAtComplete(s: string, i: nat, m: StateZip, k: nat)
    requires FitsAt(s, i, m, k)
    ensures MatchAt(s, i) == Some(m)
  {
    var w := s[i + 2..];
    assert forall p | 0 <= p < k :: w[p] == s[i + 2..i + 2 + k][p];
    assert w[k] == m.zip5[0];
  }

  /** After the two letters of a match come only white space, digits and
      a hyphen. */
  lemma NoLetterAfterState(s: string, i: nat)
    requires i <= |s| && MatchAt(s, i).Some?
    ensures forall p | i + 2 <= p < |s| :: !IsUpperLetter(s[p])
  {
    var m := MatchAt(s, i).value;
    var k := SpaceRun(s[i + 2..]);
    var rest := s[i + 7 + k..];
    forall p | i + 2 <= p < |s| ensures !IsUpperLetter(s[p]) {
      if p < i + 2 + k {
        assert s[p] == s[i + 2..i + 2 + k][p - i - 2];
      } else if p < i + 7 + k {
        assert s[p] == m.zip5[p - i - 2 - k];
      } else if rest == m.zip4 {
        assert s[p] == m.zip4[p - i - 7 - k];
      } else if p > i + 7 + k {
        assert s[p] == m.zip4[p - i - 8 - k];
      }
    }
  }

  /** At most one position matches, so the leftmost choice of `re.search`
      never matters. */
  lemma MatchAtUnique(s: string, i: nat, j: nat)
    requires i <= j <= |s|
    requires MatchAt(s, i).Some? && MatchAt(s, j).Some?
    ensures i == j
  {
    if i < j {
      var st := MatchAt(s, j).value.state;
      assert s[j + 1] == st[1];
      NoLetterAfterState(s, i);
    }
  }

  /** `_parse_us_address`. */
  function ParseUsAddress(address: string): (r: Option<UsAddress>)
    // fewer than three non-empty parts, or no state and ZIP at the end
    ensures r.None? <==>
              || |Parts(address)| < 3
              || var z := Upper(Parts(address)[|Parts(address)| - 1]);
                 forall j: nat | j <= |z| :: MatchAt(z, j).None?
    ensures r.Some? ==>
              var ps := Parts(address);
              && r.value.street == ps[0]
              && r.value.city == ps[|ps| - 2]
              && r.value.unit == (if |ps| > 3 then JoinWith(ps[1..|ps| - 2], ", ") else "")
              && WellShaped(StateZip(r.value.state, r.value.zip5, r.value.zip4))
              // the groups are the pattern's match in the last part
              && var z := Upper(ps[|ps| - 1]);
                 exists j: nat | j <= |z| :: MatchAt(z, j) == Some(StateZip(r.value.state, r.value.zip5, r.value.zip4))
  {
    var ps := Parts(address);
    if |ps| < 3 then None
    else
      var stateZip := Upper(ps[|ps| - 1]);
      match Search(stateZip, 0)
      case None => None
      case Some(m) =>
        var unit := if |ps| > 3 then JoinWith(ps[1..|ps| - 2], ", ") else "";
        Some(UsAddress(ps[0], unit, ps[|ps| - 2], m.state, m.zip5, m.zip4))
  }

  // ---------------------------------------------------------------------
  // normalize_canonical_address

  const INVALID_FORMAT: string := "INVALID_FORMAT"

  /** `ZIP5` or `ZIP5-ZIP4`. */
  function ZipFull(zip5: string, zip4: string): string
  {
    if zip4 != [] then zip5 + "-" + zip4 else zip5
  }

  /** `"{state} {zip_full}"`. */
  function StateZipText(m: StateZip): string
  {
    m.state + (" " + ZipFull(m.zip5, m.zip4))
  }

  function GroupsOf(p: UsAddress): StateZip
  {
    StateZip(p.state, p.zip5, p.zip4)
  }

  /** `", {unit}"` when there is a unit. */
  function UnitText(p: UsAddress): string
  {
    if p.unit != [] then ", " + p.unit else ""
  }

  /** The normalised text of a parsed address:
      `STREET[, UNIT], CITY, ST ZIP5[-ZIP4]`. */
  function Render(p: UsAddress): string
  {
    p.street + (UnitText(p) + (", " + (p.city + (", " + StateZipText(GroupsOf(p))))))
  }

  /** `normalize_canonical_address`: never `None`; the sentinel exactly when
      the parse fails. */
  function Normalize(address: string): (r: string)
    ensures r == INVALID_FORMAT <==> ParseUsAddress(address).None?
  {
    match ParseUsAddress(address)
    case None => INVALID_FORMAT
    case Some(p) =>
      RenderIsNotSentinel(p);
      Render(p)
  }

  /** The rendered text ends in a space and the full ZIP. */
  lemma RenderEndsWithZip(p: UsAddress) returns (pre: string)
    ensures Render(p) == pre + ZipFull(p.zip5, p.zip4)
    ensures pre != [] && pre[|pre| - 1] == ' '
  {
    pre := p.street + (UnitText(p) + (", " + (p.city + (", " + p.state)))) + " ";
  }

  /** A rendering is never the sentinel and never empty. */
  lemma RenderIsNotSentinel(p: UsAddress)
    ensures Render(p) != INVALID_FORMAT
    ensures Render(p) != ""
  {
    assert Render(p)[|p.street + UnitText(p)|] == ',';
    assert ',' !in INVALID_FORMAT;
  }

  // ---------------------------------------------------------------------
  // re-parsing normalised text

  /** What the parser keeps of a comma-separated piece. */
  predicate IsPart(s: string)
  {
    s != [] && IsStripped(s) && IsUpperCased(s) && ',' !in s
  }

  lemma {:induction false} NonEmptyAppend(a: seq<string>, b: seq<string>)
    ensures NonEmpty(a + b) == NonEmpty(a) + NonEmpty(b)
    decreases |a|
  {
    if a == [] {
      assert a + b == b;
    } else {
      assert (a + b)[1..] == a[1..] + b;
      NonEmptyAppend(a[1..], b);
    }
  }

  /** `NonEmpty` keeps some of its input's elements. */
  lemma {:induction false} NonEmptyFrom(ps: seq<string>)
    ensures forall x | x in NonEmpty(ps) :: x != [] && x in ps
    decreases |ps|
  {
    if ps != [] {
      NonEmptyFrom(ps[1..]);
    }
  }

  lemma CleanPartsAppend(a: seq<string>, b: seq<string>)
    ensures CleanParts(a + b) == CleanParts(a) + CleanParts(b)
  {
    MapAllAppend(Strip, a, b);
    NonEmptyAppend(MapAll(Strip, a), MapAll(Strip, b));
  }

  /** A stripped piece of upper-cased, comma-free text is a part unless it
      is empty. */
  lemma StripPiece(p: string)
    requires forall c | c in p :: c != ',' && ToUpper(c) == c
    ensures Strip(p) != [] ==> IsPart(Strip(p))
  {
    var a, b := StripBounds(p);
    assert forall i | 0 <= i < b - a :: Strip(p)[i] == p[a + i] && p[a + i] in p;
  }

  /** Every part comes from upper-cased, comma-free pieces. */
  lemma CleanPartsArePieces(ps: seq<string>)
    requires forall p, c | p in ps && c in p :: c != ',' && ToUpper(c) == c
    ensures forall k | 0 <= k < |CleanParts(ps)| :: IsPart(CleanParts(ps)[k])
  {
    var qs := MapAll(Strip, ps);
    NonEmptyFrom(qs);
    forall x | x in qs ensures x != [] ==> IsPart(x) {
      var i :| 0 <= i < |qs| && qs[i] == x;
      StripPiece(ps[i]);
    }
    assert forall k | 0 <= k < |NonEmpty(qs)| :: NonEmpty(qs)[k] in NonEmpty(qs);
  }

  lemma PartsAreParts(address: string)
    ensures forall k | 0 <= k < |Parts(address)| :: IsPart(Parts(address)[k])
  {
    var u := Upper(address);
    UpperIsUpperCased(address);
    SplitOnPieces(u, ',');
    assert forall c | c in u :: ToUpper(c) == c;
    CleanPartsArePieces(SplitOn(u, ','));
  }

  lemma SplitAfterPart(t: string, j: string)
    requires ',' !in t
    ensures SplitOn(t + ", " + j, ',') == [t] + SplitOn(" " + j, ',')
  {
    assert t + ", " + j == t + [','] + (" " + j);
    SplitOnAppend(t, ',', " " + j);
    SplitOnNoSep(t, ',');
  }

  /** The space after a comma is stripped away. */
  lemma CleanAfterSpace(j: string)
    ensures CleanParts(SplitOn(" " + j, ',')) == CleanParts(SplitOn(j, ','))
  {
    var sj := SplitOn(j, ',');
    assert (" " + j)[1..] == j;
    assert SplitOn(" " + j, ',') == [" " + sj[0]] + sj[1..];
    assert sj == [sj[0]] + sj[1..];
    StripLeadingSpace(' ', sj[0]);
    assert MapAll(Strip, [" " + sj[0]]) == MapAll(Strip, [sj[0]]);
    CleanPartsAppend([" " + sj[0]], sj[1..]);
    CleanPartsAppend([sj[0]], sj[1..]);
  }

  lemma CleanPartsOfOne(t: string)
    requires t != [] && IsStripped(t)
    ensures CleanParts([t]) == [t]
  {
    StripFixed(t);
    var q := MapAll(Strip, [t]);
    assert q == [t] && q[1..] == [];
    assert NonEmpty(q) == [t] + NonEmpty([]);
  }

  /** Splitting comma-joined parts on commas and cleaning gives the parts
      back. */
  lemma {:induction false} CleanSplitJoin(fs: seq<string>)
    requires fs != []
    requires forall k | 0 <= k < |fs| :: IsPart(fs[k])
    ensures CleanParts(SplitOn(JoinWith(fs, ", "), ',')) == fs
    decreases |fs|
  {
    var t := fs[0];
    CleanPartsOfOne(t);
    if |fs| == 1 {
      SplitOnNoSep(t, ',');
    } else {
      var j := JoinWith(fs[1..], ", ");
      SplitAfterPart(t, j);
      CleanAfterSpace(j);
      CleanSplitJoin(fs[1..]);
      CleanPartsAppend([t], SplitOn(" " + j, ','));
    }
  }

  /** Letters, digits, white space and the hyphen: the characters the
      pattern consumes. */
  predicate PatternChar(c: char)
  {
    IsUpperLetter(c) || IsDigit(c) || c == ' ' || c == '-'
  }

  lemma ZipFullShape(m: StateZip)
    requires WellShaped(m)
    ensures var zf := ZipFull(m.zip5, m.zip4);
            && 5 <= |zf| && zf[..5] == m.zip5 && Zip4Tail(zf[5..], m.zip4)
            && IsDigit(zf[|zf| - 1])
            && forall i | 0 <= i < |zf| :: IsDigit(zf[i]) || zf[i] == '-'
  {
    var zf := ZipFull(m.zip5, m.zip4);
    if m.zip4 != [] {
      assert zf[5..] == "-" + m.zip4;
      assert forall i | 6 <= i < |zf| :: zf[i] == m.zip4[i - 6];
    }
  }

  /** The state and ZIP text is one part. */
  lemma StateZipTextIsPart(m: StateZip)
    requires WellShaped(m)
    ensures IsPart(StateZipText(m))
  {
    var z := StateZipText(m);
    var zf := ZipFull(m.zip5, m.zip4);
    ZipFullShape(m);
    assert forall i | 3 <= i < |z| :: z[i] == zf[i - 3];
    assert forall i | 0 <= i < |z| :: PatternChar(z[i]);
    assert z[|z| - 1] == zf[|zf| - 1];
  }

  /** The state and ZIP text matches at its start. */
  lemma StateZipTextMatches(m: StateZip)
    requires WellShaped(m)
    ensures Search(StateZipText(m), 0) == Some(m)
  {
    var z := StateZipText(m);
    var zf := ZipFull(m.zip5, m.zip4);
    ZipFullShape(m);
    assert z[3..] == zf;
    assert z[0..2] == m.state && z[2..3] == " " && z[3..8] == zf[..5] && z[8..] == zf[5..];
    MatchAtComplete(z, 0, m, 1);
  }

  lemma JoinWithStartsWithFirst(parts: seq<string>, sep: string)
    requires parts != []
    ensures |JoinWith(parts, sep)| >= |parts[0]|
  {
  }

  lemma JoinTwo(c: string, z: string)
    ensures JoinWith([c, z], ", ") == c + (", " + z)
  {
    assert [c, z][1..] == [z];
  }

  lemma JoinThree(a: string, c: string, z: string)
    ensures JoinWith([a, c, z], ", ") == a + ("" + (", " + (c + (", " + z))))
  {
    assert [a, c, z][1..] == [c, z];
    JoinTwo(c, z);
  }

  lemma JoinWithMiddle(a: string, mid: seq<string>, c: string, z: string)
    requires mid != []
    ensures JoinWith([a] + mid + [c, z], ", ") ==
              a + ((", " + JoinWith(mid, ", ")) + (", " + (c + (", " + z))))
  {
    JoinTwo(c, z);
    JoinWithAppend(mid, [c, z], ", ");
    assert [a] + mid + [c, z] == [a] + (mid + [c, z]);
    JoinWithAppend([a], mid + [c, z], ", ");
  }

  /** The rendered text is its fields joined with `", "`: the street, the
      unit's parts, the city, and the state with the ZIP. */
  lemma RenderIsJoin(p: UsAddress, mid: seq<string>)
    requires p.unit == (if mid == [] then "" else JoinWith(mid, ", "))
    requires mid != [] ==> p.unit != []
    ensures Render(p) == JoinWith([p.street] + mid + [p.city, StateZipText(GroupsOf(p))], ", ")
  {
    var z := StateZipText(GroupsOf(p));
    if mid == [] {
      assert [p.street] + mid + [p.city, z] == [p.street, p.city, z];
      JoinThree(p.street, p.city, z);
    } else {
      JoinWithMiddle(p.street, mid, p.city, z);
    }
  }

  /** Comma-joined parts ending in a state and ZIP parse into exactly those
      fields. */
  lemma ParseOfJoin(fs: seq<string>, m: StateZip)
    requires |fs| >= 3 && WellShaped(m) && fs[|fs| - 1] == StateZipText(m)
    requires forall k | 0 <= k < |fs| :: IsPart(fs[k])
    ensures ParseUsAddress(JoinWith(fs, ", ")) ==
              Some(UsAddress(fs[0], if |fs| > 3 then JoinWith(fs[1..|fs| - 2], ", ") else "",
                             fs[|fs| - 2], m.state, m.zip5, m.zip4))
  {
    PartsOfJoin(fs);
    UpperCasedFixed(fs[|fs| - 1]);
    StateZipTextMatches(m);
  }

  lemma PartsOfJoin(fs: seq<string>)
    requires fs != []
    requires forall k | 0 <= k < |fs| :: IsPart(fs[k])
    ensures Parts(JoinWith(fs, ", ")) == fs
  {
    var t := JoinWith(fs, ", ");
    JoinUpperCased(fs, ", ");
    UpperCasedFixed(t);
    CleanSplitJoin(fs);
  }

  lemma Regroup(ps: seq<string>, z: string)
    requires |ps| >= 3
    ensures var n := |ps|;
            var fs := ps[..n - 1] + [z];
            && [ps[0]] + ps[1..n - 2] + [ps[n - 2], z] == fs
            && fs[1..n - 2] == ps[1..n - 2]
            && forall k | 0 <= k < n - 1 :: fs[k] == ps[k]
  {
  }

  /** A rendering of fields taken from parts parses back to the fields. */
  lemma ReparseRendered(p: UsAddress, ps: seq<string>)
    requires |ps| >= 3
    requires forall k | 0 <= k < |ps| :: IsPart(ps[k])
    requires p.street == ps[0] && p.city == ps[|ps| - 2]
    requires p.unit == (if |ps| > 3 then JoinWith(ps[1..|ps| - 2], ", ") else "")
    requires WellShaped(GroupsOf(p))
    ensures ParseUsAddress(Render(p)) == Some(p)
  {
    var n := |ps|;
    var m := GroupsOf(p);
    var mid := ps[1..n - 2];
    var fs := ps[..n - 1] + [StateZipText(m)];
    if mid != [] {
      JoinWithStartsWithFirst(mid, ", ");
    }
    RenderIsJoin(p, mid);
    Regroup(ps, StateZipText(m));
    StateZipTextIsPart(m);
    ParseOfJoin(fs, m);
  }

  /** Normalised text parses back to the same fields. */
  lemma NormalizeReparses(address: string)
    requires ParseUsAddress(address).Some?
    ensures ParseUsAddress(Normalize(address)) == ParseUsAddress(address)
  {
    PartsAreParts(address);
    ReparseRendered(ParseUsAddress(address).value, Parts(address));
  }

  /** Normalising is idempotent, the sentinel included. */
  lemma NormalizeIdempotent(address: string)
    ensures Normalize(Normalize(address)) == Normalize(address)
  {
    if ParseUsAddress(address).Some? {
      NormalizeReparses(address);
    } else {
      SentinelDoesNotParse();
    }
  }

  lemma SentinelDoesNotParse()
    ensures ParseUsAddress(INVALID_FORMAT).None?
  {
    var u := Upper(INVALID_FORMAT);
    assert u == INVALID_FORMAT;
    SplitOnNoSep(u, ',');
    CleanPartsOfOne(u);
  }
}
