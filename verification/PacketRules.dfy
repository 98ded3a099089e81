/** The two rules that speak at more than one severity, and what that means for the reports of the program. */
module PacketRules {
  import opened Common
  import opened Sorting
  import opened BeaconSecurity
  import opened Findings
  import SuiteNames
  import Text

  const SAE_FAMILY: set<int> := {8, 9, 24, 25}
  const OWE := 18
  const TKIP := 2

  const COUNTRY: Key := Other("country")
  const EXPECTED_COUNTRY: Key := Other("expected_country")
  const EXPECTED_COUNTRIES: Key := Other("expected_countries")
  const EXPECTED_REGION: Key := Other("expected_region")

  // How each message begins.
  const WEP_MARK := "WEP: "
  const LEGACY_MARK := "Legacy security: "
  const UNKNOWN_MARK := "No Country "
  const FOREIGN_MARK := "Beacons "

  function Join(parts: seq<string>, separator: string): string {
    if parts == [] then ""
    else if |parts| == 1 then parts[0]
    else parts[0] + separator + Join(parts[1..], separator)
  }

  predicate Carries(row: Row, key: Key) { key in row && row[key] != Null }

  predicate OffersWpa3(row: Row) {
    exists a :: a in ListAt(row, Akm).GetOr([]) && (a in SAE_FAMILY || a == OWE)
  }

  predicate OffersTkip(row: Row) {
    || TKIP in ListAt(row, PairwiseCipher).GetOr([])
    || TKIP in ListAt(row, WpaPairwiseCipher).GetOr([])
    || (GroupCipher in row && row[GroupCipher] == Int(TKIP))
    || (WpaGroupCipher in row && row[WpaGroupCipher] == Int(TKIP))
  }

  predicate IsWep(row: Row) {
    && Privacy in row && Akm in row && WpaVersion in row
    && row[Privacy] == Bool(true) && ListAt(row, Akm).GetOr([]) == [] && row[WpaVersion] == Null
  }

  function LegacyNotes(row: Row): seq<string> {
    (if Carries(row, WpaVersion) then ["advertises a WPA (v1) element (WPA/WPA2 mixed mode)"] else []) +
    (if !OffersWpa3(row) && OffersTkip(row) then ["offers TKIP"] else [])
  }

  /** WEP fails; a WPA element, or TKIP without WPA3, is a warning. Without the Privacy column there is no opinion. */
  function LegacySecurity(row: Row): Option<Verdict> {
    if Privacy !in row then None
    else if IsWep(row) then
      Some(Verdict(Fail, WEP_MARK + ("Privacy bit set with neither an RSN nor a WPA element. " +
                                     "WEP is broken and must not be offered.")))
    else if LegacyNotes(row) == [] then None
    else
      Some(Verdict(Warn, LEGACY_MARK + (Join(LegacyNotes(row), "; ") +
                                        ". WPA1 and TKIP are deprecated; offer WPA2/WPA3 with CCMP only.")))
  }

  function TextAt(row: Row, key: Key): string {
    if key in row && row[key].Text? then row[key].text else ""
  }

  function Uppers(ts: seq<string>): seq<string> {
    if ts == [] then [] else [Text.Upper(ts[0])] + Uppers(ts[1..])
  }

  /** The countries this device may name; `None` on a row without an expectation. */
  function Allowed(row: Row): Option<seq<string>> {
    if EXPECTED_COUNTRIES in row && row[EXPECTED_COUNTRIES].Texts? && row[EXPECTED_COUNTRIES].ts != [] then
      Some(SortBy(Dedupe(Uppers(row[EXPECTED_COUNTRIES].ts)), StrLe))
    else if TextAt(row, EXPECTED_COUNTRY) != "" then Some([Text.Upper(TextAt(row, EXPECTED_COUNTRY))])
    else None
  }

  /** How a message names the expectation: the region, or the codes, or the one code as it was given. */
  function Expected(row: Row): string {
    if EXPECTED_COUNTRIES in row && row[EXPECTED_COUNTRIES].Texts? && row[EXPECTED_COUNTRIES].ts != [] then
      if TextAt(row, EXPECTED_REGION) != "" then TextAt(row, EXPECTED_REGION)
      else Join(Allowed(row).GetOr([]), ", ")
    else TextAt(row, EXPECTED_COUNTRY)
  }

  /** A beacon without its country is a warning, one with a country outside the device's SKU fails. */
  function CountryMismatch(row: Row): Option<Verdict> {
    if Allowed(row).None? || COUNTRY !in row then None
    else if !row[COUNTRY].Text? then
      Some(Verdict(Warn, UNKNOWN_MARK + ("element in beacons; the SKU expects " + Expected(row) + ".")))
    else if Text.Upper(row[COUNTRY].text) in Allowed(row).value then None
    else
      Some(Verdict(Fail, FOREIGN_MARK + ("advertise country " + row[COUNTRY].text + ", but the DUT's SKU is " +
                                         Expected(row) + ".")))
  }

  // ---- what the two rules say, in terms of the row ------------------------------------

  ghost predicate Holds(row: Row, key: Key, cell: Cell) { key in row && row[key] == cell }

  /** A list column names a suite. */
  ghost predicate Lists(row: Row, key: Key, n: int) { key in row && row[key].Ints? && n in row[key].ns }

  /** SAE, FT-SAE, OWE, SAE-EXT-KEY and FT-SAE-EXT-KEY, by their types in IEEE Std 802.11, section 9.4.2.24.3. */
  ghost predicate ListsWpa3(row: Row) {
    Lists(row, Akm, 8) || Lists(row, Akm, 9) || Lists(row, Akm, 18) || Lists(row, Akm, 24) || Lists(row, Akm, 25)
  }

  /** TKIP has type 2, wherever a cipher is named. */
  ghost predicate NamesTkip(row: Row) {
    || Lists(row, PairwiseCipher, 2) || Lists(row, WpaPairwiseCipher, 2)
    || Holds(row, GroupCipher, Int(2)) || Holds(row, WpaGroupCipher, Int(2))
  }

  /** The Privacy bit with neither an AKM suite nor a WPA element, all three of them known. */
  ghost predicate LooksLikeWep(row: Row) {
    && Holds(row, Privacy, Bool(true)) && Akm in row && (forall n :: !Lists(row, Akm, n)) && Holds(row, WpaVersion, Null)
  }

  ghost predicate ShowsWpa1(row: Row) { WpaVersion in row && !Holds(row, WpaVersion, Null) }

  lemma {:induction false} SuitesIff(row: Row)
    ensures OffersWpa3(row) <==> ListsWpa3(row)
    ensures OffersTkip(row) <==> NamesTkip(row)
    ensures IsWep(row) <==> LooksLikeWep(row)
  {
    var akms := ListAt(row, Akm).GetOr([]);
    assert forall n :: Lists(row, Akm, n) <==> n in akms;
    if akms != [] {
      assert akms[0] in akms;
      assert Lists(row, Akm, akms[0]);
    }
  }

  /**
    * WEP fails. What is left is a warning for a WPA element, for TKIP without WPA3, or for both; and nothing is said
    * for want of the Privacy column, or of anything to say.
    */
  lemma {:induction false} LegacySecurityIff(row: Row)
    ensures var v := LegacySecurity(row);
      var wpa1, tkip := ShowsWpa1(row), NamesTkip(row) && !ListsWpa3(row);
      if LooksLikeWep(row) then
        v == Some(Verdict(Fail, "WEP: " + ("Privacy bit set with neither an RSN nor a WPA element. " +
                                           "WEP is broken and must not be offered.")))
      else if Privacy in row && (wpa1 || tkip) then
        v.Some? && v.value.severity == Warn && Advises(v.value.message, wpa1, tkip)
      else v == None
  {
    SuitesIff(row);
    hide OffersWpa3, OffersTkip, IsWep, ListsWpa3, NamesTkip;
    assert WEP_MARK == "WEP: " && LEGACY_MARK == "Legacy security: ";
    if Privacy in row && !IsWep(row) {
      NotesAre(row);
    }
  }

  ghost predicate Advises(message: string, wpa1: bool, tkip: bool) {
    exists notes ::
      && message == "Legacy security: " + (notes + ". WPA1 and TKIP are deprecated; offer WPA2/WPA3 with CCMP only.")
      && (wpa1 && tkip ==> notes == "advertises a WPA (v1) element (WPA/WPA2 mixed mode)" + "; " + "offers TKIP")
      && (wpa1 && !tkip ==> notes == "advertises a WPA (v1) element (WPA/WPA2 mixed mode)")
      && (!wpa1 && tkip ==> notes == "offers TKIP")
  }

  lemma {:induction false} NotesAre(row: Row)
    ensures var wpa1, tkip := ShowsWpa1(row), OffersTkip(row) && !OffersWpa3(row); var notes := LegacyNotes(row);
      && (notes == [] <==> !wpa1 && !tkip)
      && (wpa1 && tkip ==> Join(notes, "; ") == "advertises a WPA (v1) element (WPA/WPA2 mixed mode)" + "; " + "offers TKIP")
      && (wpa1 && !tkip ==> Join(notes, "; ") == "advertises a WPA (v1) element (WPA/WPA2 mixed mode)")
      && (!wpa1 && tkip ==> Join(notes, "; ") == "offers TKIP")
  {
    hide OffersWpa3, OffersTkip;
    var first, second := "advertises a WPA (v1) element (WPA/WPA2 mixed mode)", "offers TKIP";
    assert LegacyNotes(row) == (if ShowsWpa1(row) then [first] else []) +
                               (if OffersTkip(row) && !OffersWpa3(row) then [second] else []);
    assert [first] + [] == [first] && [] + [second] == [second] && [first] + [second] == [first, second];
    assert [first, second][1..] == [second];
  }

  /** Joining: the parts in order with the separator between each two. */
  lemma {:induction false} JoinConcat(a: seq<string>, b: seq<string>, separator: string)
    ensures Join([], separator) == "" && forall part :: Join([part], separator) == part
    ensures a != [] && b != [] ==> Join(a + b, separator) == Join(a, separator) + separator + Join(b, separator)
  {
    if a != [] && b != [] {
      assert (a + b)[1..] == a[1..] + b;
      if |a| > 1 {
        JoinConcat(a[1..], b, separator);
        var x, y, z := a[0] + separator, Join(a[1..], separator), separator + Join(b, separator);
        assert x + (y + separator + Join(b, separator)) == x + y + separator + Join(b, separator);
      } else {
        assert a[1..] + b == b;
      }
    }
  }

  /** A row carries text in a column, and not the empty one. */
  ghost predicate Tells(row: Row, name: string, text: string) { Holds(row, Other(name), Text(text)) && text != "" }

  /** The countries of a domain: a list, and not the empty one. */
  ghost predicate TellsDomain(row: Row) {
    exists ts :: Holds(row, Other("expected_countries"), Texts(ts)) && ts != []
  }

  /** A country code is covered, whatever the case it is written in: by the domain if there is one, or else by the one code. */
  ghost predicate Covers(row: Row, country: string) {
    if TellsDomain(row) then exists t :: t in row[Other("expected_countries")].ts && Text.Upper(t) == Text.Upper(country)
    else exists t :: Tells(row, "expected_country", t) && Text.Upper(t) == Text.Upper(country)
  }

  ghost predicate Marked(row: Row) { TellsDomain(row) || exists t :: Tells(row, "expected_country", t) }

  lemma {:induction false} UppersAre(ts: seq<string>, code: string)
    ensures code in Uppers(ts) <==> exists t :: t in ts && Text.Upper(t) == code
  {
    if ts != [] {
      UppersAre(ts[1..], code);
      assert forall t :: t in ts <==> t == ts[0] || t in ts[1..];
    }
  }

  lemma {:induction false} AllowedIff(row: Row, country: string)
    ensures Allowed(row).Some? <==> Marked(row)
    ensures Allowed(row).Some? ==> (Text.Upper(country) in Allowed(row).value <==> Covers(row, country))
  {
    hide SortBy, Dedupe, Uppers, Text.Upper;
    TellsText(row, "expected_country");
    if TellsDomain(row) {
      var ts := row[Other("expected_countries")].ts;
      UppersAre(ts, Text.Upper(country));
      assert multiset(SortBy(Dedupe(Uppers(ts)), StrLe)) == multiset(Dedupe(Uppers(ts)));
      SameBagSameElements(SortBy(Dedupe(Uppers(ts)), StrLe), Dedupe(Uppers(ts)));
    }
  }

  lemma {:induction false} TellsText(row: Row, name: string)
    ensures TextAt(row, Other(name)) != "" ==> Tells(row, name, TextAt(row, Other(name)))
    ensures forall t :: Tells(row, name, t) ==> TextAt(row, Other(name)) == t
  {
  }

  /**
    * A row that carries no expectation, or no country column, is nobody's business. Of the others, one without a country
    * is warned of, one with a country that is not covered fails, and a covered one passes.
    */
  lemma {:induction false} CountryMismatchIff(row: Row)
    ensures var v, country := CountryMismatch(row), Other("country");
      if !Marked(row) || country !in row then v == None
      else if !row[country].Text? then
        exists shown :: Shows(row, shown) && v == Some(Verdict(Warn, "No Country " + ("element in beacons; the SKU expects " + shown + ".")))
      else if Covers(row, row[country].text) then v == None
      else
        exists shown :: Shows(row, shown) && v == Some(Verdict(
          Fail, "Beacons " + ("advertise country " + row[country].text + ", but the DUT's SKU is " + shown + ".")))
  {
    AllowedIff(row, if COUNTRY in row && row[COUNTRY].Text? then row[COUNTRY].text else "");
    hide Allowed, Expected, Covers, Marked;
    assert UNKNOWN_MARK == "No Country " && FOREIGN_MARK == "Beacons ";
    if Allowed(row).Some? {
      ExpectedShows(row);
    }
  }

  /** How an expectation is shown: the domain's name, or failing that its codes in order, or the one code as written. */
  ghost predicate Shows(row: Row, shown: string) {
    if !TellsDomain(row) then Tells(row, "expected_country", shown)
    else if exists region :: Tells(row, "expected_region", region) then Tells(row, "expected_region", shown)
    else exists codes :: shown == Join(codes, ", ") && AreCodes(row, codes)
  }

  ghost predicate AreCodes(row: Row, codes: seq<string>)
    requires TellsDomain(row)
  {
    && (forall i, j :: 0 <= i < j < |codes| ==> StrLe(codes[i], codes[j]) && codes[i] != codes[j])
    && (forall code :: code in codes <==> exists t :: t in row[Other("expected_countries")].ts && Text.Upper(t) == code)
  }

  lemma {:induction false} ExpectedShows(row: Row)
    requires Allowed(row).Some?
    ensures Shows(row, Expected(row))
  {
    hide SortBy, Dedupe, Uppers, Text.Upper, Join, StrLe;
    TellsText(row, "expected_country");
    TellsText(row, "expected_region");
    if TellsDomain(row) {
      CodesAre(row);
    }
  }

  lemma {:induction false} CodesAre(row: Row)
    requires TellsDomain(row)
    ensures Allowed(row).Some? && AreCodes(row, Allowed(row).value)
  {
    hide SortBy, Dedupe, Uppers, Text.Upper, StrLe;
    var ts := row[Other("expected_countries")].ts;
    var once := Dedupe(Uppers(ts));
    var codes := SortBy(once, StrLe);
    StrLeOrder();
    SortBySorted(once, StrLe);
    assert multiset(codes) == multiset(once);
    SameBagSameElements(codes, once);
    DedupeOnce(Uppers(ts));
    OnceInAnyOrder(once, codes);
    forall code
      ensures code in codes <==> exists t :: t in ts && Text.Upper(t) == code
    {
      UppersAre(ts, code);
    }
  }

  lemma {:induction false} OnceInAnyOrder(a: seq<string>, b: seq<string>)
    requires NoRepeats(a) && multiset(a) == multiset(b)
    ensures NoRepeats(b)
  {
    forall i, j | 0 <= i < j < |b|
      ensures b[i] != b[j]
    {
      if b[i] == b[j] {
        assert b[i] in multiset(b) && b[i] in a;
        NoRepeatsCountsOne(a, b[i]);
        TwiceCountsTwo(b, i, j);
      }
    }
  }

  /** A rule whose message alone tells its severity. */
  ghost predicate FixesSeverity(rule: Row -> Option<Verdict>) {
    forall r, s :: InAccord(rule(r), rule(s))
  }

  ghost predicate OneSeverity(rule: Row -> Option<Verdict>) {
    forall r, s :: rule(r).Some? && rule(s).Some? ==> rule(r).value.severity == rule(s).value.severity
  }

  /** The two severities of this rule never share a message, whatever stands in the rest of it. */
  lemma {:induction false} LegacySecurityFixes()
    ensures FixesSeverity(LegacySecurity)
  {
    forall r: Row, s: Row
      ensures InAccord(LegacySecurity(r), LegacySecurity(s))
    {
      LegacyInitial(r);
      LegacyInitial(s);
    }
  }

  lemma {:induction false} LegacyInitial(row: Row)
    ensures var v := LegacySecurity(row);
      v.Some? ==> v.value.message != "" && v.value.severity == if v.value.message[0] == 'W' then Fail else Warn
  {
    hide LegacyNotes, IsWep, Join;
    assert WEP_MARK[0] == 'W' && LEGACY_MARK[0] == 'L';
  }

  lemma {:induction false} CountryMismatchFixes()
    ensures FixesSeverity(CountryMismatch)
  {
    forall r: Row, s: Row
      ensures InAccord(CountryMismatch(r), CountryMismatch(s))
    {
      CountryInitial(r);
      CountryInitial(s);
    }
  }

  lemma {:induction false} CountryInitial(row: Row)
    ensures var v := CountryMismatch(row);
      v.Some? ==> v.value.message != "" && v.value.severity == if v.value.message[0] == 'B' then Fail else Warn
  {
    hide Allowed, Expected;
    assert UNKNOWN_MARK[0] == 'N' && FOREIGN_MARK[0] == 'B';
  }

  /** The program's rules: its one group rule, these two row rules, and others that each know a single severity. */
  ghost predicate IsProgram(cfg: Config) {
    && cfg.groupRules == GROUP_RULES
    && forall rule :: rule in cfg.rowRules ==>
         || OneSeverity(cfg.rowRules[rule])
         || cfg.rowRules[rule] == LegacySecurity
         || cfg.rowRules[rule] == CountryMismatch
  }

  lemma {:induction false} ProgramRowsAgree(cfg: Config, rows: seq<Row>)
    requires IsProgram(cfg)
    ensures RowsAgree(cfg, rows)
  {
    LegacySecurityFixes();
    CountryMismatchFixes();
    hide LegacySecurity, CountryMismatch;
    forall r, s, rule |
      && r in rows && s in rows && GroupOf(r, cfg.groupBy) == GroupOf(s, cfg.groupBy)
      && rule in cfg.ruleIds && rule in cfg.rowRules
      ensures InAccord(cfg.rowRules[rule](r), cfg.rowRules[rule](s))
    {
      if OneSeverity(cfg.rowRules[rule]) {
      } else if cfg.rowRules[rule] == LegacySecurity {
        assert InAccord(LegacySecurity(r), LegacySecurity(s));
      } else {
        assert InAccord(CountryMismatch(r), CountryMismatch(s));
      }
    }
  }

  /** So the program's reports forget the order of the rows, for any rules asked for, any grouping and any rows. */
  lemma {:induction false} ProgramForgetsRowOrder(
    cfg: Config, a: seq<Row>, b: seq<Row>, fa: seq<Finding>, fb: seq<Finding>)
    requires IsProgram(cfg) && multiset(a) == multiset(b)
    requires Collapses(fa, AllRaised(Effective(cfg), a)) && Collapses(fb, AllRaised(Effective(cfg), b))
    ensures forall f :: f in fa <==> f in fb
  {
    hide RowsAgree, Collapses, AllRaised;
    ProgramRowsAgree(cfg, a);
    GroupRulesAreOrderBlind();
    ReportForgetsRowOrder(cfg, a, b, fa, fb);
  }

  // ---- from a scan's names to the verdict ---------------------------------------------

  /** A printed suite that makes a network WPA3: by name, or by number where the printer has no name for it. */
  ghost predicate IsWpa3Suite(s: SuiteNames.Suite) {
    match s
    case Named(name, _) => name in {"SAE", "FT/SAE", "OWE"}
    case Unnamed(n) => n in {8, 9, 18, 24, 25}
    case Foreign(_) => false
  }

  ghost predicate StandsFor(s: SuiteNames.Suite, n: int) {
    match s
    case Named(_, number) => number == n
    case Unnamed(m) => m == n
    case Foreign(_) => false
  }

  lemma {:induction false} NumberIsRead(suites: seq<SuiteNames.Suite>, n: int)
    ensures n in SuiteNames.NumbersOf(suites) <==>
            exists s :: s in suites && StandsFor(s, n)
  {
    if suites != [] {
      NumberIsRead(suites[1..], n);
      assert forall s :: s in suites <==> s == suites[0] || s in suites[1..];
      assert StandsFor(suites[0], n) <==> n in SuiteNames.NumbersOf([suites[0]]) by { assert [suites[0]][1..] == []; }
    }
  }

  lemma {:induction false} NamedWpa3(name: string, number: int)
    requires (name, number) in SuiteNames.AKM_NAMES
    ensures number in {8, 9, 18, 24, 25} <==> name in {"SAE", "FT/SAE", "OWE"}
  {
    var i :| 0 <= i < |SuiteNames.AKM_NAMES| && SuiteNames.AKM_NAMES[i] == (name, number);
    SuiteNames.AkmNumbering(i);
  }

  lemma {:induction false} SuiteIsWpa3(s: SuiteNames.Suite, n: int)
    requires SuiteNames.Printable(s, SuiteNames.AKM_NAMES)
    requires StandsFor(s, n)
    ensures n in {8, 9, 18, 24, 25} <==> IsWpa3Suite(s)
  {
    if s.Named? {
      NamedWpa3(s.name, s.number);
    }
  }

  /** Whatever a network prints, the rules take it for WPA3 exactly when it prints a suite that is. */
  lemma {:induction false} Wpa3ByName(row: Row, suites: seq<SuiteNames.Suite>)
    requires forall s :: s in suites ==> SuiteNames.Printable(s, SuiteNames.AKM_NAMES)
    requires Holds(row, Akm, Ints(SuiteNames.NumbersOf(suites)))
    ensures OffersWpa3(row) <==> exists s :: s in suites && IsWpa3Suite(s)
  {
    hide SuiteNames.AKM_NAMES, SuiteNames.Printable, SuiteNames.NumbersOf;
    var numbers := SuiteNames.NumbersOf(suites);
    SuitesIff(row);
    hide OffersWpa3;
    assert ListsWpa3(row) <==> exists n :: n in numbers && n in {8, 9, 18, 24, 25};
    hide ListsWpa3, IsWpa3Suite;
    if n :| n in numbers && n in {8, 9, 18, 24, 25} {
      NumberIsRead(suites, n);
      var s :| s in suites && StandsFor(s, n);
      SuiteIsWpa3(s, n);
    }
    if s :| s in suites && IsWpa3Suite(s) {
      var n := NumberOfWpa3(s);
      NumberIsRead(suites, n);
      SuiteIsWpa3(s, n);
    }
  }

  lemma {:induction false} NumberOfWpa3(s: SuiteNames.Suite) returns (n: int)
    requires IsWpa3Suite(s)
    ensures StandsFor(s, n)
  {
    n := if s.Named? then s.number else s.n;
  }
}
