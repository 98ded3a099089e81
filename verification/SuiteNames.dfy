/** Reading `iw`'s space-joined suite names back into suite numbers. */
module SuiteNames {
  import opened Common
  import opened Sorting
  import opened Text

  type Table = seq<(string, int)>

  const AKM_NAMES: Table := [
    ("IEEE 802.1X", 1), ("PSK", 2), ("FT/IEEE 802.1X", 3), ("FT/PSK", 4),
    ("IEEE 802.1X/SHA-256", 5), ("PSK/SHA-256", 6), ("TDLS/TPK", 7), ("SAE", 8),
    ("FT/SAE", 9), ("IEEE 802.1X/SUITE-B", 11), ("IEEE 802.1X/SUITE-B-192", 12),
    ("FT/IEEE 802.1X/SHA-384", 13), ("FILS/SHA-256", 14), ("FILS/SHA-384", 15),
    ("FT/FILS/SHA-256", 16), ("FT/FILS/SHA-384", 17), ("OWE", 18)]

  const CIPHER_NAMES: Table := [
    ("Use group cipher suite", 0), ("WEP-40", 1), ("TKIP", 2), ("CCMP", 4), ("WEP-104", 5),
    ("AES-128-CMAC", 6), ("NO-GROUP", 7), ("GCMP-128", 8), ("GCMP-256", 9), ("CCMP-256", 10),
    ("BIP-GMAC-128", 11), ("BIP-GMAC-256", 12), ("BIP-CMAC-256", 13)]

  // ---- the reader ---------------------------------------------------------------------

  function DigitRun(s: string): (n: nat)
    ensures n <= |s| && AllDigits(s[..n]) && (n < |s| ==> !IsDigit(s[n]))
  {
    if s == [] || !IsDigit(s[0]) then 0
    else
      var n := DigitRun(s[1..]);
      assert forall i :: 0 < i < n + 1 ==> s[i] == s[1..][i - 1];
      n + 1
  }

  /** `00-0f-ac:` in either case. */
  predicate HasOui(s: string) {
    && |s| >= 9
    && s[0] == '0' && s[1] == '0' && s[2] == '-' && s[3] == '0' && (s[4] == 'f' || s[4] == 'F') && s[5] == '-'
    && (s[6] == 'a' || s[6] == 'A') && (s[7] == 'c' || s[7] == 'C') && s[8] == ':'
  }

  /** The number of an unnamed suite at the head of `s`, and where it ends. */
  function MatchUnknown(s: string): (r: Option<(nat, nat)>)
    ensures r.Some? ==> 0 < r.value.1 <= |s|
  {
    if !HasOui(s) then None
    else
      var n := DigitRun(s[9..]);
      if n == 0 then None else Some((NumberOf(s[9..][..n]), 9 + n))
  }

  predicate NameAt(s: string, name: string) {
    StartsWith(s, name) && (|s| == |name| || s[|name|] == ' ')
  }

  predicate LongerFirst(a: (string, int), b: (string, int)) { |a.0| >= |b.0| }

  function FirstName(s: string, ordered: Table): (r: Option<(string, int)>)
    ensures r.Some? ==> r.value in ordered && NameAt(s, r.value.0)
    ensures r.None? ==> forall e :: e in ordered ==> !NameAt(s, e.0)
  {
    if ordered == [] then None
    else if NameAt(s, ordered[0].0) then Some(ordered[0])
    else FirstName(s, ordered[1..])
  }

  /** What is behind the first blank. */
  function AfterBlank(s: string): (r: string)
    ensures s != [] ==> |r| < |s|
  {
    if s == [] then [] else if s[0] == ' ' then s[1..] else AfterBlank(s[1..])
  }

  /** One turn of the loop: the suite read, if any, and the rest. */
  function Turn(rest: string, ordered: Table): (r: (Option<int>, string))
    requires rest != [] && forall e :: e in ordered ==> e.0 != []
    ensures |r.1| < |rest|
  {
    var m := MatchUnknown(rest);
    if m.Some? then (Some(m.value.0), LStrip(rest[m.value.1..]))
    else
      var e := FirstName(rest, ordered);
      if e.Some? then (Some(e.value.1), LStrip(rest[|e.value.0|..]))
      else (None, AfterBlank(rest))
  }

  function ReadSuites(rest: string, ordered: Table): seq<int>
    requires forall e :: e in ordered ==> e.0 != []
    decreases |rest|
  {
    if rest == [] then []
    else
      var t := Turn(rest, ordered);
      (if t.0.Some? then [t.0.value] else []) + ReadSuites(t.1, ordered)
  }

  ghost predicate Usable(names: Table) { forall e :: e in names ==> e.0 != [] }

  function Ordered(names: Table): (r: Table)
    ensures forall e :: e in r <==> e in names
  {
    assert forall e :: e in SortBy(names, LongerFirst) <==> e in multiset(SortBy(names, LongerFirst));
    assert forall e :: e in names <==> e in multiset(names);
    SortBy(names, LongerFirst)
  }

  lemma {:induction false} ReadTurn(rest: string, ordered: Table)
    requires rest != [] && forall e :: e in ordered ==> e.0 != []
    ensures var t := Turn(rest, ordered);
      ReadSuites(rest, ordered) == (if t.0.Some? then [t.0.value] else []) + ReadSuites(t.1, ordered)
  {
  }

  lemma {:induction false} ReadNothing(ordered: Table)
    requires forall e :: e in ordered ==> e.0 != []
    ensures ReadSuites([], ordered) == []
  {
  }

  /** The loop, on every string whatever: each turn leaves strictly less to read. */
  method Suites(text: string, names: Table) returns (out: seq<int>)
    requires Usable(names)
    ensures out == ReadSuites(Strip(text), Ordered(names))
  {
    hide ReadSuites;
    var ordered := Ordered(names);
    out := [];
    var rest := Strip(text);
    ghost var whole := ReadSuites(rest, ordered);
    while rest != []
      invariant out + ReadSuites(rest, ordered) == whole
      decreases |rest|
    {
      ReadTurn(rest, ordered);
      var m := MatchUnknown(rest);
      if m.Some? {
        out := out + [m.value.0];
        rest := LStrip(rest[m.value.1..]);
      } else {
        var e := FirstName(rest, ordered);
        if e.Some? {
          out := out + [e.value.1];
          rest := LStrip(rest[|e.value.0|..]);
        } else {
          rest := AfterBlank(rest);
        }
      }
    }
    ReadNothing(ordered);
  }

  // ---- the printer --------------------------------------------------------------------

  /** One printed suite: a named one, an unnamed `00-0f-ac` one, or a token of another organisation. */
  datatype Suite = Named(name: string, number: int) | Unnamed(n: nat) | Foreign(token: string)

  function Printed(s: Suite): string {
    match s
    case Named(name, _) => name
    case Unnamed(n) => "00-0f-ac:" + Decimal(n)
    case Foreign(token) => token
  }

  function Joined(suites: seq<Suite>): string {
    if suites == [] then []
    else if |suites| == 1 then Printed(suites[0])
    else Printed(suites[0]) + " " + Joined(suites[1..])
  }

  function NumbersOf(suites: seq<Suite>): seq<int> {
    if suites == [] then []
    else
      (match suites[0]
       case Named(_, number) => [number]
       case Unnamed(n) => [n as int]
       case Foreign(_) => []) + NumbersOf(suites[1..])
  }

  ghost predicate Trimmed(s: string) {
    s != [] && !IsSpace(s[0]) && !IsSpace(s[|s| - 1])
  }

  /** No name is another name continued behind a blank, and none looks like an unnamed suite. */
  ghost predicate Unambiguous(names: Table) {
    && (forall e :: e in names ==> Trimmed(e.0) && !HasOui(e.0))
    && (forall d, e :: d in names && e in names ==> !StartsWith(e.0, d.0 + " "))
    && (forall d, e :: d in names && e in names && d.0 == e.0 ==> d == e)
  }

  /** A token the table cannot mistake for, or complete to, one of its names. */
  ghost predicate IsForeign(token: string, names: Table) {
    && token != [] && (forall i :: 0 <= i < |token| ==> !IsSpace(token[i]))
    && !HasOui(token)
    && forall e :: e in names ==> e.0 != token && !StartsWith(e.0, token + " ")
  }

  ghost predicate Printable(s: Suite, names: Table) {
    match s
    case Named(name, number) => (name, number) in names
    case Unnamed(_) => true
    case Foreign(token) => IsForeign(token, names)
  }

  // ---- round trip ---------------------------------------------------------------------

  lemma {:induction false} PrintedTrimmed(s: Suite, names: Table)
    requires Unambiguous(names) && Printable(s, names)
    ensures Trimmed(Printed(s))
  {
    if s.Unnamed? {
      var p := Printed(s);
      assert p[|p| - 1] == Decimal(s.n)[|Decimal(s.n)| - 1];
    }
  }

  lemma {:induction false} JoinedTrimmed(suites: seq<Suite>, names: Table)
    requires Unambiguous(names) && suites != [] && forall s :: s in suites ==> Printable(s, names)
    ensures Trimmed(Joined(suites))
  {
    PrintedTrimmed(suites[0], names);
    if |suites| > 1 {
      JoinedTrimmed(suites[1..], names);
      var j := Joined(suites);
      assert j[|j| - 1] == Joined(suites[1..])[|Joined(suites[1..])| - 1];
    }
  }

  /** A tail is either nothing or a blank and a trimmed text. */
  ghost predicate IsTail(tail: string) {
    tail == [] || (tail[0] == ' ' && Trimmed(tail[1..]))
  }

  lemma {:induction false} LStripTail(tail: string)
    requires IsTail(tail)
    ensures LStrip(tail) == if tail == [] then [] else tail[1..]
  {
    if tail != [] {
      assert IsSpace(tail[0]);
      assert LStrip(tail) == LStrip(tail[1..]);
    }
  }

  lemma {:induction false} DigitRunStops(digits: string, tail: string)
    requires AllDigits(digits) && (tail != [] ==> !IsDigit(tail[0]))
    ensures DigitRun(digits + tail) == |digits|
  {
    if digits == [] {
      assert digits + tail == tail;
    } else {
      assert (digits + tail)[1..] == digits[1..] + tail;
      DigitRunStops(digits[1..], tail);
    }
  }

  lemma {:induction false} TurnUnnamed(n: nat, tail: string, ordered: Table)
    requires IsTail(tail) && forall e :: e in ordered ==> e.0 != []
    ensures Turn("00-0f-ac:" + Decimal(n) + tail, ordered) == (Some(n as int), if tail == [] then [] else tail[1..])
  {
    var rest := "00-0f-ac:" + Decimal(n) + tail;
    assert rest[9..] == Decimal(n) + tail;
    DigitRunStops(Decimal(n), tail);
    assert (Decimal(n) + tail)[..|Decimal(n)|] == Decimal(n);
    NumberOfDecimal(n);
    assert rest[9 + |Decimal(n)|..] == tail;
    LStripTail(tail);
  }

  /** Whatever name matches at the head of a joined list is the printed one, or one of the two continues the other. */
  lemma {:induction false} OnlyItself(name: string, tail: string, other: string)
    requires IsTail(tail) && NameAt(name + tail, other)
    ensures other == name || StartsWith(name, other + " ") || StartsWith(other, name + " ")
  {
    var rest := name + tail;
    assert rest[..|name|] == name;
    if |other| < |name| {
      assert name[..|other| + 1] == other + " ";
    } else if |other| > |name| {
      assert rest[..|name| + 1] == name + " ";
      assert other[..|name| + 1] == rest[..|name| + 1];
    }
  }

  lemma {:induction false} TurnNamed(name: string, number: int, tail: string, names: Table)
    requires Unambiguous(names) && IsTail(tail) && (name, number) in names
    ensures Turn(name + tail, Ordered(names)) == (Some(number), if tail == [] then [] else tail[1..])
  {
    var rest := name + tail;
    OuiStays(name, tail);
    assert rest[..|name|] == name && NameAt(rest, (name, number).0);
    var e := FirstName(rest, Ordered(names));
    assert (name, number) in Ordered(names) && e.value in names;
    OnlyItself(name, tail, e.value.0);
    assert !StartsWith((name, number).0, e.value.0 + " ") && !StartsWith(e.value.0, (name, number).0 + " ");
    assert e.value == (name, number);
    assert rest[|name|..] == tail;
    LStripTail(tail);
  }

  /** The prefix of an unnamed suite holds no blank, so it cannot straddle a name and its tail. */
  lemma {:induction false} OuiStays(name: string, tail: string)
    requires IsTail(tail)
    ensures HasOui(name + tail) ==> HasOui(name)
  {
    var rest := name + tail;
    assert tail != [] ==> rest[|name|] == ' ';
    if HasOui(rest) {
      assert forall i :: 0 <= i < 9 ==> rest[i] != ' ';
      assert |name| >= 9;
      assert forall i :: 0 <= i < 9 ==> rest[i] == name[i];
    }
  }

  lemma {:induction false} AfterBlankOfToken(token: string, tail: string)
    requires forall i :: 0 <= i < |token| ==> !IsSpace(token[i])
    requires IsTail(tail)
    ensures AfterBlank(token + tail) == if tail == [] then [] else tail[1..]
  {
    if token == [] {
      assert token + tail == tail;
    } else {
      assert (token + tail)[1..] == token[1..] + tail;
      assert !IsSpace(token[0]);
      AfterBlankOfToken(token[1..], tail);
    }
  }

  /** A name that matches over a blank-free token is the token, or continues it. */
  lemma {:induction false} TokenOrMore(token: string, tail: string, name: string)
    requires IsTail(tail) && NameAt(token + tail, name)
    requires forall i :: 0 <= i < |token| ==> !IsSpace(token[i])
    ensures name == token || StartsWith(name, token + " ")
  {
    var rest := token + tail;
    assert forall i :: 0 <= i < |token| ==> rest[i] != ' ';
    assert |name| >= |token|;
    assert rest[..|token|] == token;
    if |name| > |token| {
      assert rest[..|token| + 1] == token + " ";
      assert name[..|token| + 1] == rest[..|token| + 1];
    }
  }

  lemma {:induction false} TurnForeign(token: string, tail: string, names: Table)
    requires Unambiguous(names) && IsTail(tail) && IsForeign(token, names)
    ensures Turn(token + tail, Ordered(names)) == (None, if tail == [] then [] else tail[1..])
  {
    OuiStays(token, tail);
    forall e | e in Ordered(names)
      ensures !NameAt(token + tail, e.0)
    {
      assert e in names;
      if NameAt(token + tail, e.0) {
        TokenOrMore(token, tail, e.0);
      }
    }
    AfterBlankOfToken(token, tail);
  }

  lemma {:induction false} PrintedNotEmpty(s: Suite, names: Table)
    requires Unambiguous(names) && Printable(s, names)
    ensures Printed(s) != []
  {
    PrintedTrimmed(s, names);
  }

  lemma {:induction false} ReadJoined(suites: seq<Suite>, names: Table)
    requires Unambiguous(names) && forall s :: s in suites ==> Printable(s, names)
    ensures ReadSuites(Joined(suites), Ordered(names)) == NumbersOf(suites)
  {
    hide ReadSuites, Turn;
    ReadNothing(Ordered(names));
    if suites != [] {
      var s, rest := suites[0], suites[1..];
      var tail := if rest == [] then [] else " " + Joined(rest);
      assert s in suites;
      if rest != [] {
        JoinedTrimmed(rest, names);
        assert tail[1..] == Joined(rest);
      }
      ReadJoined(rest, names);
      PrintedTrimmed(s, names);
      assert Joined(suites) == Printed(s) + tail;
      PrintedNotEmpty(s, names);
      ReadTurn(Printed(s) + tail, Ordered(names));
      match s
      case Named(name, number) => TurnNamed(name, number, tail, names);
      case Unnamed(n) => TurnUnnamed(n, tail, Ordered(names));
      case Foreign(token) => TurnForeign(token, tail, names);
    }
  }

  /**
   * Printer and reader undo each other: for every list of suites, named, unnamed or foreign, the joined names read
   * back to exactly the numbers of the suites of the table's own organisation, in order.
   */
  lemma {:induction false} SuitesUndoesJoin(suites: seq<Suite>, names: Table)
    requires Unambiguous(names) && forall s :: s in suites ==> Printable(s, names)
    ensures ReadSuites(Strip(Joined(suites)), Ordered(names)) == NumbersOf(suites)
  {
    if suites != [] {
      JoinedTrimmed(suites, names);
    }
    ReadJoined(suites, names);
  }

  // ---- the two tables -----------------------------------------------------------------

  /** Where a name could be cut in two at a blank. */
  ghost predicate CutsOnlyAt(name: string, heads: set<string>) {
    forall k :: 0 <= k < |name| && name[k] == ' ' ==> name[..k] in heads
  }

  lemma {:induction false} ContinuedNameIsHead(d: string, e: string, heads: set<string>)
    requires CutsOnlyAt(e, heads) && StartsWith(e, d + " ")
    ensures d in heads
  {
    assert e[|d|] == e[..|d| + 1][|d|] == ' ';
    assert e[..|d|] == e[..|d| + 1][..|d|] == d;
  }

  const AKM_HEADS: set<string> := {"IEEE", "FT/IEEE"}
  const CIPHER_HEADS: set<string> := {"Use", "Use group", "Use group cipher"}

  lemma {:induction false} TableUnambiguous(names: Table, heads: set<string>)
    requires forall i :: 0 <= i < |names| ==> GoodName(names[i].0, heads)
    requires forall i, j :: 0 <= i < j < |names| ==> names[i].0 != names[j].0
    ensures Unambiguous(names)
  {
    forall d, e | d in names && e in names
      ensures !StartsWith(e.0, d.0 + " ") && (d.0 == e.0 ==> d == e)
    {
      var i :| 0 <= i < |names| && names[i] == d;
      var j :| 0 <= j < |names| && names[j] == e;
      if StartsWith(e.0, d.0 + " ") {
        ContinuedNameIsHead(d.0, e.0, heads);
      }
    }
  }

  /** What one table entry has to satisfy. */
  ghost predicate GoodName(name: string, heads: set<string>) {
    Trimmed(name) && !HasOui(name) && CutsOnlyAt(name, heads) && name !in heads
  }

  lemma {:induction false} SpacedCipherName()
    ensures GoodName("Use group cipher suite", CIPHER_HEADS)
  {
    var n := "Use group cipher suite";
    assert n[..3] == "Use" && n[..9] == "Use group" && n[..16] == "Use group cipher";
    assert |n| == 22;
  }

  lemma {:induction false} SpacedAkmNames(name: string)
    requires name in {"IEEE 802.1X", "IEEE 802.1X/SHA-256", "IEEE 802.1X/SUITE-B", "IEEE 802.1X/SUITE-B-192"}
    ensures GoodName(name, AKM_HEADS)
  {
    assert name[..4] == "IEEE";
  }

  lemma {:induction false} SpacedFtNames(name: string)
    requires name in {"FT/IEEE 802.1X", "FT/IEEE 802.1X/SHA-384"}
    ensures GoodName(name, AKM_HEADS)
  {
    assert name[..7] == "FT/IEEE";
  }

  lemma {:induction false} CipherNameIsGood(i: nat)
    requires i < |CIPHER_NAMES|
    ensures GoodName(CIPHER_NAMES[i].0, CIPHER_HEADS)
  {
    SpacedCipherName();
  }

  lemma {:induction false} AkmNameIsGood(i: nat)
    requires i < |AKM_NAMES|
    ensures GoodName(AKM_NAMES[i].0, AKM_HEADS)
  {
    if i in {0, 4, 9, 10} {
      SpacedAkmNames(AKM_NAMES[i].0);
    } else if i in {2, 11} {
      SpacedFtNames(AKM_NAMES[i].0);
    }
  }

  /** The cipher table is unambiguous, so its printer and reader undo each other. */
  lemma {:induction false} CipherTableUnambiguous()
    ensures Unambiguous(CIPHER_NAMES)
  {
    hide GoodName;
    forall i | 0 <= i < |CIPHER_NAMES|
      ensures GoodName(CIPHER_NAMES[i].0, CIPHER_HEADS)
    {
      CipherNameIsGood(i);
    }
    TableUnambiguous(CIPHER_NAMES, CIPHER_HEADS);
  }

  /** So is the AKM table, though some of its names begin others and some hold blanks. */
  lemma {:induction false} AkmTableUnambiguous()
    ensures Unambiguous(AKM_NAMES)
  {
    hide GoodName;
    forall i | 0 <= i < |AKM_NAMES|
      ensures GoodName(AKM_NAMES[i].0, AKM_HEADS)
    {
      AkmNameIsGood(i);
    }
    TableUnambiguous(AKM_NAMES, AKM_HEADS);
  }

  // ---- the numbers the names stand for ------------------------------------------------

  /** The AKM names are in the order of their suite types in IEEE Std 802.11-2020, Table 9-151: 1 to 9, then 11 to 18. */
  lemma {:induction false} AkmNumbering(i: nat)
    requires i < |AKM_NAMES|
    ensures |AKM_NAMES| == 17 && AKM_NAMES[i].1 == if i < 9 then i + 1 else i + 2
  {
  }

  /** Their spelling: a digest is behind a slash, and so is a name behind its fast transition. */
  lemma {:induction false} AkmSpelling()
    ensures |AKM_NAMES| == 17
    ensures AKM_NAMES[0].0 == "IEEE 802.1X" && AKM_NAMES[1].0 == "PSK" && AKM_NAMES[7].0 == "SAE" && AKM_NAMES[16].0 == "OWE"
    ensures AKM_NAMES[2].0 == "FT/" + AKM_NAMES[0].0 && AKM_NAMES[3].0 == "FT/" + AKM_NAMES[1].0
    ensures AKM_NAMES[4].0 == AKM_NAMES[0].0 + "/SHA-256" && AKM_NAMES[5].0 == AKM_NAMES[1].0 + "/SHA-256"
    ensures AKM_NAMES[6].0 == "TDLS/TPK" && AKM_NAMES[8].0 == "FT/" + AKM_NAMES[7].0
  {
  }

  lemma {:induction false} LongAkmSpelling()
    ensures |AKM_NAMES| == 17
    ensures AKM_NAMES[9].0 == AKM_NAMES[0].0 + "/SUITE-B" && AKM_NAMES[10].0 == AKM_NAMES[9].0 + "-192"
    ensures AKM_NAMES[11].0 == AKM_NAMES[2].0 + "/SHA-384"
    ensures AKM_NAMES[12].0 == "FILS/SHA-256" && AKM_NAMES[13].0 == "FILS/SHA-384"
    ensures AKM_NAMES[14].0 == "FT/" + AKM_NAMES[12].0 && AKM_NAMES[15].0 == "FT/" + AKM_NAMES[13].0
  {
  }

  lemma {:induction false} CipherSpelling()
    ensures |CIPHER_NAMES| == 13
    ensures CIPHER_NAMES[0].0 == "Use group cipher suite" && CIPHER_NAMES[6].0 == "NO-GROUP"
    ensures CIPHER_NAMES[1].0 == "WEP-40" && CIPHER_NAMES[4].0 == "WEP-104" && CIPHER_NAMES[2].0 == "TKIP"
    ensures CIPHER_NAMES[3].0 == "CCMP" && CIPHER_NAMES[9].0 == CIPHER_NAMES[3].0 + "-256"
    ensures CIPHER_NAMES[5].0 == "AES-128-CMAC" && CIPHER_NAMES[12].0 == "BIP-CMAC-256"
    ensures CIPHER_NAMES[7].0 == "GCMP-128" && CIPHER_NAMES[8].0 == "GCMP-256"
    ensures CIPHER_NAMES[10].0 == "BIP-GMAC-128" && CIPHER_NAMES[11].0 == "BIP-GMAC-256"
  {
  }

  /** The cipher names likewise, in the order of Table 9-149: 0 to 2, then 4 to 13. */
  lemma {:induction false} CipherNumbering(i: nat)
    requires i < |CIPHER_NAMES|
    ensures |CIPHER_NAMES| == 13 && CIPHER_NAMES[i].1 == if i < 3 then i else i + 1
  {
  }

  /** Two names of a table, one behind the other. */
  lemma {:induction false} NamesRead(a: string, m: int, b: string, n: int, names: Table)
    requires Unambiguous(names) && (a, m) in names && (b, n) in names
    ensures ReadSuites(Strip(a + " " + b), Ordered(names)) == [m, n]
  {
    hide ReadSuites, Strip, Unambiguous;
    TwoRead(Named(a, m), Named(b, n), names);
  }

  /** A name and an unnamed suite, either way round. */
  lemma {:induction false} NameAndNumberRead(a: string, m: int, n: nat, names: Table)
    requires Unambiguous(names) && (a, m) in names
    ensures ReadSuites(Strip(a + " " + ("00-0f-ac:" + Decimal(n))), Ordered(names)) == [m, n]
    ensures ReadSuites(Strip("00-0f-ac:" + Decimal(n) + " " + a), Ordered(names)) == [n, m]
  {
    hide ReadSuites, Strip, Unambiguous, Decimal;
    TwoRead(Named(a, m), Unnamed(n), names);
    TwoRead(Unnamed(n), Named(a, m), names);
  }

  lemma {:induction false} NamesInTheTables()
    ensures ("SAE", 8) in AKM_NAMES && ("IEEE 802.1X/SHA-256", 5) in AKM_NAMES && ("PSK", 2) in AKM_NAMES
    ensures ("FT/SAE", 9) in AKM_NAMES && ("OWE", 18) in AKM_NAMES
    ensures ("CCMP", 4) in CIPHER_NAMES && ("TKIP", 2) in CIPHER_NAMES
  {
    assert AKM_NAMES[7] == ("SAE", 8) && AKM_NAMES[4] == ("IEEE 802.1X/SHA-256", 5) && AKM_NAMES[1] == ("PSK", 2);
    assert AKM_NAMES[8] == ("FT/SAE", 9) && AKM_NAMES[16] == ("OWE", 18);
    assert CIPHER_NAMES[3] == ("CCMP", 4) && CIPHER_NAMES[2] == ("TKIP", 2);
  }

  lemma {:induction false} TablesUsable()
    ensures Usable(AKM_NAMES) && Usable(CIPHER_NAMES)
  {
    hide Trimmed, HasOui;
    AkmTableUnambiguous();
    CipherTableUnambiguous();
    hide AKM_NAMES, CIPHER_NAMES;
    forall e | e in AKM_NAMES || e in CIPHER_NAMES
      ensures e.0 != []
    {
      assert Trimmed(e.0);
      TrimmedIsText(e.0);
    }
  }

  lemma {:induction false} TrimmedIsText(s: string)
    requires Trimmed(s)
    ensures s != []
  {
  }

  function ReadAkms(text: string): seq<int> {
    TablesUsable();
    hide AKM_NAMES;
    ReadSuites(Strip(text), Ordered(AKM_NAMES))
  }

  function ReadCiphers(text: string): seq<int> {
    TablesUsable();
    hide CIPHER_NAMES;
    ReadSuites(Strip(text), Ordered(CIPHER_NAMES))
  }

  /** What a scan's lists read as: known, unknown and spaced names. */
  lemma {:induction false} ScanReads()
    ensures ReadAkms("SAE" + " " + ("00-0f-ac:" + Decimal(24))) == [8, 24]
    ensures ReadAkms("IEEE 802.1X/SHA-256" + " " + "PSK") == [5, 2]
    ensures ReadAkms("FT/SAE" + " " + "OWE") == [9, 18]
    ensures ReadCiphers("CCMP" + " " + "TKIP") == [4, 2]
    ensures ReadCiphers("00-0f-ac:" + Decimal(9) + " " + "CCMP") == [9, 4]
  {
    hide ReadSuites, Strip, Decimal, Ordered, Unambiguous, AKM_NAMES, CIPHER_NAMES;
    AkmTableUnambiguous();
    CipherTableUnambiguous();
    NamesInTheTables();
    NameAndNumberRead("SAE", 8, 24, AKM_NAMES);
    NamesRead("IEEE 802.1X/SHA-256", 5, "PSK", 2, AKM_NAMES);
    NamesRead("FT/SAE", 9, "OWE", 18, AKM_NAMES);
    NamesRead("CCMP", 4, "TKIP", 2, CIPHER_NAMES);
    NameAndNumberRead("CCMP", 4, 9, CIPHER_NAMES);
  }

  lemma {:induction false} TwoRead(a: Suite, b: Suite, names: Table)
    requires Unambiguous(names) && Printable(a, names) && Printable(b, names)
    ensures ReadSuites(Strip(Printed(a) + " " + Printed(b)), Ordered(names)) == NumbersOf([a]) + NumbersOf([b])
  {
    hide ReadSuites, Strip, Unambiguous, Printable;
    SuitesUndoesJoin([a, b], names);
    assert [a, b][1..] == [b] && [a][1..] == [] && [b][1..] == [];
    assert Joined([a, b]) == Printed(a) + " " + Printed(b);
  }

  /** On any table and text, no name that fits is longer than the one that is taken. */
  lemma {:induction false} LongestNameIsTaken(s: string, names: Table, e: (string, int))
    requires FirstName(s, Ordered(names)) == Some(e)
    ensures e in names && NameAt(s, e.0)
    ensures forall d :: d in names && NameAt(s, d.0) ==> |d.0| <= |e.0|
  {
    hide NameAt;
    SortBySorted(names, LongerFirst);
    forall d | d in names && NameAt(s, d.0)
      ensures |d.0| <= |e.0|
    {
      FirstIsFirst(s, Ordered(names), d);
    }
  }

  lemma {:induction false} FirstIsFirst(s: string, ordered: Table, d: (string, int))
    requires SortedBy(ordered, LongerFirst) && d in ordered && NameAt(s, d.0)
    ensures FirstName(s, ordered).Some? && |d.0| <= |FirstName(s, ordered).value.0|
  {
    hide NameAt;
    if !NameAt(s, ordered[0].0) {
      assert d in ordered[1..];
      FirstIsFirst(s, ordered[1..], d);
    } else if d != ordered[0] {
      var i :| 0 < i < |ordered| && ordered[i] == d;
      assert LongerFirst(ordered[0], ordered[i]);
    }
  }
}
