/** The file names a survey directory is read by: `site-survey-<dut>-<stamp>.json|csv` and `site-survey-<dut>.empty.json`. */
module SurveyNames {
  import opened Common
  import opened Sorting
  import opened Text

  datatype Extension = Json | Csv
  datatype Parsed = Parsed(dut: string, stamp: string, ext: Extension)

  const PREFIX := "site-survey-"
  const EMPTY_SUFFIX := ".empty.json"

  function Suffix(ext: Extension): string {
    match ext
    case Json => ".json"
    case Csv => ".csv"
  }

  /** `YYYYmmdd-HHMMSS`, as far as the pattern looks: eight digits, a hyphen, six digits. */
  predicate IsStamp(s: string) {
    |s| == 15 && s[8] == '-' && AllDigits(s[..8]) && AllDigits(s[9..])
  }

  /** What a `.+` in a pattern takes. */
  predicate IsDutPart(s: string) { s != [] && '\n' !in s }

  predicate IsIdChar(c: char) { 'a' <= c <= 'z' || IsDigit(c) || c == '_' || c == '-' }

  /** The ids the registry's pattern is for: lower case, digits, `_` and `-`, the first no punctuation, at most 32. */
  predicate IsDutId(s: string) {
    1 <= |s| <= 32 && s[0] != '_' && s[0] != '-' && forall i :: 0 <= i < |s| ==> IsIdChar(s[i])
  }

  /** The ids the registry admits: a match against that pattern may also end before a last line break. */
  predicate IsAdmitted(s: string) { IsDutId(s) || (s != [] && s[|s| - 1] == '\n' && IsDutId(s[..|s| - 1])) }

  function SnapshotName(dut: string, stamp: string, ext: Extension): string {
    PREFIX + dut + "-" + stamp + Suffix(ext)
  }

  function EmptyName(dut: string): string { PREFIX + dut + EMPTY_SUFFIX }

  predicate EndsWith(s: string, t: string) { |t| <= |s| && s[|s| - |t|..] == t }

  /** What is between the prefix and a suffix. */
  function Between(name: string, suffix: string): Option<string> {
    if |PREFIX| + |suffix| <= |name| && name[..|PREFIX|] == PREFIX && EndsWith(name, suffix)
      then Some(name[|PREFIX|..|name| - |suffix|]) else None
  }

  /** The stamp anchors the split, so a hyphenated id is no obstacle. */
  function ParseBody(body: string, ext: Extension): Option<Parsed> {
    if |body| < 17 then None
    else
      var cut := |body| - 15;
      if IsStamp(body[cut..]) && body[cut - 1] == '-' && IsDutPart(body[..cut - 1])
        then Some(Parsed(body[..cut - 1], body[cut..], ext)) else None
  }

  function ParseSnapshot(name: string): Option<Parsed> {
    var json := Between(name, Suffix(Json));
    if json.Some? then ParseBody(json.value, Json)
    else
      var csv := Between(name, Suffix(Csv));
      if csv.Some? then ParseBody(csv.value, Csv) else None
  }

  function ParseEmpty(name: string): Option<string> {
    var dut := Between(name, EMPTY_SUFFIX);
    if dut.Some? && IsDutPart(dut.value) then dut else None
  }

  // ---- names and what they are read as ------------------------------------------------

  lemma {:induction false} IdIsDutPart(s: string)
    requires IsDutId(s)
    ensures IsDutPart(s)
  {
    assert !IsIdChar('\n');
    assert forall i :: 0 <= i < |s| ==> s[i] != '\n';
  }

  /** The characters of an id, and the ids: one to thirty-two of them, neither `_` nor `-` in front. */
  lemma {:induction false} DutIdIff(s: string)
    ensures IsDutId(s) <==>
      && 0 < |s| < 33 && !(s[0] in "_-")
      && forall i :: 0 <= i < |s| ==> s[i] in "-_" || '0' <= s[i] <= '9' || 'a' <= s[i] <= 'z'
  {
  }

  /** What is admitted: an id, with or without one line break behind it. */
  lemma {:induction false} AdmittedIff(s: string)
    ensures IsAdmitted(s) <==> exists id :: IsDutId(id) && (s == id || s == id + "\n")
  {
    hide IsDutId;
    if s != [] && s[|s| - 1] == '\n' {
      assert s == s[..|s| - 1] + "\n";
    }
    forall id | IsDutId(id) && s == id + "\n"
      ensures s[..|s| - 1] == id && s[|s| - 1] == '\n'
    {
    }
  }

  /** The names as they stand in the directory. */
  lemma {:induction false} SnapshotNames()
    ensures SnapshotName("lab2", "20260101-000000", Json) == "site-survey-lab2-20260101-000000.json"
  {
  }

  lemma {:induction false} OtherNames()
    ensures Suffix(Csv) == ".csv" && EmptyName("lab2") == "site-survey-lab2.empty.json"
  {
  }

  /** An admitted id can stand in a file name exactly when it carries no line break. */
  lemma {:induction false} AdmittedIsDutPartIff(s: string)
    requires IsAdmitted(s)
    ensures IsDutPart(s) <==> IsDutId(s)
  {
    if IsDutId(s) {
      IdIsDutPart(s);
    } else {
      assert s[|s| - 1] in s;
    }
  }

  lemma {:induction false} BetweenOf(middle: string, suffix: string)
    ensures Between(PREFIX + middle + suffix, suffix) == Some(middle)
  {
    var name := PREFIX + middle + suffix;
    assert name[|name| - |suffix|..] == suffix;
    assert name[..|PREFIX|] == PREFIX;
    assert name[|PREFIX|..|name| - |suffix|] == middle;
  }

  lemma {:induction false} BetweenIs(name: string, suffix: string)
    requires Between(name, suffix).Some?
    ensures name == PREFIX + Between(name, suffix).value + suffix
  {
    var a, b := |PREFIX|, |name| - |suffix|;
    assert name == name[..a] + name[a..b] + name[b..];
  }

  lemma {:induction false} SuffixesDiffer(name: string)
    ensures !(EndsWith(name, Suffix(Json)) && EndsWith(name, Suffix(Csv)))
    ensures EndsWith(name, EMPTY_SUFFIX) ==> EndsWith(name, Suffix(Json)) && |name| >= 11 && name[|name| - 6] == 'y'
  {
    if EndsWith(name, Suffix(Json)) {
      assert name[|name| - 1] == name[|name| - 5..][4] == 'n';
    }
    if EndsWith(name, Suffix(Csv)) {
      assert name[|name| - 1] == name[|name| - 4..][3] == 'v';
    }
    if EndsWith(name, EMPTY_SUFFIX) {
      assert name[|name| - 11..] == EMPTY_SUFFIX;
      assert name[|name| - 6] == EMPTY_SUFFIX[5];
      assert name[|name| - 5..] == name[|name| - 11..][6..] == ".json";
    }
  }

  lemma {:induction false} BodyParses(dut: string, stamp: string, ext: Extension)
    requires IsDutPart(dut) && IsStamp(stamp)
    ensures ParseBody(dut + "-" + stamp, ext) == Some(Parsed(dut, stamp, ext))
  {
    var body := dut + "-" + stamp;
    var cut := |body| - 15;
    assert body[cut..] == stamp && body[..cut - 1] == dut && body[cut - 1] == '-';
  }

  /** A written name reads back as exactly its device, stamp and kind, however many hyphens or digits the id has. */
  lemma {:induction false} ParseUndoesName(dut: string, stamp: string, ext: Extension)
    requires IsDutPart(dut) && IsStamp(stamp)
    ensures ParseSnapshot(SnapshotName(dut, stamp, ext)) == Some(Parsed(dut, stamp, ext))
  {
    var body := dut + "-" + stamp;
    var name := PREFIX + body + Suffix(ext);
    assert SnapshotName(dut, stamp, ext) == name;
    BetweenOf(body, Suffix(ext));
    BodyParses(dut, stamp, ext);
    SuffixesDiffer(name);
  }

  /** A name written for an id that cannot stand in one reads as nothing. */
  lemma {:induction false} StrayName(dut: string, stamp: string, ext: Extension)
    requires !IsDutPart(dut) && IsStamp(stamp)
    ensures ParseSnapshot(SnapshotName(dut, stamp, ext)) == None
    ensures ParseEmpty(SnapshotName(dut, stamp, ext)) == None
  {
    hide IsDutPart, IsDigit;
    var body := dut + "-" + stamp;
    var name := PREFIX + body + Suffix(ext);
    assert SnapshotName(dut, stamp, ext) == name;
    BetweenOf(body, Suffix(ext));
    SuffixesDiffer(name);
    if dut != [] {
      var cut := |body| - 15;
      assert body[cut..] == stamp && body[..cut - 1] == dut;
    }
    LastOfStamp(dut, stamp, ext);
  }

  /** The character ahead of the suffix is a digit, so the name is no tombstone's. */
  lemma {:induction false} LastOfStamp(dut: string, stamp: string, ext: Extension)
    requires IsStamp(stamp)
    ensures !EndsWith(SnapshotName(dut, stamp, ext), EMPTY_SUFFIX)
  {
    var name := SnapshotName(dut, stamp, ext);
    SuffixesDiffer(name);
    assert stamp[14] == stamp[9..][5];
    assert name[|name| - |Suffix(ext)|..] == Suffix(ext);
    if ext == Json {
      assert name[|name| - 6] == stamp[14];
    }
  }

  lemma {:induction false} StrayEmptyName(dut: string)
    requires !IsDutPart(dut)
    ensures ParseEmpty(EmptyName(dut)) == None && ParseSnapshot(EmptyName(dut)) == None
  {
    BetweenOf(dut, EMPTY_SUFFIX);
    var name := EmptyName(dut);
    assert name[|name| - |EMPTY_SUFFIX|..] == EMPTY_SUFFIX;
    TombstoneIsNoSnapshot(name);
  }

  lemma {:induction false} BodyUndoes(body: string, ext: Extension)
    requires ParseBody(body, ext).Some?
    ensures var p := ParseBody(body, ext).value;
      body == p.dut + "-" + p.stamp && p.ext == ext && IsDutPart(p.dut) && IsStamp(p.stamp)
  {
    hide IsDutPart, IsStamp;
    var cut := |body| - 15;
    assert body == body[..cut - 1] + [body[cut - 1]] + body[cut..];
  }

  /** And a name that reads back is the name that would be written. */
  lemma {:induction false} NameUndoesParse(name: string)
    requires ParseSnapshot(name).Some?
    ensures var p := ParseSnapshot(name).value;
      name == SnapshotName(p.dut, p.stamp, p.ext) && IsDutPart(p.dut) && IsStamp(p.stamp)
  {
    hide IsDutPart, IsStamp, ParseBody, Between;
    var ext := if Between(name, Suffix(Json)).Some? then Json else Csv;
    var body := Between(name, Suffix(ext)).value;
    assert ParseSnapshot(name) == ParseBody(body, ext);
    BodyUndoes(body, ext);
    BetweenIs(name, Suffix(ext));
    var p := ParseSnapshot(name).value;
    assert name == PREFIX + (p.dut + "-" + p.stamp) + Suffix(ext);
  }

  /** No tombstone ever reads as a snapshot, whatever the device is called. */
  lemma {:induction false} TombstoneIsNoSnapshot(name: string)
    requires EndsWith(name, EMPTY_SUFFIX)
    ensures ParseSnapshot(name).None?
  {
    SuffixesDiffer(name);
    var body := Between(name, Suffix(Json));
    if body.Some? && |body.value| >= 17 {
      assert body.value[|body.value| - 1] == name[|name| - 6];
      assert body.value[|body.value| - 15..][9..][5] == 'y';
    }
  }

  /** And no snapshot as a tombstone. */
  lemma {:induction false} SnapshotIsNoTombstone(name: string)
    requires ParseSnapshot(name).Some?
    ensures ParseEmpty(name).None?
  {
    if EndsWith(name, EMPTY_SUFFIX) {
      TombstoneIsNoSnapshot(name);
      assert false;
    }
  }

  lemma {:induction false} EmptyParses(dut: string)
    requires IsDutPart(dut)
    ensures ParseEmpty(EmptyName(dut)) == Some(dut)
    ensures ParseSnapshot(EmptyName(dut)).None?
  {
    BetweenOf(dut, EMPTY_SUFFIX);
    var name := EmptyName(dut);
    assert name[|name| - |EMPTY_SUFFIX|..] == EMPTY_SUFFIX;
    TombstoneIsNoSnapshot(name);
  }

  lemma {:induction false} EmptyNamesDiffer(a: string, b: string)
    requires EmptyName(a) == EmptyName(b)
    ensures a == b
  {
    BetweenOf(a, EMPTY_SUFFIX);
    BetweenOf(b, EMPTY_SUFFIX);
  }

  // ---- stamps are moments -------------------------------------------------------------

  /** The day and the time of day, as the numbers `YYYYmmdd` and `HHMMSS`. */
  function MomentOf(stamp: string): (nat, nat)
    requires IsStamp(stamp)
  {
    (NumberOf(stamp[..8]), NumberOf(stamp[9..]))
  }

  predicate Earlier(a: (nat, nat), b: (nat, nat)) { a.0 < b.0 || (a.0 == b.0 && a.1 < b.1) }

  lemma {:induction false} StrLeLast(a: string, c: char, b: string, d: char)
    requires |a| == |b|
    ensures StrLe(a + [c], b + [d]) <==> (if a == b then c <= d else StrLe(a, b))
  {
    if a == [] {
      assert a + [c] == [c] && b + [d] == [d] && [c][1..] == [] && [d][1..] == [];
    } else {
      assert (a + [c])[1..] == a[1..] + [c] && (b + [d])[1..] == b[1..] + [d];
      StrLeLast(a[1..], c, b[1..], d);
      assert a == [a[0]] + a[1..] && b == [b[0]] + b[1..];
    }
  }

  /** Texts of as many digits are ordered as their numbers. */
  lemma {:induction false} DigitsInOrder(a: string, b: string)
    requires |a| == |b| && AllDigits(a) && AllDigits(b)
    ensures StrLe(a, b) <==> NumberOf(a) <= NumberOf(b)
    ensures a == b <==> NumberOf(a) == NumberOf(b)
  {
    if a != [] {
      var x, c, y, d := a[..|a| - 1], a[|a| - 1], b[..|b| - 1], b[|b| - 1];
      DigitsInOrder(x, y);
      assert a == x + [c] && b == y + [d];
      StrLeLast(x, c, y, d);
    }
  }

  lemma {:induction false} StrLeConcat(a: string, x: string, b: string, y: string)
    requires |a| == |b|
    ensures StrLe(a + x, b + y) <==> (if a == b then StrLe(x, y) else StrLe(a, b))
  {
    if a == [] {
      assert a + x == x && b + y == y;
    } else {
      assert (a + x)[1..] == a[1..] + x && (b + y)[1..] == b[1..] + y;
      StrLeConcat(a[1..], x, b[1..], y);
      assert a == [a[0]] + a[1..] && b == [b[0]] + b[1..];
    }
  }

  /** One stamp is ahead of another as a text exactly when it is the earlier moment. */
  lemma {:induction false} StampsInOrder(a: string, b: string)
    requires IsStamp(a) && IsStamp(b)
    ensures StrLe(a, b) && a != b <==> Earlier(MomentOf(a), MomentOf(b))
    ensures StrLe(a, b) <==> !Earlier(MomentOf(b), MomentOf(a))
    ensures a == b <==> MomentOf(a) == MomentOf(b)
  {
    assert a == a[..8] + ("-" + a[9..]) && b == b[..8] + ("-" + b[9..]);
    StrLeConcat(a[..8], "-" + a[9..], b[..8], "-" + b[9..]);
    StrLeConcat("-", a[9..], "-", b[9..]);
    DigitsInOrder(a[..8], b[..8]);
    DigitsInOrder(a[9..], b[9..]);
  }
}
