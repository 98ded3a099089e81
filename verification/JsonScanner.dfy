/**
 * Cutting one JSON object out of console noise: a brace scanner that knows about strings.
 * Texts follow RFC 8259: section 2 for white space, section 4 for objects, section 7 for strings.
 */
module JsonScanner {
  import opened Common

  // ---- JSON texts ---------------------------------------------------------------------

  /** One character of a string, as written. */
  datatype Item = Raw(c: char) | Escape(c: char) | Unicode(hex: string)

  datatype Json =
    | Null
    | Bool(b: bool)
    | Number(text: string)
    | Str(items: seq<Item>)
    | Arr(elements: seq<Spaced>, blank: string)
    | Obj(members: seq<Member>, blank: string)
  /** A value and the white space around it. */
  datatype Spaced = Spaced(before: string, value: Json, after: string)
  datatype Member = Member(before: string, key: seq<Item>, mid: string, value: Spaced)

  predicate IsWs(s: string) { forall i :: 0 <= i < |s| ==> s[i] in {' ', '\t', '\n', '\r'} }

  predicate IsNumber(s: string) {
    forall i :: 0 <= i < |s| ==> '0' <= s[i] <= '9' || s[i] in {'+', '-', '.', 'e', 'E'}
  }

  predicate IsHex(c: char) { '0' <= c <= '9' || 'a' <= c <= 'f' || 'A' <= c <= 'F' }

  predicate ValidItem(item: Item) {
    match item
    case Raw(c) => c != '"' && c != '\\'
    case Escape(c) => c in {'"', '\\', '/', 'b', 'f', 'n', 'r', 't'}
    case Unicode(hex) => |hex| == 4 && forall i :: 0 <= i < 4 ==> IsHex(hex[i])
  }

  predicate ValidItems(items: seq<Item>) { forall i :: 0 <= i < |items| ==> ValidItem(items[i]) }

  predicate Valid(v: Json) {
    match v
    case Null => true
    case Bool(_) => true
    case Number(text) => IsNumber(text)
    case Str(items) => ValidItems(items)
    case Arr(elements, blank) => IsWs(blank) && forall i :: 0 <= i < |elements| ==> ValidSpaced(elements[i])
    case Obj(members, blank) => IsWs(blank) && forall i :: 0 <= i < |members| ==> ValidMember(members[i])
  }

  predicate ValidSpaced(s: Spaced) { IsWs(s.before) && Valid(s.value) && IsWs(s.after) }

  predicate ValidMember(m: Member) {
    IsWs(m.before) && ValidItems(m.key) && IsWs(m.mid) && ValidSpaced(m.value)
  }

  function PrintItem(item: Item): string {
    match item
    case Raw(c) => [c]
    case Escape(c) => ['\\', c]
    case Unicode(hex) => "\\u" + hex
  }

  function PrintItems(items: seq<Item>): string {
    if items == [] then [] else PrintItem(items[0]) + PrintItems(items[1..])
  }

  function PrintString(items: seq<Item>): string { "\"" + PrintItems(items) + "\"" }

  function Print(v: Json): string
    decreases v, 0
  {
    match v
    case Null => "null"
    case Bool(b) => if b then "true" else "false"
    case Number(text) => text
    case Str(items) => PrintString(items)
    case Arr(elements, blank) => "[" + blank + PrintElements(elements) + "]"
    case Obj(members, blank) => "{" + blank + PrintMembers(members) + "}"
  }

  function PrintSpaced(s: Spaced): string { s.before + Print(s.value) + s.after }

  function PrintElements(elements: seq<Spaced>): string {
    if elements == [] then []
    else PrintSpaced(elements[0]) + (if |elements| == 1 then "" else ",") + PrintElements(elements[1..])
  }

  function PrintMember(m: Member): string { m.before + PrintString(m.key) + m.mid + ":" + PrintSpaced(m.value) }

  function PrintMembers(members: seq<Member>): string {
    if members == [] then []
    else PrintMember(members[0]) + (if |members| == 1 then "" else ",") + PrintMembers(members[1..])
  }

  // What a text may be made of, as RFC 8259 has it: sections 2, 6 and 7.

  lemma {:induction false} BlanksAre(c: char)
    ensures IsWs([c]) <==> c in " \t\n\r"
  {
    assert [c][0] == c;
  }

  lemma {:induction false} DigitsAre(c: char)
    ensures IsNumber([c]) <==> c in "-+.eE0123456789"
    ensures IsHex(c) <==> c in "0123456789abcdefABCDEF"
  {
    assert [c][0] == c;
  }

  lemma {:induction false} ItemsAre(c: char, d: char)
    ensures ValidItem(Raw(c)) <==> c !in "\"\\"
    ensures ValidItem(Escape(c)) <==> c in "\"\\/bfnrt"
    ensures ValidItem(Unicode(['0', '0', c, d])) <==> IsHex(c) && IsHex(d)
  {
    var hex := ['0', '0', c, d];
    assert hex[2] == c && hex[3] == d && IsHex('0');
  }

  /** Every kind of value, with blanks in every place, is within what is scanned. */
  lemma {:induction false} SampleIsValid()
    ensures var key := [Raw('k'), Escape('n'), Unicode("00fF")];
      var numbers := Arr([Spaced(" ", Number("-1.5e+3"), "\n"), Spaced("", Null, ""), Spaced("\t", Bool(true), "")], " ");
      var inner := Obj([], " \r\n");
      Valid(Obj([Member(" ", key, " ", Spaced("", numbers, "")), Member("", [], "", Spaced(" ", inner, " ")),
                 Member("", key, "", Spaced("", Str(key), ""))], " "))
  {
  }

  // ---- the scanner --------------------------------------------------------------------

  datatype Scan = Scan(depth: int, inString: bool, escaped: bool)

  function Step(st: Scan, c: char): Scan {
    if st.inString then
      if st.escaped then st.(escaped := false)
      else if c == '\\' then st.(escaped := true)
      else if c == '"' then st.(inString := false)
      else st
    else if c == '"' then st.(inString := true)
    else if c == '{' then st.(depth := st.depth + 1)
    else if c == '}' then st.(depth := st.depth - 1)
    else st
  }

  /** The character that closes the object: a brace outside strings that brings the depth to zero. */
  predicate Closes(st: Scan, c: char) { !st.inString && c == '}' && st.depth == 1 }

  /** Braces count outside strings; a quote opens or closes a string unless a backslash in it stands ahead of it. */
  lemma {:induction false} StepIs(st: Scan, c: char)
    ensures Step(st, c).depth - st.depth == if st.inString || c !in "{}" then 0 else if c == '{' then 1 else -1
    ensures Step(st, c).inString == st.inString <==> c != '"' || (st.inString && st.escaped)
    ensures !st.escaped ==> (Step(st, c).escaped <==> st.inString && c == '\\')
    ensures st.escaped ==> (Step(st, c).escaped <==> !st.inString)
  {
  }

  function RunOver(st: Scan, text: string): Scan
    decreases |text|
  {
    if text == [] then st else RunOver(Step(st, text[0]), text[1..])
  }

  /** Where the first closing brace is, if there is one. */
  function FindEnd(st: Scan, text: string): (r: Option<nat>)
    ensures r.Some? ==> r.value < |text| && text[r.value] == '}'
    decreases |text|
  {
    if text == [] then None
    else if Closes(st, text[0]) then Some(0)
    else
      var rest := FindEnd(Step(st, text[0]), text[1..]);
      if rest.None? then None else Some(rest.value + 1)
  }

  function FindOpen(text: string): (r: Option<nat>)
    ensures r.Some? ==> r.value < |text| && text[r.value] == '{' && '{' !in text[..r.value]
    ensures r.None? <==> '{' !in text
  {
    if text == [] then None
    else if text[0] == '{' then Some(0)
    else
      assert text == [text[0]] + text[1..];
      var rest := FindOpen(text[1..]);
      if rest.None? then None
      else
        assert text[..rest.value + 1] == [text[0]] + text[1..][..rest.value];
        Some(rest.value + 1)
  }

  const START: Scan := Scan(0, false, false)

  function Extract(text: string): Option<string> {
    var start := FindOpen(text);
    if start.None? then None
    else
      var end := FindEnd(START, text[start.value..]);
      if end.None? then None else Some(text[start.value..][..end.value + 1])
  }

  // ---- scanning a text in parts -------------------------------------------------------

  lemma {:induction false} RunOverConcat(st: Scan, a: string, b: string)
    ensures RunOver(st, a + b) == RunOver(RunOver(st, a), b)
    decreases |a|
  {
    if a == [] {
      assert a + b == b;
    } else {
      assert (a + b)[1..] == a[1..] + b;
      RunOverConcat(Step(st, a[0]), a[1..], b);
    }
  }

  lemma {:induction false} FindEndConcat(st: Scan, a: string, b: string)
    ensures FindEnd(st, a + b) ==
            if FindEnd(st, a).Some? then FindEnd(st, a)
            else if FindEnd(RunOver(st, a), b).Some? then Some(|a| + FindEnd(RunOver(st, a), b).value)
            else None
    decreases |a|
  {
    if a == [] {
      assert a + b == b;
    } else {
      assert (a + b)[1..] == a[1..] + b;
      FindEndConcat(Step(st, a[0]), a[1..], b);
    }
  }

  /** At depth `d`, outside strings, the text changes nothing and closes nothing. */
  ghost predicate Neutral(text: string, d: nat) {
    FindEnd(Scan(d, false, false), text).None? && RunOver(Scan(d, false, false), text) == Scan(d, false, false)
  }

  lemma {:induction false} NeutralConcat(a: string, b: string, d: nat)
    requires Neutral(a, d) && Neutral(b, d)
    ensures Neutral(a + b, d)
  {
    RunOverConcat(Scan(d, false, false), a, b);
    FindEndConcat(Scan(d, false, false), a, b);
  }

  predicate Quiet(text: string) {
    forall i :: 0 <= i < |text| ==> text[i] != '"' && text[i] != '{' && text[i] != '}'
  }

  lemma {:induction false} QuietIsNeutral(text: string, d: nat)
    requires Quiet(text)
    ensures Neutral(text, d)
  {
    if text != [] {
      assert forall i :: 0 <= i < |text[1..]| ==> text[1..][i] == text[i + 1];
      QuietIsNeutral(text[1..], d);
    }
  }

  /** Inside a string, a valid item is passed over whatever it spells. */
  lemma {:induction false} ItemStaysInside(item: Item, d: nat)
    requires ValidItem(item)
    ensures var st := Scan(d, true, false);
            FindEnd(st, PrintItem(item)).None? && RunOver(st, PrintItem(item)) == st
  {
    var st := Scan(d, true, false);
    match item
    case Raw(c) =>
      assert [c][1..] == [];
    case Escape(c) =>
      PairStaysInside(c, d);
    case Unicode(hex) =>
      PairStaysInside('u', d);
      HexStaysInside(hex, d);
      assert PrintItem(item) == ['\\', 'u'] + hex;
      RunOverConcat(st, ['\\', 'u'], hex);
      FindEndConcat(st, ['\\', 'u'], hex);
  }

  lemma {:induction false} PairStaysInside(c: char, d: nat)
    ensures var st := Scan(d, true, false);
            FindEnd(st, ['\\', c]).None? && RunOver(st, ['\\', c]) == st
  {
    assert ['\\', c][1..] == [c] && [c][1..] == [];
    var st := Scan(d, true, true);
    assert RunOver(st, [c]) == RunOver(Step(st, c), []);
    assert FindEnd(st, [c]).None?;
  }

  lemma {:induction false} HexStaysInside(hex: string, d: nat)
    requires forall i :: 0 <= i < |hex| ==> IsHex(hex[i])
    ensures var st := Scan(d, true, false);
            FindEnd(st, hex).None? && RunOver(st, hex) == st
  {
    if hex != [] {
      HexStaysInside(hex[1..], d);
    }
  }

  lemma {:induction false} ItemsStayInside(items: seq<Item>, d: nat)
    requires ValidItems(items)
    ensures var st := Scan(d, true, false);
            FindEnd(st, PrintItems(items)).None? && RunOver(st, PrintItems(items)) == st
  {
    if items != [] {
      ItemStaysInside(items[0], d);
      ItemsStayInside(items[1..], d);
      RunOverConcat(Scan(d, true, false), PrintItem(items[0]), PrintItems(items[1..]));
      FindEndConcat(Scan(d, true, false), PrintItem(items[0]), PrintItems(items[1..]));
    }
  }

  lemma {:induction false} QuoteToggles(d: nat, inside: bool)
    ensures RunOver(Scan(d, inside, false), "\"") == Scan(d, !inside, false)
    ensures FindEnd(Scan(d, inside, false), "\"").None?
  {
    assert "\""[1..] == [];
  }

  /** A printed string is passed over, whatever quotes, braces and escapes it holds. */
  lemma {:induction false} StringIsNeutral(items: seq<Item>, d: nat)
    requires ValidItems(items)
    ensures Neutral(PrintString(items), d)
  {
    var st, body := Scan(d, false, false), PrintItems(items);
    QuoteToggles(d, false);
    QuoteToggles(d, true);
    ItemsStayInside(items, d);
    RunOverConcat(st, "\"", body);
    FindEndConcat(st, "\"", body);
    RunOverConcat(st, "\"" + body, "\"");
    FindEndConcat(st, "\"" + body, "\"");
  }

  /** A braced text, one level down and back. */
  lemma {:induction false} BracedScan(body: string, d: nat)
    requires Neutral(body, d + 1)
    ensures RunOver(Scan(d, false, false), "{" + body + "}") == Scan(d, false, false)
    ensures FindEnd(Scan(d, false, false), "{" + body + "}") == if d == 0 then Some(|body| + 1) else None
  {
    hide RunOver, FindEnd, Step;
    var st := Scan(d, false, false);
    BraceSteps(d);
    RunOverConcat(st, "{", body);
    FindEndConcat(st, "{", body);
    RunOverConcat(st, "{" + body, "}");
    FindEndConcat(st, "{" + body, "}");
  }

  lemma {:induction false} BraceSteps(d: nat)
    ensures var st, inner := Scan(d, false, false), Scan(d + 1, false, false);
      && RunOver(st, "{") == inner && FindEnd(st, "{").None?
      && RunOver(inner, "}") == st && FindEnd(inner, "}") == if d == 0 then Some(0) else None
  {
    var st, inner := Scan(d, false, false), Scan(d + 1, false, false);
    assert "{"[1..] == [] && "}"[1..] == [];
    assert RunOver(st, "{") == RunOver(Step(st, '{'), []) == inner;
    assert FindEnd(inner, "{"[1..]).None?;
    assert RunOver(inner, "}") == RunOver(Step(inner, '}'), []) == st;
    assert FindEnd(st, "}"[1..]).None?;
  }

  lemma {:induction false} PrintIsNeutral(v: Json, d: nat)
    requires Valid(v) && d > 0
    ensures Neutral(Print(v), d)
    decreases v, 0
  {
    match v
    case Null => QuietIsNeutral("null", d);
    case Bool(b) => QuietIsNeutral(if b then "true" else "false", d);
    case Number(text) => QuietIsNeutral(text, d);
    case Str(items) => StringIsNeutral(items, d);
    case Arr(elements, blank) =>
      QuietIsNeutral("[" + blank, d);
      ElementsAreNeutral(elements, d);
      QuietIsNeutral("]", d);
      NeutralConcat("[" + blank, PrintElements(elements), d);
      NeutralConcat("[" + blank + PrintElements(elements), "]", d);
    case Obj(members, blank) =>
      BodyIsNeutral(members, blank, d + 1);
      BracedScan(blank + PrintMembers(members), d);
      assert "{" + (blank + PrintMembers(members)) + "}" == Print(v);
  }

  lemma {:induction false} BodyIsNeutral(members: seq<Member>, blank: string, d: nat)
    requires IsWs(blank) && (forall i :: 0 <= i < |members| ==> ValidMember(members[i])) && d > 0
    ensures Neutral(blank + PrintMembers(members), d)
    decreases members, 1
  {
    QuietIsNeutral(blank, d);
    MembersAreNeutral(members, d);
    NeutralConcat(blank, PrintMembers(members), d);
  }

  lemma {:induction false} SpacedIsNeutral(s: Spaced, d: nat)
    requires ValidSpaced(s) && d > 0
    ensures Neutral(PrintSpaced(s), d)
    decreases s, 0
  {
    QuietIsNeutral(s.before, d);
    PrintIsNeutral(s.value, d);
    QuietIsNeutral(s.after, d);
    NeutralConcat(s.before, Print(s.value), d);
    NeutralConcat(s.before + Print(s.value), s.after, d);
  }

  lemma {:induction false} ElementsAreNeutral(elements: seq<Spaced>, d: nat)
    requires (forall i :: 0 <= i < |elements| ==> ValidSpaced(elements[i])) && d > 0
    ensures Neutral(PrintElements(elements), d)
    decreases elements, 0
  {
    if elements != [] {
      var sep := if |elements| == 1 then "" else ",";
      SpacedIsNeutral(elements[0], d);
      QuietIsNeutral(sep, d);
      ElementsAreNeutral(elements[1..], d);
      NeutralConcat(PrintSpaced(elements[0]), sep, d);
      NeutralConcat(PrintSpaced(elements[0]) + sep, PrintElements(elements[1..]), d);
    }
  }

  lemma {:induction false} MemberIsNeutral(m: Member, d: nat)
    requires ValidMember(m) && d > 0
    ensures Neutral(PrintMember(m), d)
    decreases m, 0
  {
    QuietIsNeutral(m.before, d);
    StringIsNeutral(m.key, d);
    QuietIsNeutral(m.mid, d);
    QuietIsNeutral(":", d);
    SpacedIsNeutral(m.value, d);
    NeutralConcat(m.before, PrintString(m.key), d);
    NeutralConcat(m.before + PrintString(m.key), m.mid, d);
    NeutralConcat(m.before + PrintString(m.key) + m.mid, ":", d);
    NeutralConcat(m.before + PrintString(m.key) + m.mid + ":", PrintSpaced(m.value), d);
  }

  lemma {:induction false} MembersAreNeutral(members: seq<Member>, d: nat)
    requires (forall i :: 0 <= i < |members| ==> ValidMember(members[i])) && d > 0
    ensures Neutral(PrintMembers(members), d)
    decreases members, 0
  {
    if members != [] {
      var sep := if |members| == 1 then "" else ",";
      MemberIsNeutral(members[0], d);
      QuietIsNeutral(sep, d);
      MembersAreNeutral(members[1..], d);
      NeutralConcat(PrintMember(members[0]), sep, d);
      NeutralConcat(PrintMember(members[0]) + sep, PrintMembers(members[1..]), d);
    }
  }

  // ---- scanner undoes printer ---------------------------------------------------------

  lemma {:induction false} ObjectEndsItself(v: Json)
    requires Valid(v) && v.Obj?
    ensures FindEnd(START, Print(v)) == Some(|Print(v)| - 1)
    ensures Print(v)[0] == '{'
  {
    var body := v.blank + PrintMembers(v.members);
    assert "{" + body + "}" == Print(v) && |Print(v)| == |body| + 2;
    BodyIsNeutral(v.members, v.blank, 1);
    BracedScan(body, 0);
  }

  lemma {:induction false} FindOpenAfter(noise: string, text: string)
    requires '{' !in noise && text != [] && text[0] == '{'
    ensures FindOpen(noise + text) == Some(|noise|)
  {
    if noise == [] {
      assert noise + text == text;
    } else {
      assert (noise + text)[1..] == noise[1..] + text && (noise + text)[0] == noise[0];
      assert noise[0] in noise;
      FindOpenAfter(noise[1..], text);
    }
  }

  /** Whatever comes before without a brace, and whatever follows, the printed object is cut out exactly. */
  lemma {:induction false} ExtractUndoesPrint(v: Json, noise: string, rest: string)
    requires Valid(v) && v.Obj? && '{' !in noise
    ensures Extract(noise + Print(v) + rest) == Some(Print(v))
  {
    var text := Print(v) + rest;
    ObjectEndsItself(v);
    FindOpenAfter(noise, text);
    assert noise + Print(v) + rest == noise + text;
    assert (noise + text)[|noise|..] == text;
    FindEndConcat(START, Print(v), rest);
    assert text[..|Print(v)|] == Print(v);
  }

  /** A reply cut off anywhere before its last brace yields nothing. */
  lemma {:induction false} TruncatedYieldsNothing(v: Json, noise: string, k: nat)
    requires Valid(v) && v.Obj? && '{' !in noise && k < |Print(v)|
    ensures Extract(noise + Print(v)[..k]) == None
  {
    var part, rest := Print(v)[..k], Print(v)[k..];
    ObjectEndsItself(v);
    assert Print(v) == part + rest;
    FindEndConcat(START, part, rest);
    if k == 0 {
      assert noise + part == noise;
    } else {
      FindOpenAfter(noise, part);
      assert (noise + part)[|noise|..] == part;
    }
  }

  /** What a result means for any input: the text from its first brace to the first point where braces balance. */
  lemma {:induction false} ExtractIsFirstBalanced(text: string)
    ensures Extract(text).Some? ==>
              var r, at := Extract(text).value, FindOpen(text);
              && at.Some? && at.value + |r| <= |text| && r == text[at.value..at.value + |r|]
              && RunOver(START, r) == START
              && forall k :: 0 < k < |r| ==> RunOver(START, r[..k]) != START
    ensures Extract(text).None? && FindOpen(text).Some? ==>
              forall k :: FindOpen(text).value < k <= |text| ==> RunOver(START, text[FindOpen(text).value..k]) != START
  {
    hide RunOver, Step, FindEnd, FindOpen;
    var at := FindOpen(text);
    if at.Some? {
      var t := text[at.value..];
      forall k | 0 < k <= |t|
        ensures FindEnd(START, t[..k]).None? ==> RunOver(START, t[..k]) != START
      {
        DepthStaysUp(t, k);
      }
      var end := FindEnd(START, t);
      if end.Some? {
        var r := t[..end.value + 1];
        ReachesStart(t);
        forall k | 0 < k < |r|
          ensures RunOver(START, r[..k]) != START
        {
          assert r[..k] == t[..k];
          BeforeEndNothing(START, t, k);
        }
      } else {
        forall k | at.value < k <= |text|
          ensures RunOver(START, text[at.value..k]) != START
        {
          assert text[at.value..k] == t[..k - at.value];
          BeforeEndNothing(START, t, k - at.value);
        }
      }
    }
  }

  lemma {:induction false} BeforeEndNothing(st: Scan, t: string, k: nat)
    requires k <= |t| && (FindEnd(st, t).None? || k <= FindEnd(st, t).value)
    ensures FindEnd(st, t[..k]).None?
  {
    assert t == t[..k] + t[k..];
    FindEndConcat(st, t[..k], t[k..]);
  }

  /** Until something closes the object, an opened text is at depth one or more, or inside a string. */
  lemma {:induction false} DepthStaysUp(t: string, k: nat)
    requires t != [] && t[0] == '{' && 0 < k <= |t|
    ensures FindEnd(START, t[..k]).None? ==> RunOver(START, t[..k]).depth >= 1
  {
    var p := t[..k];
    assert p[0] == '{' && p == ["{"[0]] + p[1..];
    OpenStaysOpen(Scan(1, false, false), p[1..]);
  }

  lemma {:induction false} OpenStaysOpen(st: Scan, t: string)
    requires st.depth >= 1
    ensures FindEnd(st, t).None? ==> RunOver(st, t).depth >= 1
    decreases |t|
  {
    if t != [] && !Closes(st, t[0]) {
      OpenStaysOpen(Step(st, t[0]), t[1..]);
    }
  }

  lemma {:induction false} ReachesStart(t: string)
    requires t != [] && t[0] == '{' && FindEnd(START, t).Some?
    ensures RunOver(START, t[..FindEnd(START, t).value + 1]) == START
  {
    EndClosesAt(START, t);
  }

  /** The scan over everything up to a found end stops outside strings at depth zero. */
  lemma {:induction false} EndClosesAt(st: Scan, t: string)
    requires FindEnd(st, t).Some? && (st.inString || !st.escaped)
    ensures RunOver(st, t[..FindEnd(st, t).value + 1]) == Scan(0, false, false)
    decreases |t|
  {
    var end := FindEnd(st, t).value;
    var p := t[..end + 1];
    assert p[1..] == t[1..][..end];
    if Closes(st, t[0]) {
      assert p[1..] == [];
      assert RunOver(st, p) == RunOver(Step(st, p[0]), []);
    } else {
      EndClosesAt(Step(st, t[0]), t[1..]);
    }
  }

  lemma {:induction false} CutAt(s: string, a: nat, b: nat)
    requires a <= b <= |s|
    ensures s[a..] == s[a..b] + s[b..]
  {
  }

  /** One more character of the scan. */
  lemma {:induction false} ScanOneMore(seen: string, c: char)
    requires FindEnd(START, seen).None?
    ensures var st := RunOver(START, seen);
      && RunOver(START, seen + [c]) == Step(st, c)
      && FindEnd(START, seen + [c]) == if Closes(st, c) then Some(|seen|) else None
  {
    hide Step, Closes;
    var st := RunOver(START, seen);
    assert [c][1..] == [];
    FindEndConcat(START, seen, [c]);
    RunOverConcat(START, seen, [c]);
    assert RunOver(st, [c]) == RunOver(Step(st, c), [c][1..]);
    assert FindEnd(Step(st, c), [c][1..]).None?;
  }

  lemma {:induction false} EndInPrefix(text: string, from: nat, to: nat)
    requires from < to <= |text| && FindEnd(START, text[from..to]) == Some(to - 1 - from)
    ensures FindEnd(START, text[from..]) == Some(to - 1 - from)
  {
    hide FindEnd, RunOver;
    CutAt(text, from, to);
    FindEndConcat(START, text[from..to], text[to..]);
  }

  /** The loop over indices, as the program runs it. */
  method ExtractJsonObject(text: string) returns (r: Option<string>)
    ensures r == Extract(text)
  {
    hide FindEnd, RunOver, Step, Closes, FindOpen;
    var start := FindOpen(text);
    if start.None? {
      return None;
    }
    var from := start.value;
    var st := START;
    var index := from;
    NothingScanned();
    assert text[from..from] == [];
    while index < |text|
      invariant from <= index <= |text|
      invariant FindEnd(START, text[from..index]).None? && RunOver(START, text[from..index]) == st
    {
      var c := text[index];
      ScanOneMore(text[from..index], c);
      assert text[from..index + 1] == text[from..index] + [c];
      if Closes(st, c) {
        EndInPrefix(text, from, index + 1);
        assert text[from..][..index + 1 - from] == text[from..index + 1];
        return Some(text[from..index + 1]);
      }
      st := Step(st, c);
      index := index + 1;
    }
    assert text[from..index] == text[from..];
    return None;
  }

  lemma {:induction false} NothingScanned()
    ensures FindEnd(START, []).None? && RunOver(START, []) == START
  {
  }
}
