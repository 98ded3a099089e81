/** Running rules over decoded rows and collapsing what they say into findings. */
module Findings {
  import opened Common
  import opened Sorting
  import opened BeaconSecurity
  import Text

  datatype Severity = Fail | Warn | Info

  /** What a rule says about one row, or about one group of rows. */
  datatype Verdict = Verdict(severity: Severity, message: string)
  datatype GroupVerdict = GroupVerdict(severity: Severity, message: string, frames: seq<int>)

  datatype Finding = Finding(rule: string, severity: Severity, message: string, group: Option<string>, frames: seq<int>)

  /** One thing some rule said, before collapsing. */
  datatype Raised = Raised(rule: string, severity: Severity, message: string, group: Option<string>, frames: seq<int>)
  datatype FindingKey = FindingKey(rule: string, group: Option<string>, message: string)

  /** The rules by name, and the ones asked for. */
  datatype Config = Config(
    rowRules: map<string, Row -> Option<Verdict>>,
    groupRules: map<string, seq<Row> -> seq<GroupVerdict>>,
    ruleIds: seq<string>,
    groupBy: Option<Key>)

  const FRAME: Key := Other("frame")

  function FrameOf(row: Row): seq<int> {
    if FRAME in row && row[FRAME].Int? then [row[FRAME].n] else []
  }

  /** The group a row belongs to; a missing or empty cell belongs to none. */
  function GroupOf(row: Row, groupBy: Option<Key>): Option<string> {
    if groupBy.Some? && groupBy.value in row && row[groupBy.value].Text? then Some(row[groupBy.value].text) else None
  }

  function KeyOf(r: Raised): FindingKey { FindingKey(r.rule, r.group, r.message) }
  function FindingKeyOf(f: Finding): FindingKey { FindingKey(f.rule, f.group, f.message) }

  // ---- everything that is raised ------------------------------------------------------

  function RaisedByRow(cfg: Config, row: Row, rule: string): seq<Raised> {
    if rule !in cfg.rowRules then []
    else
      var verdict := cfg.rowRules[rule](row);
      if verdict.None? then []
      else [Raised(rule, verdict.value.severity, verdict.value.message, GroupOf(row, cfg.groupBy), FrameOf(row))]
  }

  function RowRaised(cfg: Config): Row -> seq<Raised> {
    (row: Row) => ConcatMap(cfg.ruleIds, (rule: string) => RaisedByRow(cfg, row, rule))
  }

  function AsRaised(rule: string, group: string): GroupVerdict -> seq<Raised> {
    (v: GroupVerdict) => [Raised(rule, v.severity, v.message, Some(group), v.frames)]
  }

  function RaisedByGroup(cfg: Config, members: seq<Row>, group: string, rule: string): seq<Raised> {
    if rule !in cfg.groupRules then []
    else ConcatMap(cfg.groupRules[rule](members), AsRaised(rule, group))
  }

  function Members(cfg: Config, rows: seq<Row>, group: string): seq<Row> {
    if rows == [] then []
    else (if GroupOf(rows[0], cfg.groupBy) == Some(group) then [rows[0]] else []) + Members(cfg, rows[1..], group)
  }

  /** The groups in order of first appearance. */
  function GroupOrder(cfg: Config, rows: seq<Row>): (r: seq<string>) {
    if rows == [] then []
    else
      var before := GroupOrder(cfg, rows[..|rows| - 1]);
      var g := GroupOf(rows[|rows| - 1], cfg.groupBy);
      if g.None? || g.value in before then before else before + [g.value]
  }

  function GroupRaised(cfg: Config, rows: seq<Row>): string -> seq<Raised> {
    (group: string) =>
      ConcatMap(cfg.ruleIds, (rule: string) => RaisedByGroup(cfg, Members(cfg, rows, group), group, rule))
  }

  /** Row rules first, row by row; then group rules, group by group. */
  function AllRaised(cfg: Config, rows: seq<Row>): seq<Raised> {
    ConcatMap(rows, RowRaised(cfg)) + ConcatMap(GroupOrder(cfg, rows), GroupRaised(cfg, rows))
  }

  // ---- what a finding collects --------------------------------------------------------

  /** All frames raised under one key. */
  function FramesFor(key: FindingKey): Raised -> seq<int> {
    (r: Raised) => if KeyOf(r) == key then r.frames else []
  }

  function FramesUnder(raised: seq<Raised>, key: FindingKey): seq<int> {
    ConcatMap(raised, FramesFor(key))
  }

  /** The severity the first raiser gave. */
  function FirstSeverity(raised: seq<Raised>, key: FindingKey): Option<Severity> {
    if raised == [] then None
    else if KeyOf(raised[0]) == key then Some(raised[0].severity)
    else FirstSeverity(raised[1..], key)
  }

  /** The finding a set of raised verdicts owes to one key. */
  function Owed(raised: seq<Raised>, key: FindingKey): Finding
    requires FirstSeverity(raised, key).Some?
  {
    Finding(key.rule, FirstSeverity(raised, key).value, key.message, key.group,
            SortBy(FramesUnder(raised, key), IntLe))
  }

  ghost predicate KeysOnce(findings: seq<Finding>) {
    forall i, j :: 0 <= i < j < |findings| ==> FindingKeyOf(findings[i]) != FindingKeyOf(findings[j])
  }

  /** Exactly the owed findings, each key once. */
  ghost predicate Collapses(findings: seq<Finding>, raised: seq<Raised>) {
    && KeysOnce(findings)
    && (forall r :: r in raised ==> exists f :: f in findings && FindingKeyOf(f) == KeyOf(r))
    && (forall f :: f in findings ==>
          FirstSeverity(raised, FindingKeyOf(f)).Some? && f == Owed(raised, FindingKeyOf(f)))
  }

  lemma {:induction false} FirstSeverityIsRaised(raised: seq<Raised>, key: FindingKey)
    ensures FirstSeverity(raised, key).Some? <==> exists r :: r in raised && KeyOf(r) == key
    ensures FirstSeverity(raised, key).Some? ==>
              exists r :: r in raised && KeyOf(r) == key && r.severity == FirstSeverity(raised, key).value
  {
    if raised != [] {
      FirstSeverityIsRaised(raised[1..], key);
      if KeyOf(raised[0]) == key {
        assert raised[0] in raised;
      } else if FirstSeverity(raised, key).Some? {
        var r :| r in raised[1..] && KeyOf(r) == key && r.severity == FirstSeverity(raised[1..], key).value;
        assert r in raised;
      }
      if r :| r in raised && KeyOf(r) == key {
        assert r == raised[0] || r in raised[1..];
      }
    }
  }

  // ---- order does not matter ----------------------------------------------------------

  /** A group rule that looks at its rows as a bag. */
  ghost predicate OrderBlind(rule: seq<Row> -> seq<GroupVerdict>) {
    forall a, b :: multiset(a) == multiset(b) ==> rule(a) == rule(b)
  }

  lemma {:induction false} MembersBag(cfg: Config, a: seq<Row>, b: seq<Row>, group: string)
    requires multiset(a) == multiset(b)
    ensures multiset(Members(cfg, a, group)) == multiset(Members(cfg, b, group))
  {
    var f := (row: Row) => if GroupOf(row, cfg.groupBy) == Some(group) then [row] else [];
    ConcatMapBag(a, b, f);
    MembersIsConcatMap(cfg, a, group, f);
    MembersIsConcatMap(cfg, b, group, f);
  }

  lemma {:induction false} MembersIsConcatMap(cfg: Config, rows: seq<Row>, group: string, f: Row -> seq<Row>)
    requires forall row :: f(row) == if GroupOf(row, cfg.groupBy) == Some(group) then [row] else []
    ensures Members(cfg, rows, group) == ConcatMap(rows, f)
  {
    if rows != [] {
      MembersIsConcatMap(cfg, rows[1..], group, f);
    }
  }

  lemma {:induction false} GroupOrderLists(cfg: Config, rows: seq<Row>)
    ensures NoRepeats(GroupOrder(cfg, rows))
    ensures forall g :: g in GroupOrder(cfg, rows) <==> exists row :: row in rows && GroupOf(row, cfg.groupBy) == Some(g)
  {
    if rows != [] {
      var rows0, last := rows[..|rows| - 1], rows[|rows| - 1];
      GroupOrderLists(cfg, rows0);
      assert rows == rows0 + [last];
      forall g
        ensures g in GroupOrder(cfg, rows) <==> exists row :: row in rows && GroupOf(row, cfg.groupBy) == Some(g)
      {
        if g in GroupOrder(cfg, rows) {
          if g in GroupOrder(cfg, rows0) {
            var row :| row in rows0 && GroupOf(row, cfg.groupBy) == Some(g);
            assert row in rows;
          } else {
            assert last in rows && GroupOf(last, cfg.groupBy) == Some(g);
          }
        }
        if row :| row in rows && GroupOf(row, cfg.groupBy) == Some(g) {
          assert row in rows0 || row == last;
        }
      }
    }
  }

  lemma {:induction false} GroupOrderBag(cfg: Config, a: seq<Row>, b: seq<Row>)
    requires multiset(a) == multiset(b)
    ensures multiset(GroupOrder(cfg, a)) == multiset(GroupOrder(cfg, b))
  {
    GroupOrderLists(cfg, a);
    GroupOrderLists(cfg, b);
    SameBagSameElements(a, b);
    NoRepeatsSameBag(GroupOrder(cfg, a), GroupOrder(cfg, b));
  }

  lemma {:induction false} ConcatMapSame<T, E>(xs: seq<T>, f: T -> seq<E>, g: T -> seq<E>)
    requires forall x :: x in xs ==> f(x) == g(x)
    ensures ConcatMap(xs, f) == ConcatMap(xs, g)
  {
    if xs != [] {
      ConcatMapSame(xs[1..], f, g);
    }
  }

  lemma {:induction false} GroupRaisedSame(cfg: Config, a: seq<Row>, b: seq<Row>, group: string)
    requires multiset(a) == multiset(b)
    requires forall rule :: rule in cfg.groupRules ==> OrderBlind(cfg.groupRules[rule])
    ensures GroupRaised(cfg, a)(group) == GroupRaised(cfg, b)(group)
  {
    MembersBag(cfg, a, b, group);
    ConcatMapSame(
      cfg.ruleIds,
      (rule: string) => RaisedByGroup(cfg, Members(cfg, a, group), group, rule),
      (rule: string) => RaisedByGroup(cfg, Members(cfg, b, group), group, rule));
  }

  /** The same rows in any order raise the same things. */
  lemma {:induction false} RaisedBag(cfg: Config, a: seq<Row>, b: seq<Row>)
    requires multiset(a) == multiset(b)
    requires forall rule :: rule in cfg.groupRules ==> OrderBlind(cfg.groupRules[rule])
    ensures multiset(AllRaised(cfg, a)) == multiset(AllRaised(cfg, b))
  {
    ConcatMapBag(a, b, RowRaised(cfg));
    GroupOrderBag(cfg, a, b);
    ConcatMapBag(GroupOrder(cfg, a), GroupOrder(cfg, b), GroupRaised(cfg, a));
    forall g
      ensures GroupRaised(cfg, a)(g) == GroupRaised(cfg, b)(g)
    {
      GroupRaisedSame(cfg, a, b, g);
    }
    ConcatMapSame(GroupOrder(cfg, b), GroupRaised(cfg, a), GroupRaised(cfg, b));
  }

  // ---- exactly when a report forgets the order of its rows ----------------------------

  /** Two verdicts that say the same thing say it at one severity. */
  predicate InAccord(v: Option<Verdict>, w: Option<Verdict>) {
    v.Some? && w.Some? && v.value.message == w.value.message ==> v.value.severity == w.value.severity
  }

  /** No row rule gives one message at two severities within one group of rows. */
  ghost predicate RowsAgree(cfg: Config, rows: seq<Row>) {
    forall r, s, rule ::
      && r in rows && s in rows && GroupOf(r, cfg.groupBy) == GroupOf(s, cfg.groupBy)
      && rule in cfg.ruleIds && rule in cfg.rowRules ==>
      InAccord(cfg.rowRules[rule](r), cfg.rowRules[rule](s))
  }

  /** The findings a report holds, whatever order it lists them in. */
  ghost function Reported(raised: seq<Raised>): set<Finding> {
    set r | r in raised && FirstSeverity(raised, KeyOf(r)).Some? :: Owed(raised, KeyOf(r))
  }

  ghost function Held(findings: seq<Finding>): set<Finding> { set f | f in findings }

  ghost predicate ForgetsRowOrder(cfg: Config, rows: seq<Row>) {
    forall b :: multiset(b) == multiset(rows) ==> Reported(AllRaised(cfg, b)) == Reported(AllRaised(cfg, rows))
  }

  lemma {:induction false} CollapsesIsReported(findings: seq<Finding>, raised: seq<Raised>)
    requires Collapses(findings, raised)
    ensures Held(findings) == Reported(raised)
  {
    forall f | f in findings
      ensures f in Reported(raised)
    {
      FirstSeverityIsRaised(raised, FindingKeyOf(f));
    }
    forall r | r in raised && FirstSeverity(raised, KeyOf(r)).Some?
      ensures Owed(raised, KeyOf(r)) in findings
    {
      var f :| f in findings && FindingKeyOf(f) == KeyOf(r);
    }
  }

  lemma {:induction false} FirstSeverityConcat(a: seq<Raised>, b: seq<Raised>, key: FindingKey)
    ensures FirstSeverity(a + b, key) ==
            if FirstSeverity(a, key).Some? then FirstSeverity(a, key) else FirstSeverity(b, key)
  {
    if a == [] {
      assert a + b == b;
    } else {
      assert (a + b)[1..] == a[1..] + b;
      FirstSeverityConcat(a[1..], b, key);
    }
  }

  lemma {:induction false} ConcatMapMembers<T, E>(xs: seq<T>, f: T -> seq<E>, e: E)
    ensures e in ConcatMap(xs, f) <==> exists x :: x in xs && e in f(x)
  {
    if xs != [] {
      ConcatMapMembers(xs[1..], f, e);
      assert forall x :: x in xs <==> x == xs[0] || x in xs[1..];
    }
  }

  /** Who raised it. */
  lemma {:induction false} RaisedByWhom(cfg: Config, rows: seq<Row>, x: Raised) returns (row: Row)
    requires x in ConcatMap(rows, RowRaised(cfg))
    ensures row in rows && x in RowRaised(cfg)(row)
    ensures x.rule in cfg.ruleIds && x.rule in cfg.rowRules && x.group == GroupOf(row, cfg.groupBy)
    ensures cfg.rowRules[x.rule](row) == Some(Verdict(x.severity, x.message))
  {
    ConcatMapMembers(rows, RowRaised(cfg), x);
    row :| row in rows && x in RowRaised(cfg)(row);
    var f := (rule: string) => RaisedByRow(cfg, row, rule);
    ConcatMapMembers(cfg.ruleIds, f, x);
    var rule :| rule in cfg.ruleIds && x in f(rule);
  }

  /** Where rows agree, their verdicts take one severity in any order. */
  lemma {:induction false} RowSeverityBag(cfg: Config, a: seq<Row>, b: seq<Row>, key: FindingKey)
    requires RowsAgree(cfg, a) && multiset(a) == multiset(b)
    ensures FirstSeverity(ConcatMap(a, RowRaised(cfg)), key) == FirstSeverity(ConcatMap(b, RowRaised(cfg)), key)
  {
    var x, y := ConcatMap(a, RowRaised(cfg)), ConcatMap(b, RowRaised(cfg));
    ConcatMapBag(a, b, RowRaised(cfg));
    SameBagSameElements(x, y);
    FirstSeverityIsRaised(x, key);
    FirstSeverityIsRaised(y, key);
    if FirstSeverity(x, key).Some? {
      var r :| r in x && KeyOf(r) == key && r.severity == FirstSeverity(x, key).value;
      var s :| s in y && KeyOf(s) == key && s.severity == FirstSeverity(y, key).value;
      var rowOfR := RaisedByWhom(cfg, a, r);
      var rowOfS := RaisedByWhom(cfg, a, s);
      assert InAccord(cfg.rowRules[key.rule](rowOfR), cfg.rowRules[key.rule](rowOfS));
    }
  }

  lemma {:induction false} GroupRaisedIsMarked(cfg: Config, rows: seq<Row>, group: string, key: FindingKey)
    requires key.group != Some(group)
    ensures FirstSeverity(GroupRaised(cfg, rows)(group), key) == None
  {
    var raised := GroupRaised(cfg, rows)(group);
    FirstSeverityIsRaised(raised, key);
    if r :| r in raised && KeyOf(r) == key {
      var f := (rule: string) => RaisedByGroup(cfg, Members(cfg, rows, group), group, rule);
      ConcatMapMembers(cfg.ruleIds, f, r);
      var rule :| rule in cfg.ruleIds && r in f(rule);
      ConcatMapMembers(cfg.groupRules[rule](Members(cfg, rows, group)), AsRaised(rule, group), r);
    }
  }

  /** Only a key's own group speaks to it, so the order of the groups does not matter. */
  lemma {:induction false} OwnGroupSpeaks(cfg: Config, rows: seq<Row>, groups: seq<string>, key: FindingKey)
    requires NoRepeats(groups)
    ensures FirstSeverity(ConcatMap(groups, GroupRaised(cfg, rows)), key) ==
            if key.group.Some? && key.group.value in groups
            then FirstSeverity(GroupRaised(cfg, rows)(key.group.value), key) else None
  {
    if groups != [] {
      OwnGroupSpeaks(cfg, rows, groups[1..], key);
      FirstSeverityConcat(
        GroupRaised(cfg, rows)(groups[0]), ConcatMap(groups[1..], GroupRaised(cfg, rows)), key);
      if key.group != Some(groups[0]) {
        GroupRaisedIsMarked(cfg, rows, groups[0], key);
        assert key.group.Some? ==> (key.group.value in groups <==> key.group.value in groups[1..]);
      } else {
        assert groups[0] in groups && groups[0] !in groups[1..];
      }
    }
  }

  lemma {:induction false} GroupSeverityBag(cfg: Config, a: seq<Row>, b: seq<Row>, key: FindingKey)
    requires multiset(a) == multiset(b)
    requires forall rule :: rule in cfg.groupRules ==> OrderBlind(cfg.groupRules[rule])
    ensures FirstSeverity(ConcatMap(GroupOrder(cfg, a), GroupRaised(cfg, a)), key) ==
            FirstSeverity(ConcatMap(GroupOrder(cfg, b), GroupRaised(cfg, b)), key)
  {
    GroupOrderLists(cfg, a);
    GroupOrderLists(cfg, b);
    GroupOrderBag(cfg, a, b);
    SameBagSameElements(GroupOrder(cfg, a), GroupOrder(cfg, b));
    OwnGroupSpeaks(cfg, a, GroupOrder(cfg, a), key);
    OwnGroupSpeaks(cfg, b, GroupOrder(cfg, b), key);
    if key.group.Some? {
      GroupRaisedSame(cfg, a, b, key.group.value);
    }
  }

  lemma {:induction false} SeverityBag(cfg: Config, a: seq<Row>, b: seq<Row>, key: FindingKey)
    requires RowsAgree(cfg, a) && multiset(a) == multiset(b)
    requires forall rule :: rule in cfg.groupRules ==> OrderBlind(cfg.groupRules[rule])
    ensures FirstSeverity(AllRaised(cfg, a), key) == FirstSeverity(AllRaised(cfg, b), key)
  {
    hide RowsAgree, OrderBlind;
    RowSeverityBag(cfg, a, b, key);
    GroupSeverityBag(cfg, a, b, key);
    FirstSeverityConcat(ConcatMap(a, RowRaised(cfg)), ConcatMap(GroupOrder(cfg, a), GroupRaised(cfg, a)), key);
    FirstSeverityConcat(ConcatMap(b, RowRaised(cfg)), ConcatMap(GroupOrder(cfg, b), GroupRaised(cfg, b)), key);
  }

  lemma {:induction false} ReportedBag(a: seq<Raised>, b: seq<Raised>)
    requires multiset(a) == multiset(b)
    requires forall key :: FirstSeverity(a, key) == FirstSeverity(b, key)
    ensures Reported(a) == Reported(b)
  {
    SameBagSameElements(a, b);
    forall key | FirstSeverity(a, key).Some?
      ensures Owed(a, key) == Owed(b, key)
    {
      ConcatMapBag(a, b, FramesFor(key));
      IntLeOrder();
      SortForgetsOrder(FramesUnder(a, key), FramesUnder(b, key), IntLe);
    }
  }

  lemma {:induction false} AgreementForgets(cfg: Config, a: seq<Row>, b: seq<Row>)
    requires RowsAgree(cfg, a) && multiset(a) == multiset(b)
    requires forall rule :: rule in cfg.groupRules ==> OrderBlind(cfg.groupRules[rule])
    ensures Reported(AllRaised(cfg, a)) == Reported(AllRaised(cfg, b))
  {
    hide RowsAgree, OrderBlind, Reported, AllRaised;
    RaisedBag(cfg, a, b);
    forall key
      ensures FirstSeverity(AllRaised(cfg, a), key) == FirstSeverity(AllRaised(cfg, b), key)
    {
      SeverityBag(cfg, a, b, key);
    }
    ReportedBag(AllRaised(cfg, a), AllRaised(cfg, b));
  }

  /** Whichever row comes first decides the severity of what it raises. */
  lemma {:induction false} FirstRowDecides(cfg: Config, row: Row, rest: seq<Row>, rule: string)
    requires rule in cfg.ruleIds && rule in cfg.rowRules && cfg.rowRules[rule](row).Some?
    ensures var v := cfg.rowRules[rule](row).value;
      var key := FindingKey(rule, GroupOf(row, cfg.groupBy), v.message);
      && FirstSeverity(ConcatMap([row] + rest, RowRaised(cfg)), key) == Some(v.severity)
      && FirstSeverity(AllRaised(cfg, [row] + rest), key) == Some(v.severity)
  {
    var v := cfg.rowRules[rule](row).value;
    var key, own := FindingKey(rule, GroupOf(row, cfg.groupBy), v.message), RowRaised(cfg)(row);
    var f := (id: string) => RaisedByRow(cfg, row, id);
    var r := Raised(rule, v.severity, v.message, GroupOf(row, cfg.groupBy), FrameOf(row));
    assert r in f(rule);
    ConcatMapMembers(cfg.ruleIds, f, r);
    FirstSeverityIsRaised(own, key);
    var first :| first in own && KeyOf(first) == key && first.severity == FirstSeverity(own, key).value;
    ConcatMapMembers([row], RowRaised(cfg), first);
    var who := RaisedByWhom(cfg, [row], first);
    var rows := [row] + rest;
    assert rows[1..] == rest;
    FirstSeverityConcat(own, ConcatMap(rest, RowRaised(cfg)), key);
    FirstSeverityConcat(
      ConcatMap(rows, RowRaised(cfg)), ConcatMap(GroupOrder(cfg, rows), GroupRaised(cfg, rows)), key);
  }

  lemma {:induction false} ReportedSeverity(raised: seq<Raised>, key: FindingKey)
    requires FirstSeverity(raised, key).Some?
    ensures Owed(raised, key) in Reported(raised) && FindingKeyOf(Owed(raised, key)) == key
    ensures forall f :: f in Reported(raised) && FindingKeyOf(f) == key ==> f.severity == FirstSeverity(raised, key).value
  {
    FirstSeverityIsRaised(raised, key);
  }

  lemma {:induction false} SameReportSameSeverity(a: seq<Raised>, b: seq<Raised>, key: FindingKey)
    requires Reported(a) == Reported(b) && FirstSeverity(a, key).Some? && FirstSeverity(b, key).Some?
    ensures FirstSeverity(a, key) == FirstSeverity(b, key)
  {
    hide Reported;
    ReportedSeverity(a, key);
    ReportedSeverity(b, key);
  }

  lemma {:induction false} ToTheFront<T>(s: seq<T>, x: T) returns (rest: seq<T>)
    requires x in s
    ensures multiset([x] + rest) == multiset(s)
  {
    var i :| 0 <= i < |s| && s[i] == x;
    rest := s[..i] + s[i + 1..];
    assert s == s[..i] + [x] + s[i + 1..];
  }

  lemma {:induction false} ForgettingAgrees(cfg: Config, rows: seq<Row>, r: Row, s: Row, rule: string)
    requires ForgetsRowOrder(cfg, rows)
    requires r in rows && s in rows && GroupOf(r, cfg.groupBy) == GroupOf(s, cfg.groupBy)
    requires rule in cfg.ruleIds && rule in cfg.rowRules
    ensures InAccord(cfg.rowRules[rule](r), cfg.rowRules[rule](s))
  {
    hide Reported, AllRaised, FirstSeverity, Owed;
    var v, w := cfg.rowRules[rule](r), cfg.rowRules[rule](s);
    if v.Some? && w.Some? && v.value.message == w.value.message {
      var key := FindingKey(rule, GroupOf(r, cfg.groupBy), v.value.message);
      var restR := ToTheFront(rows, r);
      var restS := ToTheFront(rows, s);
      FirstRowDecides(cfg, r, restR, rule);
      FirstRowDecides(cfg, s, restS, rule);
      SameReportSameSeverity(AllRaised(cfg, [r] + restR), AllRaised(cfg, [s] + restS), key);
    }
  }

  /**
    * Order independence. Under group rules that read their rows as a bag, a report holds the same findings whatever
    * order its rows come in if and only if the rows agree: no row rule gives one message at two severities within one
    * group. What group rules say, at whatever severities, is not in the way.
    */
  lemma {:induction false} ReportForgetsRowOrderIff(cfg: Config, rows: seq<Row>)
    requires forall rule :: rule in cfg.groupRules ==> OrderBlind(cfg.groupRules[rule])
    ensures ForgetsRowOrder(cfg, rows) <==> RowsAgree(cfg, rows)
  {
    hide OrderBlind, Reported, AllRaised;
    if RowsAgree(cfg, rows) {
      forall b | multiset(b) == multiset(rows)
        ensures Reported(AllRaised(cfg, b)) == Reported(AllRaised(cfg, rows))
      {
        AgreementForgets(cfg, rows, b);
      }
    }
    if ForgetsRowOrder(cfg, rows) {
      forall r, s, rule |
        && r in rows && s in rows && GroupOf(r, cfg.groupBy) == GroupOf(s, cfg.groupBy)
        && rule in cfg.ruleIds && rule in cfg.rowRules
        ensures InAccord(cfg.rowRules[rule](r), cfg.rowRules[rule](s))
      {
        ForgettingAgrees(cfg, rows, r, s, rule);
      }
    }
  }

  // ---- what a report tells ------------------------------------------------------------

  /** A row carries a group: there is a grouping column, and its cell is that text. */
  ghost predicate Carries(row: Row, groupBy: Option<Key>, group: string) {
    exists key :: groupBy == Some(key) && key in row && row[key] == Text(group)
  }

  lemma {:induction false} GroupOfIff(row: Row, groupBy: Option<Key>, group: string)
    ensures GroupOf(row, groupBy) == Some(group) <==> Carries(row, groupBy, group)
  {
  }

  /** A frame number stands in the frame column. */
  lemma {:induction false} FrameOfIff(row: Row, n: int)
    ensures FrameOf(row) == [n] <==> Other("frame") in row && row[Other("frame")] == Int(n)
    ensures FrameOf(row) == [] || exists m :: FrameOf(row) == [m]
  {
    if FrameOf(row) != [] {
      assert FrameOf(row) == [row[FRAME].n];
    }
  }

  ghost predicate Increasing(at: seq<nat>) { forall i, j :: 0 <= i < j < |at| ==> at[i] < at[j] }

  /** The rows of a group, in the order they came, each as often as it came. */
  lemma {:induction false} MembersAre(cfg: Config, rows: seq<Row>, group: string) returns (at: seq<nat>)
    ensures Increasing(at) && |at| == |Members(cfg, rows, group)|
    ensures forall k :: 0 <= k < |at| ==> at[k] < |rows| && Members(cfg, rows, group)[k] == rows[at[k]]
    ensures forall i: nat :: i < |rows| ==> (i in at <==> Carries(rows[i], cfg.groupBy, group))
  {
    if rows == [] {
      at := [];
    } else {
      var rest := MembersAre(cfg, rows[1..], group);
      var carries := GroupOf(rows[0], cfg.groupBy) == Some(group);
      GroupOfIff(rows[0], cfg.groupBy, group);
      hide Carries, GroupOf;
      at := OneFurther(rest, carries);
      forall i: nat | i < |rows|
        ensures i in at <==> Carries(rows[i], cfg.groupBy, group)
      {
        assert i > 0 ==> rows[i] == rows[1..][i - 1];
      }
    }
  }

  /** The positions behind one more row, and that row's own in front if it belongs. */
  lemma {:induction false} OneFurther(rest: seq<nat>, belongs: bool) returns (at: seq<nat>)
    requires Increasing(rest)
    ensures Increasing(at) && |at| == |rest| + if belongs then 1 else 0
    ensures belongs ==> at[0] == 0 && forall k :: 0 <= k < |rest| ==> at[k + 1] == rest[k] + 1
    ensures !belongs ==> forall k :: 0 <= k < |rest| ==> at[k] == rest[k] + 1
    ensures (0 in at <==> belongs) && forall i: nat :: i > 0 ==> (i in at <==> i - 1 in rest)
  {
    var shifted := seq(|rest|, k requires 0 <= k < |rest| => rest[k] + 1);
    ShiftedMembers(rest, shifted);
    at := if belongs then [0] + shifted else shifted;
  }

  lemma {:induction false} ShiftedMembers(a: seq<nat>, b: seq<nat>)
    requires |a| == |b| && forall k :: 0 <= k < |a| ==> b[k] == a[k] + 1
    ensures forall i: nat :: i > 0 ==> (i in b <==> i - 1 in a)
    ensures 0 !in b
  {
    forall i: nat | i > 0
      ensures i in b <==> i - 1 in a
    {
      if i - 1 in a {
        var k :| 0 <= k < |a| && a[k] == i - 1;
        assert b[k] == i;
      }
    }
  }

  /** A row rule that was asked for says this of a row. */
  ghost predicate SaidOfRow(cfg: Config, row: Row, rule: string, v: Verdict) {
    rule in cfg.ruleIds && rule in cfg.rowRules && cfg.rowRules[rule](row) == Some(v)
  }

  /** A group rule that was asked for says this of the rows of a group some row carries. */
  ghost predicate SaidOfGroup(cfg: Config, rows: seq<Row>, group: string, rule: string, v: GroupVerdict) {
    && rule in cfg.ruleIds && rule in cfg.groupRules
    && (exists row :: row in rows && Carries(row, cfg.groupBy, group))
    && v in cfg.groupRules[rule](Members(cfg, rows, group))
  }

  ghost predicate Under(f: Finding, rule: string, group: Option<string>, message: string) {
    f.rule == rule && f.group == group && f.message == message
  }

  /** Where a finding, with this severity and this frame among its frames, may come from. */
  ghost predicate FromRow(cfg: Config, rows: seq<Row>, f: Finding, severity: Severity, row: Row) {
    && row in rows && f.group == GroupOf(row, cfg.groupBy)
    && SaidOfRow(cfg, row, f.rule, Verdict(severity, f.message))
  }

  ghost predicate FromGroup(cfg: Config, rows: seq<Row>, f: Finding, v: GroupVerdict) {
    && f.group.Some? && v.message == f.message && SaidOfGroup(cfg, rows, f.group.value, f.rule, v)
  }

  /** Every verdict of a row rule and of a group rule is in the report, with its frames. */
  ghost predicate TellsAll(cfg: Config, rows: seq<Row>, findings: seq<Finding>) {
    && (forall row, rule, v :: row in rows && SaidOfRow(cfg, row, rule, v) ==>
          exists f :: f in findings && Under(f, rule, GroupOf(row, cfg.groupBy), v.message)
                      && forall n :: n in FrameOf(row) ==> n in f.frames)
    && (forall group, rule, v :: SaidOfGroup(cfg, rows, group, rule, v) ==>
          exists f :: f in findings && Under(f, rule, Some(group), v.message)
                      && forall n :: n in v.frames ==> n in f.frames)
  }

  /** And nothing else is: severity and frames of every finding come from such verdicts. */
  ghost predicate TellsOnly(cfg: Config, rows: seq<Row>, findings: seq<Finding>) {
    forall f :: f in findings ==>
      && ((exists row :: FromRow(cfg, rows, f, f.severity, row))
          || (exists v :: FromGroup(cfg, rows, f, v) && v.severity == f.severity))
      && forall n :: n in f.frames ==>
           || (exists row, severity :: FromRow(cfg, rows, f, severity, row) && n in FrameOf(row))
           || (exists v :: FromGroup(cfg, rows, f, v) && n in v.frames)
  }

  lemma {:induction false} RowVerdictIsRaised(cfg: Config, rows: seq<Row>, row: Row, rule: string, v: Verdict)
    requires row in rows && SaidOfRow(cfg, row, rule, v)
    ensures Raised(rule, v.severity, v.message, GroupOf(row, cfg.groupBy), FrameOf(row)) in AllRaised(cfg, rows)
  {
    var r := Raised(rule, v.severity, v.message, GroupOf(row, cfg.groupBy), FrameOf(row));
    var f := (id: string) => RaisedByRow(cfg, row, id);
    assert r in f(rule);
    ConcatMapMembers(cfg.ruleIds, f, r);
    ConcatMapMembers(rows, RowRaised(cfg), r);
  }

  lemma {:induction false} GroupVerdictIsRaised(cfg: Config, rows: seq<Row>, group: string, rule: string, v: GroupVerdict)
    requires SaidOfGroup(cfg, rows, group, rule, v)
    ensures Raised(rule, v.severity, v.message, Some(group), v.frames) in AllRaised(cfg, rows)
  {
    var r := Raised(rule, v.severity, v.message, Some(group), v.frames);
    var verdicts := cfg.groupRules[rule](Members(cfg, rows, group));
    assert r in AsRaised(rule, group)(v);
    ConcatMapMembers(verdicts, AsRaised(rule, group), r);
    var f := (id: string) => RaisedByGroup(cfg, Members(cfg, rows, group), group, id);
    assert r in f(rule);
    ConcatMapMembers(cfg.ruleIds, f, r);
    GroupOrderLists(cfg, rows);
    var row :| row in rows && Carries(row, cfg.groupBy, group);
    GroupOfIff(row, cfg.groupBy, group);
    ConcatMapMembers(GroupOrder(cfg, rows), GroupRaised(cfg, rows), r);
  }

  /** Every raised thing is a row's verdict or a group's. */
  lemma {:induction false} RaisedIsVerdict(cfg: Config, rows: seq<Row>, r: Raised)
    requires r in AllRaised(cfg, rows)
    ensures
      || (exists row :: row in rows && r.group == GroupOf(row, cfg.groupBy) && r.frames == FrameOf(row)
                        && SaidOfRow(cfg, row, r.rule, Verdict(r.severity, r.message)))
      || (r.group.Some? && SaidOfGroup(cfg, rows, r.group.value, r.rule, GroupVerdict(r.severity, r.message, r.frames)))
  {
    if r in ConcatMap(rows, RowRaised(cfg)) {
      var row := RaisedByWhom(cfg, rows, r);
      RaisedWithFrame(cfg, row, r);
    } else {
      ConcatMapMembers(GroupOrder(cfg, rows), GroupRaised(cfg, rows), r);
      var group :| group in GroupOrder(cfg, rows) && r in GroupRaised(cfg, rows)(group);
      GroupOrderLists(cfg, rows);
      var row :| row in rows && GroupOf(row, cfg.groupBy) == Some(group);
      GroupOfIff(row, cfg.groupBy, group);
      GroupRaisedByWhom(cfg, rows, group, r);
    }
  }

  lemma {:induction false} RaisedWithFrame(cfg: Config, row: Row, r: Raised)
    requires r in RowRaised(cfg)(row)
    ensures r.frames == FrameOf(row)
  {
    var f := (rule: string) => RaisedByRow(cfg, row, rule);
    ConcatMapMembers(cfg.ruleIds, f, r);
  }

  lemma {:induction false} GroupRaisedByWhom(cfg: Config, rows: seq<Row>, group: string, r: Raised)
    requires r in GroupRaised(cfg, rows)(group)
    ensures r.group == Some(group) && r.rule in cfg.ruleIds && r.rule in cfg.groupRules
    ensures GroupVerdict(r.severity, r.message, r.frames) in cfg.groupRules[r.rule](Members(cfg, rows, group))
  {
    var f := (rule: string) => RaisedByGroup(cfg, Members(cfg, rows, group), group, rule);
    ConcatMapMembers(cfg.ruleIds, f, r);
    var rule :| rule in cfg.ruleIds && r in f(rule);
    ConcatMapMembers(cfg.groupRules[rule](Members(cfg, rows, group)), AsRaised(rule, group), r);
  }

  /** The frames of a finding are those raised under its key. */
  lemma {:induction false} OwedFrames(raised: seq<Raised>, key: FindingKey, n: int)
    requires FirstSeverity(raised, key).Some?
    ensures n in Owed(raised, key).frames <==> exists r :: r in raised && KeyOf(r) == key && n in r.frames
  {
    var sorted := SortBy(FramesUnder(raised, key), IntLe);
    SameBagSameElements(sorted, FramesUnder(raised, key));
    ConcatMapMembers(raised, FramesFor(key), n);
  }

  lemma {:induction false} RaisedIsFound(findings: seq<Finding>, raised: seq<Raised>, r: Raised) returns (f: Finding)
    requires Collapses(findings, raised) && r in raised
    ensures f in findings && Under(f, r.rule, r.group, r.message) && forall n :: n in r.frames ==> n in f.frames
  {
    f :| f in findings && FindingKeyOf(f) == KeyOf(r);
    forall n | n in r.frames
      ensures n in f.frames
    {
      OwedFrames(raised, KeyOf(r), n);
    }
  }

  lemma {:induction false} CollapsesTellsAll(cfg: Config, rows: seq<Row>, findings: seq<Finding>)
    requires Collapses(findings, AllRaised(cfg, rows))
    ensures TellsAll(cfg, rows, findings)
  {
    hide Collapses, AllRaised, SaidOfRow, SaidOfGroup;
    forall row, rule, v | row in rows && SaidOfRow(cfg, row, rule, v)
      ensures exists f :: f in findings && Under(f, rule, GroupOf(row, cfg.groupBy), v.message)
                          && forall n :: n in FrameOf(row) ==> n in f.frames
    {
      RowVerdictIsRaised(cfg, rows, row, rule, v);
      var f := RaisedIsFound(findings, AllRaised(cfg, rows),
                             Raised(rule, v.severity, v.message, GroupOf(row, cfg.groupBy), FrameOf(row)));
    }
    forall group, rule, v | SaidOfGroup(cfg, rows, group, rule, v)
      ensures exists f :: f in findings && Under(f, rule, Some(group), v.message)
                          && forall n :: n in v.frames ==> n in f.frames
    {
      GroupVerdictIsRaised(cfg, rows, group, rule, v);
      var f := RaisedIsFound(findings, AllRaised(cfg, rows),
                             Raised(rule, v.severity, v.message, Some(group), v.frames));
    }
  }

  lemma {:induction false} CollapsesTellsOnly(cfg: Config, rows: seq<Row>, findings: seq<Finding>)
    requires Collapses(findings, AllRaised(cfg, rows))
    ensures TellsOnly(cfg, rows, findings)
  {
    var raised := AllRaised(cfg, rows);
    hide AllRaised, SaidOfRow, SaidOfGroup;
    forall f | f in findings
      ensures (exists row :: FromRow(cfg, rows, f, f.severity, row))
              || (exists v :: FromGroup(cfg, rows, f, v) && v.severity == f.severity)
    {
      FirstSeverityIsRaised(raised, FindingKeyOf(f));
      var r :| r in raised && KeyOf(r) == FindingKeyOf(f) && r.severity == f.severity;
      RaisedComesFrom(cfg, rows, f, r);
    }
    forall f, n | f in findings && n in f.frames
      ensures (exists row, severity :: FromRow(cfg, rows, f, severity, row) && n in FrameOf(row))
              || (exists v :: FromGroup(cfg, rows, f, v) && n in v.frames)
    {
      OwedFrames(raised, FindingKeyOf(f), n);
      var r :| r in raised && KeyOf(r) == FindingKeyOf(f) && n in r.frames;
      RaisedComesFrom(cfg, rows, f, r);
    }
  }

  lemma {:induction false} RaisedComesFrom(cfg: Config, rows: seq<Row>, f: Finding, r: Raised)
    requires r in AllRaised(cfg, rows) && KeyOf(r) == FindingKeyOf(f)
    ensures
      || (exists row :: FromRow(cfg, rows, f, r.severity, row) && r.frames == FrameOf(row))
      || FromGroup(cfg, rows, f, GroupVerdict(r.severity, r.message, r.frames))
  {
    hide AllRaised, SaidOfRow, SaidOfGroup;
    RaisedIsVerdict(cfg, rows, r);
    if row :| (
      && row in rows && r.group == GroupOf(row, cfg.groupBy) && r.frames == FrameOf(row)
      && SaidOfRow(cfg, row, r.rule, Verdict(r.severity, r.message))) {
      assert FromRow(cfg, rows, f, r.severity, row);
    }
  }

  /** Asking for a rule twice is asking for it. */
  lemma {:induction false} EffectiveTells(cfg: Config, rows: seq<Row>, findings: seq<Finding>)
    requires TellsAll(Effective(cfg), rows, findings) && TellsOnly(Effective(cfg), rows, findings)
    ensures TellsAll(cfg, rows, findings) && TellsOnly(cfg, rows, findings)
  {
    EffectiveMembers(cfg, rows);
    assert forall row, rule, v :: SaidOfRow(cfg, row, rule, v) <==> SaidOfRow(Effective(cfg), row, rule, v);
    assert forall group, rule, v ::
        SaidOfGroup(cfg, rows, group, rule, v) <==> SaidOfGroup(Effective(cfg), rows, group, rule, v);
    hide SaidOfRow, SaidOfGroup, Members, Dedupe;
    assert forall f, severity, row ::
        FromRow(cfg, rows, f, severity, row) <==> FromRow(Effective(cfg), rows, f, severity, row);
    assert forall f, v :: FromGroup(cfg, rows, f, v) <==> FromGroup(Effective(cfg), rows, f, v);
  }

  lemma {:induction false} EffectiveMembers(cfg: Config, rows: seq<Row>)
    ensures forall group :: Members(Effective(cfg), rows, group) == Members(cfg, rows, group)
  {
    if rows != [] {
      EffectiveMembers(cfg, rows[1..]);
    }
  }

  // ---- evaluate -----------------------------------------------------------------------

  function SeverityOrder(s: Severity): int {
    match s case Fail => 0 case Warn => 1 case Info => 2
  }

  /** The order of the report: severity, then rule, then group. */
  predicate FindingLe(a: Finding, b: Finding) {
    var x, y := SeverityOrder(a.severity), SeverityOrder(b.severity);
    x < y || (x == y && (
      if a.rule != b.rule then StrLe(a.rule, b.rule) else StrLe(a.group.GetOr(""), b.group.GetOr(""))))
  }

  lemma {:induction false} FindingLeOrder()
    ensures TotalPreorder(FindingLe)
  {
    StrLeOrder();
  }

  /** Failures ahead of warnings ahead of information; then by rule, then by group. */
  ghost predicate InReportOrder(findings: seq<Finding>) {
    forall i, j :: 0 <= i < j < |findings| ==>
      var a, b := findings[i], findings[j];
      && (a.severity == Info ==> b.severity == Info) && (b.severity == Fail ==> a.severity == Fail)
      && (a.severity == b.severity ==>
            && StrLe(a.rule, b.rule)
            && (a.rule == b.rule ==> StrLe(a.group.GetOr(""), b.group.GetOr(""))))
  }

  lemma {:induction false} SortedIsInOrder(findings: seq<Finding>)
    requires SortedBy(findings, FindingLe)
    ensures InReportOrder(findings)
  {
    forall i, j | 0 <= i < j < |findings|
      ensures FindingLe(findings[i], findings[j])
    {
    }
    StrLeOrder();
  }

  /** Where the finding for a key sits, or the length when there is none yet. */
  function IndexOfKey(findings: seq<Finding>, key: FindingKey): (i: nat)
    ensures i <= |findings|
    ensures i < |findings| ==> FindingKeyOf(findings[i]) == key
    ensures forall j :: 0 <= j < i ==> FindingKeyOf(findings[j]) != key
  {
    if findings == [] || FindingKeyOf(findings[0]) == key then 0 else 1 + IndexOfKey(findings[1..], key)
  }

  /** Record one raised verdict: a new key opens a finding, a known one gathers its frames. */
  function Gather(findings: seq<Finding>, r: Raised): seq<Finding> {
    var i := IndexOfKey(findings, KeyOf(r));
    if i < |findings| then findings[i := findings[i].(frames := findings[i].frames + r.frames)]
    else findings + [Finding(r.rule, r.severity, r.message, r.group, r.frames)]
  }

  ghost predicate HasKey(findings: seq<Finding>, key: FindingKey) {
    exists i :: 0 <= i < |findings| && FindingKeyOf(findings[i]) == key
  }

  /** One finding, with its frames still in the order they came. */
  ghost predicate Gathered(f: Finding, raised: seq<Raised>) {
    FirstSeverity(raised, FindingKeyOf(f)) == Some(f.severity) && f.frames == FramesUnder(raised, FindingKeyOf(f))
  }

  /** Like `Collapses`, before the frames are sorted. */
  ghost predicate Gathers(findings: seq<Finding>, raised: seq<Raised>) {
    && KeysOnce(findings)
    && (forall r :: r in raised ==> HasKey(findings, KeyOf(r)))
    && (forall i :: 0 <= i < |findings| ==> Gathered(findings[i], raised))
  }

  lemma {:induction false} FramesUnderSnoc(raised: seq<Raised>, r: Raised, key: FindingKey)
    ensures FramesUnder(raised + [r], key) == FramesUnder(raised, key) + if KeyOf(r) == key then r.frames else []
    ensures FirstSeverity(raised + [r], key) ==
            if FirstSeverity(raised, key).Some? then FirstSeverity(raised, key)
            else if KeyOf(r) == key then Some(r.severity) else None
  {
    if raised == [] {
      assert raised + [r] == [r] && [r][1..] == [];
    } else {
      FramesUnderSnoc(raised[1..], r, key);
      assert (raised + [r])[1..] == raised[1..] + [r];
    }
  }

  lemma {:induction false} OthersStayGathered(f: Finding, raised: seq<Raised>, r: Raised)
    requires Gathered(f, raised) && FindingKeyOf(f) != KeyOf(r)
    ensures Gathered(f, raised + [r])
  {
    FramesUnderSnoc(raised, r, FindingKeyOf(f));
  }

  lemma {:induction false} GatherGathers(findings: seq<Finding>, raised: seq<Raised>, r: Raised)
    requires Gathers(findings, raised)
    ensures Gathers(Gather(findings, r), raised + [r])
  {
    var g, at := Gather(findings, r), IndexOfKey(findings, KeyOf(r));
    FramesUnderSnoc(raised, r, KeyOf(r));
    if at == |findings| {
      NothingUnder(findings, raised, KeyOf(r));
    }
    assert FindingKeyOf(g[at]) == KeyOf(r) && Gathered(g[at], raised + [r]);
    forall i | 0 <= i < |g| && i != at
      ensures Gathered(g[i], raised + [r])
    {
      OthersStayGathered(findings[i], raised, r);
    }
    forall x | x in raised + [r]
      ensures HasKey(g, KeyOf(x))
    {
      if x in raised {
        var i :| 0 <= i < |findings| && FindingKeyOf(findings[i]) == KeyOf(x);
        assert FindingKeyOf(g[i]) == KeyOf(x);
      }
    }
  }

  lemma {:induction false} NothingUnder(findings: seq<Finding>, raised: seq<Raised>, key: FindingKey)
    requires forall r :: r in raised ==> HasKey(findings, KeyOf(r))
    requires !HasKey(findings, key)
    ensures FramesUnder(raised, key) == [] && FirstSeverity(raised, key) == None
  {
    if raised != [] {
      assert raised[0] in raised;
      NothingUnder(findings, raised[1..], key);
    }
  }

  datatype Report = Findings(findings: seq<Finding>) | UnknownRules(rules: seq<string>)

  /** The names in `ids` in order of first appearance. */
  function Dedupe(ids: seq<string>): (r: seq<string>)
    ensures forall id :: id in r <==> id in ids
  {
    if ids == [] then []
    else
      var before := Dedupe(ids[..|ids| - 1]);
      assert ids == ids[..|ids| - 1] + [ids[|ids| - 1]];
      if ids[|ids| - 1] in before then before else before + [ids[|ids| - 1]]
  }

  predicate IsKnown(cfg: Config, id: string) { id in cfg.rowRules || id in cfg.groupRules }

  function UnknownIn(cfg: Config, ids: seq<string>): (r: seq<string>)
    ensures forall id :: id in r <==> id in ids && !IsKnown(cfg, id)
  {
    if ids == [] then []
    else (if IsKnown(cfg, ids[0]) then [] else [ids[0]]) + UnknownIn(cfg, ids[1..])
  }

  /** The configuration the loops run under: each rule once. */
  function Effective(cfg: Config): Config { cfg.(ruleIds := Dedupe(cfg.ruleIds)) }

  lemma {:induction false} ConcatMapTake<T, E>(xs: seq<T>, n: nat, f: T -> seq<E>, before: seq<E>)
    requires n < |xs|
    ensures before + ConcatMap(xs[..n + 1], f) == before + ConcatMap(xs[..n], f) + f(xs[n])
  {
    ConcatMapSnoc(xs[..n], xs[n], f);
    assert xs[..n] + [xs[n]] == xs[..n + 1];
  }

  /** Record a list of raised verdicts, one after another. */
  method GatherAll(collapsed: seq<Finding>, batch: seq<Raised>, ghost raised: seq<Raised>) returns (r: seq<Finding>)
    requires Gathers(collapsed, raised)
    ensures Gathers(r, raised + batch)
  {
    r := collapsed;
    assert raised + [] == raised;
    for i := 0 to |batch|
      invariant Gathers(r, raised + batch[..i])
    {
      GatherGathers(r, raised + batch[..i], batch[i]);
      assert raised + batch[..i] + [batch[i]] == raised + batch[..i + 1];
      r := Gather(r, batch[i]);
    }
    assert batch[..|batch|] == batch;
  }

  method RunRowRules(cfg: Config, rows: seq<Row>) returns (collapsed: seq<Finding>)
    ensures Gathers(collapsed, ConcatMap(rows, RowRaised(cfg)))
  {
    collapsed := [];
    for i := 0 to |rows|
      invariant Gathers(collapsed, ConcatMap(rows[..i], RowRaised(cfg)))
    {
      ConcatMapSnoc(rows[..i], rows[i], RowRaised(cfg));
      assert rows[..i] + [rows[i]] == rows[..i + 1];
      collapsed := GatherAll(collapsed, RowRaised(cfg)(rows[i]), ConcatMap(rows[..i], RowRaised(cfg)));
    }
    assert rows[..|rows|] == rows;
  }

  /** What has been raised once the first `n` groups are done. */
  ghost function RaisedSoFar(cfg: Config, rows: seq<Row>, n: nat): seq<Raised>
    requires n <= |GroupOrder(cfg, rows)|
  {
    ConcatMap(rows, RowRaised(cfg)) + ConcatMap(GroupOrder(cfg, rows)[..n], GroupRaised(cfg, rows))
  }

  lemma {:induction false} RaisedNext(cfg: Config, rows: seq<Row>, n: nat)
    requires n < |GroupOrder(cfg, rows)|
    ensures RaisedSoFar(cfg, rows, n + 1) ==
            RaisedSoFar(cfg, rows, n) + GroupRaised(cfg, rows)(GroupOrder(cfg, rows)[n])
  {
    ConcatMapTake(GroupOrder(cfg, rows), n, GroupRaised(cfg, rows), ConcatMap(rows, RowRaised(cfg)));
  }

  method RunGroupRules(cfg: Config, rows: seq<Row>, byRow: seq<Finding>) returns (collapsed: seq<Finding>)
    requires Gathers(byRow, ConcatMap(rows, RowRaised(cfg)))
    ensures Gathers(collapsed, AllRaised(cfg, rows))
  {
    var groups := GroupOrder(cfg, rows);
    collapsed := byRow;
    assert RaisedSoFar(cfg, rows, 0) == ConcatMap(rows, RowRaised(cfg));
    for i := 0 to |groups|
      invariant Gathers(collapsed, RaisedSoFar(cfg, rows, i))
    {
      RaisedNext(cfg, rows, i);
      collapsed := GatherAll(collapsed, GroupRaised(cfg, rows)(groups[i]), RaisedSoFar(cfg, rows, i));
    }
    assert groups[..|groups|] == groups;
  }

  /** The whole report: each key once, every non-null frame under it, sorted; fail before warn before info. */
  method Evaluate(cfg: Config, rows: seq<Row>) returns (report: Report)
    ensures report.UnknownRules? <==> exists id :: id in cfg.ruleIds && id !in cfg.rowRules && id !in cfg.groupRules
    ensures report.UnknownRules? ==>
              forall id :: id in report.rules <==> id in cfg.ruleIds && id !in cfg.rowRules && id !in cfg.groupRules
    ensures report.Findings? ==>
              && Collapses(report.findings, AllRaised(Effective(cfg), rows))
              && InReportOrder(report.findings)
              && TellsAll(cfg, rows, report.findings) && TellsOnly(cfg, rows, report.findings)
  {
    var ids := Dedupe(cfg.ruleIds);
    var unknown := UnknownIn(cfg, ids);
    if unknown != [] {
      assert unknown[0] in unknown;
      return UnknownRules(unknown);
    }
    assert forall id :: id in ids && !IsKnown(cfg, id) ==> id in unknown;
    var byRow := RunRowRules(Effective(cfg), rows);
    var collapsed := RunGroupRules(Effective(cfg), rows, byRow);
    SortedReport(collapsed, AllRaised(Effective(cfg), rows));
    report := Findings(SortBy(SortFrames(collapsed), FindingLe));
    ReportTells(cfg, rows, report.findings);
  }

  lemma {:induction false} ReportTells(cfg: Config, rows: seq<Row>, findings: seq<Finding>)
    requires Collapses(findings, AllRaised(Effective(cfg), rows)) && SortedBy(findings, FindingLe)
    ensures InReportOrder(findings) && TellsAll(cfg, rows, findings) && TellsOnly(cfg, rows, findings)
  {
    SortedIsInOrder(findings);
    CollapsesTellsAll(Effective(cfg), rows, findings);
    CollapsesTellsOnly(Effective(cfg), rows, findings);
    EffectiveTells(cfg, rows, findings);
  }

  /** The first row to say something gives it its severity. */
  lemma {:induction false} FirstSayerDecides(
    cfg: Config, before: seq<Row>, row: Row, rest: seq<Row>, rule: string, v: Verdict, findings: seq<Finding>, f: Finding)
    requires Collapses(findings, AllRaised(Effective(cfg), before + [row] + rest)) && f in findings
    requires SaidOfRow(cfg, row, rule, v) && Under(f, rule, GroupOf(row, cfg.groupBy), v.message)
    requires forall r, w :: r in before && GroupOf(r, cfg.groupBy) == GroupOf(row, cfg.groupBy) && SaidOfRow(cfg, r, rule, w) ==>
               w.message != v.message
    ensures f.severity == v.severity
  {
    var eff, rows, key := Effective(cfg), before + [row] + rest, FindingKeyOf(f);
    hide Collapses, Dedupe, ConcatMap, RowRaised, GroupRaised, FirstSeverity;
    FirstRowDecides(eff, row, rest, rule);
    NobodyBefore(cfg, before, row, rule, v);
    SeverityOfFinding(findings, AllRaised(eff, rows), f);
    SaidFromHere(eff, before, [row] + rest, rows, key);
  }

  lemma {:induction false} SeverityOfFinding(findings: seq<Finding>, raised: seq<Raised>, f: Finding)
    requires Collapses(findings, raised) && f in findings
    ensures FirstSeverity(raised, FindingKeyOf(f)) == Some(f.severity)
  {
    hide FirstSeverity, FramesUnder;
  }

  /** What the rows in front never said is first said by the others. */
  lemma {:induction false} SaidFromHere(cfg: Config, before: seq<Row>, others: seq<Row>, rows: seq<Row>, key: FindingKey)
    requires rows == before + others
    requires FirstSeverity(ConcatMap(before, RowRaised(cfg)), key).None?
    requires FirstSeverity(ConcatMap(others, RowRaised(cfg)), key).Some?
    ensures FirstSeverity(AllRaised(cfg, rows), key) == FirstSeverity(ConcatMap(others, RowRaised(cfg)), key)
  {
    hide ConcatMap, RowRaised, GroupRaised, FirstSeverity;
    var a, b := ConcatMap(before, RowRaised(cfg)), ConcatMap(others, RowRaised(cfg));
    ConcatMapConcat(before, others, RowRaised(cfg));
    FirstSeverityConcat(a, b, key);
    FirstSeverityConcat(a + b, ConcatMap(GroupOrder(cfg, rows), GroupRaised(cfg, rows)), key);
  }

  lemma {:induction false} NobodyBefore(cfg: Config, before: seq<Row>, row: Row, rule: string, v: Verdict)
    requires forall r, w :: r in before && GroupOf(r, cfg.groupBy) == GroupOf(row, cfg.groupBy) && SaidOfRow(cfg, r, rule, w) ==>
               w.message != v.message
    ensures FirstSeverity(
              ConcatMap(before, RowRaised(Effective(cfg))), FindingKey(rule, GroupOf(row, cfg.groupBy), v.message)).None?
  {
    var eff, key := Effective(cfg), FindingKey(rule, GroupOf(row, cfg.groupBy), v.message);
    hide ConcatMap, RowRaised, FirstSeverity;
    var a := ConcatMap(before, RowRaised(eff));
    FirstSeverityIsRaised(a, key);
    forall r | r in a
      ensures KeyOf(r) != key
    {
      var who := RaisedByWhom(eff, before, r);
      assert KeyOf(r) == key ==> SaidOfRow(cfg, who, rule, Verdict(r.severity, r.message));
    }
  }

  lemma {:induction false} SortedReport(collapsed: seq<Finding>, raised: seq<Raised>)
    requires Gathers(collapsed, raised)
    ensures var report := SortBy(SortFrames(collapsed), FindingLe);
            Collapses(report, raised) && SortedBy(report, FindingLe)
  {
    SortedFramesCollapse(collapsed, raised);
    FindingLeOrder();
    SortBySorted(SortFrames(collapsed), FindingLe);
    CollapsesPermuted(SortFrames(collapsed), SortBy(SortFrames(collapsed), FindingLe), raised);
  }

  function SortFrames(findings: seq<Finding>): (r: seq<Finding>)
    ensures |r| == |findings|
    ensures forall i :: 0 <= i < |r| ==> r[i] == findings[i].(frames := SortBy(findings[i].frames, IntLe))
  {
    seq(|findings|, i requires 0 <= i < |findings| => findings[i].(frames := SortBy(findings[i].frames, IntLe)))
  }

  lemma {:induction false} SortedFramesCollapse(collapsed: seq<Finding>, raised: seq<Raised>)
    requires Gathers(collapsed, raised)
    ensures Collapses(SortFrames(collapsed), raised)
  {
    var fs := SortFrames(collapsed);
    forall i | 0 <= i < |fs|
      ensures FirstSeverity(raised, FindingKeyOf(fs[i])).Some? && fs[i] == Owed(raised, FindingKeyOf(fs[i]))
    {
      assert collapsed[i] in collapsed;
    }
    forall r | r in raised
      ensures exists f :: f in fs && FindingKeyOf(f) == KeyOf(r)
    {
      var i :| 0 <= i < |collapsed| && FindingKeyOf(collapsed[i]) == KeyOf(r);
      assert fs[i] in fs;
    }
  }

  lemma {:induction false} CollapsesPermuted(a: seq<Finding>, b: seq<Finding>, raised: seq<Raised>)
    requires Collapses(a, raised) && multiset(a) == multiset(b)
    ensures Collapses(b, raised)
  {
    SameBagSameElements(a, b);
    forall i, j | 0 <= i < j < |b|
      ensures FindingKeyOf(b[i]) != FindingKeyOf(b[j])
    {
      if FindingKeyOf(b[i]) == FindingKeyOf(b[j]) {
        assert b[i] in b && b[j] in b;
        assert b[i] == b[j];
        NoRepeatsCountsOne(a, b[i]);
        TwiceCountsTwo(b, i, j);
      }
    }
  }

  lemma {:induction false} TwiceCountsTwo<T>(s: seq<T>, i: nat, j: nat)
    requires i < j < |s| && s[i] == s[j]
    ensures multiset(s)[s[i]] >= 2
  {
    assert s == s[..i] + [s[i]] + s[i + 1..j] + [s[j]] + s[j + 1..];
  }

  /** In the terms of `Evaluate`: two reports over the same rows hold the same findings. */
  lemma {:induction false} ReportForgetsRowOrder(
    cfg: Config, a: seq<Row>, b: seq<Row>, fa: seq<Finding>, fb: seq<Finding>)
    requires multiset(a) == multiset(b) && RowsAgree(cfg, a)
    requires forall rule :: rule in cfg.groupRules ==> OrderBlind(cfg.groupRules[rule])
    requires Collapses(fa, AllRaised(Effective(cfg), a)) && Collapses(fb, AllRaised(Effective(cfg), b))
    ensures forall f :: f in fa <==> f in fb
  {
    assert RowsAgree(Effective(cfg), a);
    hide Reported, AllRaised, Collapses, RowsAgree, OrderBlind, Dedupe;
    CollapsesIsReported(fa, AllRaised(Effective(cfg), a));
    CollapsesIsReported(fb, AllRaised(Effective(cfg), b));
    AgreementForgets(Effective(cfg), a, b);
    SameSetSameMembers(fa, fb);
  }

  lemma {:induction false} SameSetSameMembers(a: seq<Finding>, b: seq<Finding>)
    requires Held(a) == Held(b)
    ensures forall f :: f in a <==> f in b
  {
    assert forall f :: (f in a <==> f in Held(a)) && (f in b <==> f in Held(b));
  }

  /** A group rule only ever sees rows that carry its group; a row without one reaches none. */
  lemma {:induction false} MembersCarryTheirGroup(cfg: Config, rows: seq<Row>, group: string)
    ensures forall row :: row in Members(cfg, rows, group) <==> row in rows && GroupOf(row, cfg.groupBy) == Some(group)
  {
    if rows != [] {
      MembersCarryTheirGroup(cfg, rows[1..], group);
      assert rows == [rows[0]] + rows[1..];
    }
  }

  // ---- the one group rule -------------------------------------------------------------

  const STABLE_KEYS: seq<Key> := [Other("ssid"), Other("channel"), Akm, GroupCipher, PairwiseCipher, Mfpr, Mfpc]

  function KeyName(key: Key): string {
    match key
    case Other(name) => name
    case Akm => "akm"
    case GroupCipher => "group_cipher"
    case PairwiseCipher => "pairwise_cipher"
    case Mfpr => "mfpr"
    case Mfpc => "mfpc"
    case _ => ""
  }

  /** A list in a different order is the same configuration. */
  function Comparable(c: Cell): Cell { if c.Ints? then Ints(SortBy(c.ns, IntLe)) else c }

  predicate AllCarry(rows: seq<Row>, key: Key) {
    forall row :: row in rows ==> key in row
  }

  function DistinctValues(rows: seq<Row>, key: Key): set<Cell>
    requires AllCarry(rows, key)
  {
    set row | row in rows :: Comparable(row[key])
  }

  function FramesOfRow(): Row -> seq<int> { (row: Row) => FrameOf(row) }

  /** What one key contributes: nothing while every beacon agrees, one warning naming every frame once they differ. */
  function ChangeOf(rows: seq<Row>, key: Key): seq<GroupVerdict> {
    if !AllCarry(rows, key) || |DistinctValues(rows, key)| <= 1 then []
    else [GroupVerdict(
            Warn,
            KeyName(key) + " changed between beacons of this BSS (" + Text.Decimal(|DistinctValues(rows, key)|) +
            " different values).",
            SortBy(ConcatMap(rows, FramesOfRow()), IntLe))]
  }

  function BssConfigChanged(rows: seq<Row>, keys: seq<Key>): seq<GroupVerdict> {
    if keys == [] then [] else BssConfigChanged(rows, keys[..|keys| - 1]) + ChangeOf(rows, keys[|keys| - 1])
  }

  /** One pass over the rows for one key. */
  method Survey(rows: seq<Row>, key: Key) returns (all: bool, seen: set<Cell>, frames: seq<int>)
    ensures all <==> AllCarry(rows, key)
    ensures all ==> seen == DistinctValues(rows, key)
    ensures frames == ConcatMap(rows, FramesOfRow())
  {
    all, seen, frames := true, {}, [];
    for i := 0 to |rows|
      invariant all <==> AllCarry(rows[..i], key)
      invariant all ==> seen == DistinctValues(rows[..i], key)
      invariant frames == ConcatMap(rows[..i], FramesOfRow())
    {
      assert rows[..i + 1] == rows[..i] + [rows[i]];
      ConcatMapSnoc(rows[..i], rows[i], FramesOfRow());
      frames := frames + FrameOf(rows[i]);
      if key !in rows[i] {
        all := false;
      } else if all {
        seen := seen + {Comparable(rows[i][key])};
      }
    }
    assert rows[..|rows|] == rows;
  }

  method BssConfigChangedLoop(rows: seq<Row>) returns (out: seq<GroupVerdict>)
    ensures out == BssConfigChanged(rows, STABLE_KEYS)
  {
    hide DistinctValues, STABLE_KEYS;
    out := [];
    for k := 0 to |STABLE_KEYS|
      invariant out == BssConfigChanged(rows, STABLE_KEYS[..k])
    {
      assert STABLE_KEYS[..k + 1][..k] == STABLE_KEYS[..k];
      var all, seen, frames := Survey(rows, STABLE_KEYS[k]);
      if all && |seen| > 1 {
        out := out + [GroupVerdict(
          Warn,
          KeyName(STABLE_KEYS[k]) + " changed between beacons of this BSS (" + Text.Decimal(|seen|) + " different values).",
          SortBy(frames, IntLe))];
      }
    }
    assert STABLE_KEYS[..|STABLE_KEYS|] == STABLE_KEYS;
  }

  /** The rule reads its rows as a bag. */
  lemma {:induction false} BssConfigChangedIsOrderBlind(a: seq<Row>, b: seq<Row>, keys: seq<Key>)
    requires multiset(a) == multiset(b)
    ensures BssConfigChanged(a, keys) == BssConfigChanged(b, keys)
  {
    if keys != [] {
      BssConfigChangedIsOrderBlind(a, b, keys[..|keys| - 1]);
      ChangeOfIsOrderBlind(a, b, keys[|keys| - 1]);
    }
  }

  lemma {:induction false} ChangeOfIsOrderBlind(a: seq<Row>, b: seq<Row>, key: Key)
    requires multiset(a) == multiset(b)
    ensures ChangeOf(a, key) == ChangeOf(b, key)
  {
    SameBagSameElements(a, b);
    assert AllCarry(a, key) <==> AllCarry(b, key);
    if AllCarry(a, key) {
      assert DistinctValues(a, key) == DistinctValues(b, key);
    }
    ConcatMapBag(a, b, FramesOfRow());
    IntLeOrder();
    SortForgetsOrder(ConcatMap(a, FramesOfRow()), ConcatMap(b, FramesOfRow()), IntLe);
  }

  /** Nothing is reported for a key exactly when some beacon lacks it or all beacons agree on it. */
  lemma {:induction false} SilentIffStable(rows: seq<Row>, key: Key)
    ensures ChangeOf(rows, key) == [] <==>
            (exists row :: row in rows && key !in row) ||
            (forall r, s :: r in rows && s in rows ==> Comparable(r[key]) == Comparable(s[key]))
  {
    if AllCarry(rows, key) {
      var values := DistinctValues(rows, key);
      if |values| <= 1 {
        forall r, s | r in rows && s in rows
          ensures Comparable(r[key]) == Comparable(s[key])
        {
          AtMostOne(values, Comparable(r[key]), Comparable(s[key]));
        }
      } else if forall r, s :: r in rows && s in rows ==> Comparable(r[key]) == Comparable(s[key]) {
        var v :| v in values;
        assert values == {v};
      }
    }
  }

  lemma {:induction false} AtMostOne<T>(s: set<T>, x: T, y: T)
    requires |s| <= 1 && x in s && y in s
    ensures x == y
  {
    assert |s - {x}| == 0;
    assert y !in s - {x};
  }

  /** The program's group rules. */
  const GROUP_RULES: map<string, seq<Row> -> seq<GroupVerdict>> :=
    map["bss_config_changed" := (rows: seq<Row>) => BssConfigChanged(rows, STABLE_KEYS)]

  lemma {:induction false} GroupRulesAreOrderBlind()
    ensures forall rule :: rule in GROUP_RULES ==> OrderBlind(GROUP_RULES[rule])
  {
    forall a, b | multiset(a) == multiset(b)
      ensures BssConfigChanged(a, STABLE_KEYS) == BssConfigChanged(b, STABLE_KEYS)
    {
      BssConfigChangedIsOrderBlind(a, b, STABLE_KEYS);
    }
  }

  // ---- what the group rule says, in terms of the rows ---------------------------------

  /** Two cells read alike: equal, or two lists that hold the same numbers equally often. */
  ghost predicate ReadAlike(a: Cell, b: Cell) {
    a == b || (a.Ints? && b.Ints? && multiset(a.ns) == multiset(b.ns))
  }

  lemma {:induction false} ComparableIff(a: Cell, b: Cell)
    ensures Comparable(a) == Comparable(b) <==> ReadAlike(a, b)
  {
    IntLeOrder();
    if a.Ints? && b.Ints? && multiset(a.ns) == multiset(b.ns) {
      SortForgetsOrder(a.ns, b.ns, IntLe);
    }
  }

  /** A setting a BSS is held to, and how messages name it. */
  ghost predicate IsSetting(key: Key, name: string) {
    || (key in {Other("ssid"), Other("channel")} && key == Other(name))
    || (key == Akm && name == "akm")
    || (key == GroupCipher && name == "group_cipher") || (key == PairwiseCipher && name == "pairwise_cipher")
    || (key == Mfpr && name == "mfpr") || (key == Mfpc && name == "mfpc")
  }

  /** Every row carries the setting, and there are `n` readings of it, each row like exactly one of them. */
  ghost predicate HasReadings(rows: seq<Row>, key: Key, n: nat) {
    && (forall row :: row in rows ==> key in row)
    && exists readings: seq<Cell> :: |readings| == n && AreReadings(rows, key, readings)
  }

  ghost predicate AreReadings(rows: seq<Row>, key: Key, readings: seq<Cell>)
    requires forall row :: row in rows ==> key in row
  {
    && (forall i, j :: 0 <= i < j < |readings| ==> !ReadAlike(readings[i], readings[j]))
    && (forall i :: 0 <= i < |readings| ==> ReadBySome(rows, key, readings[i]))
    && (forall row :: row in rows ==> ReadAsSome(row[key], readings))
  }

  ghost predicate ReadBySome(rows: seq<Row>, key: Key, reading: Cell)
    requires forall row :: row in rows ==> key in row
  {
    exists row :: row in rows && ReadAlike(row[key], reading)
  }

  ghost predicate ReadAsSome(c: Cell, readings: seq<Cell>) {
    exists i :: 0 <= i < |readings| && ReadAlike(c, readings[i])
  }

  /** The frames of all rows, in ascending order. */
  ghost predicate AreFrames(frames: seq<int>, rows: seq<Row>) {
    && (forall i, j :: 0 <= i < j < |frames| ==> frames[i] <= frames[j])
    && (forall n :: n in frames <==> exists row :: row in rows && Other("frame") in row && row[Other("frame")] == Int(n))
  }

  ghost predicate Announces(v: GroupVerdict, rows: seq<Row>, name: string, n: nat) {
    && v.severity == Warn && AreFrames(v.frames, rows)
    && v.message == name + " changed between beacons of this BSS (" + Text.Decimal(n) + " different values)."
  }

  lemma {:induction false} FrameAmong(rows: seq<Row>, n: int)
    ensures n in ConcatMap(rows, FramesOfRow()) <==>
            exists row :: row in rows && Other("frame") in row && row[Other("frame")] == Int(n)
  {
    ConcatMapMembers(rows, FramesOfRow(), n);
    hide ConcatMap;
    assert forall row :: n in FramesOfRow()(row) <==> Other("frame") in row && row[Other("frame")] == Int(n);
  }

  lemma {:induction false} FramesAre(rows: seq<Row>)
    ensures AreFrames(SortBy(ConcatMap(rows, FramesOfRow()), IntLe), rows)
  {
    hide ConcatMap, SortBy, FramesOfRow;
    var frames := ConcatMap(rows, FramesOfRow());
    IntLeOrder();
    SortBySorted(frames, IntLe);
    assert multiset(SortBy(frames, IntLe)) == multiset(frames);
    SameBagSameElements(SortBy(frames, IntLe), frames);
    forall n
      ensures n in SortBy(frames, IntLe) <==>
              exists row :: row in rows && Other("frame") in row && row[Other("frame")] == Int(n)
    {
      FrameAmong(rows, n);
    }
  }

  lemma {:induction false} SameComparable(c: Cell)
    ensures Comparable(Comparable(c)) == Comparable(c) && ReadAlike(c, Comparable(c))
  {
    ComparableIff(c, Comparable(c));
  }

  /** The elements of a set in some order. */
  lemma {:induction false} Enumerated<T>(s: set<T>) returns (xs: seq<T>)
    ensures |xs| == |s| && forall x :: x in xs <==> x in s
    ensures forall i, j :: 0 <= i < j < |xs| ==> xs[i] != xs[j]
  {
    if s == {} {
      xs := [];
    } else {
      var x :| x in s;
      var rest := Enumerated(s - {x});
      xs := rest + [x];
    }
  }

  lemma {:induction false} CountOf<T>(xs: seq<T>, s: set<T>)
    requires forall i, j :: 0 <= i < j < |xs| ==> xs[i] != xs[j]
    requires forall x :: x in xs <==> x in s
    ensures |xs| == |s|
  {
    if xs == [] {
      assert s == {};
    } else {
      var last := xs[|xs| - 1];
      assert forall x :: x in xs <==> x in xs[..|xs| - 1] || x == last;
      CountOf(xs[..|xs| - 1], s - {last});
    }
  }

  /** The values seen are readings: no two alike, each the reading of a row, and a reading for every row. */
  lemma {:induction false} ReadingsExist(rows: seq<Row>, key: Key)
    requires AllCarry(rows, key)
    ensures HasReadings(rows, key, |DistinctValues(rows, key)|)
  {
    hide DistinctValues, AreReadings;
    var readings := Enumerated(DistinctValues(rows, key));
    ValuesAreReadings(rows, key, readings);
  }

  lemma {:induction false} ValuesAreReadings(rows: seq<Row>, key: Key, readings: seq<Cell>)
    requires AllCarry(rows, key)
    requires forall x :: x in readings <==> x in DistinctValues(rows, key)
    requires forall i, j :: 0 <= i < j < |readings| ==> readings[i] != readings[j]
    ensures AreReadings(rows, key, readings)
  {
    hide Comparable, ReadAlike, DistinctValues, ReadBySome, ReadAsSome;
    forall i | 0 <= i < |readings|
      ensures Comparable(readings[i]) == readings[i] && ReadBySome(rows, key, readings[i])
    {
      assert readings[i] in DistinctValues(rows, key);
      ValueReads(rows, key, readings[i]);
    }
    forall i, j | 0 <= i < j < |readings|
      ensures !ReadAlike(readings[i], readings[j])
    {
      ComparableIff(readings[i], readings[j]);
    }
    forall row | row in rows
      ensures ReadAsSome(row[key], readings)
    {
      RowReads(rows, key, row);
      IsReadAs(row[key], readings);
    }
  }

  lemma {:induction false} IsReadAs(c: Cell, readings: seq<Cell>)
    requires Comparable(c) in readings
    ensures ReadAsSome(c, readings)
  {
    hide Comparable, ReadAlike;
    SameComparable(c);
  }

  lemma {:induction false} ValueReads(rows: seq<Row>, key: Key, x: Cell)
    requires AllCarry(rows, key) && x in DistinctValues(rows, key)
    ensures Comparable(x) == x && ReadBySome(rows, key, x)
  {
    hide Comparable, ReadAlike;
    var row :| row in rows && x == Comparable(row[key]);
    SameComparable(row[key]);
  }

  lemma {:induction false} RowReads(rows: seq<Row>, key: Key, row: Row)
    requires AllCarry(rows, key) && row in rows
    ensures Comparable(row[key]) in DistinctValues(rows, key) && ReadAlike(row[key], Comparable(row[key]))
  {
    hide Comparable, ReadAlike;
    SameComparable(row[key]);
  }

  /** However the readings are listed, there are as many as there are values. */
  lemma {:induction false} ReadingsCount(rows: seq<Row>, key: Key, n: nat)
    requires HasReadings(rows, key, n)
    ensures AllCarry(rows, key) && n == |DistinctValues(rows, key)|
  {
    hide Comparable, ReadAlike, DistinctValues, ReadBySome, ReadAsSome;
    var readings: seq<Cell> :| |readings| == n && AreReadings(rows, key, readings);
    var xs := seq(n, i requires 0 <= i < n => Comparable(readings[i]));
    forall i, j | 0 <= i < j < n
      ensures xs[i] != xs[j]
    {
      ComparableIff(readings[i], readings[j]);
    }
    forall x
      ensures x in xs <==> x in DistinctValues(rows, key)
    {
      ReadingIsValue(rows, key, readings, xs, x);
    }
    CountOf(xs, DistinctValues(rows, key));
  }

  lemma {:induction false} ReadingIsValue(rows: seq<Row>, key: Key, readings: seq<Cell>, xs: seq<Cell>, x: Cell)
    requires AllCarry(rows, key) && AreReadings(rows, key, readings)
    requires |xs| == |readings| && forall i :: 0 <= i < |xs| ==> xs[i] == Comparable(readings[i])
    ensures x in xs <==> x in DistinctValues(rows, key)
  {
    hide Comparable, ReadAlike, ReadBySome, ReadAsSome;
    if x in xs {
      var i :| 0 <= i < |xs| && xs[i] == x;
      ReaderOf(rows, key, readings[i]);
    }
    if x in DistinctValues(rows, key) {
      var row :| row in rows && x == Comparable(row[key]);
      var i := ReadingOf(row[key], readings);
      assert xs[i] == x;
    }
  }

  lemma {:induction false} ReaderOf(rows: seq<Row>, key: Key, reading: Cell)
    requires AllCarry(rows, key) && ReadBySome(rows, key, reading)
    ensures Comparable(reading) in DistinctValues(rows, key)
  {
    hide Comparable, ReadAlike;
    var row :| row in rows && ReadAlike(row[key], reading);
    ComparableIff(row[key], reading);
  }

  lemma {:induction false} ReadingOf(c: Cell, readings: seq<Cell>) returns (i: nat)
    requires ReadAsSome(c, readings)
    ensures i < |readings| && Comparable(c) == Comparable(readings[i])
  {
    hide Comparable, ReadAlike;
    i :| 0 <= i < |readings| && ReadAlike(c, readings[i]);
    ComparableIff(c, readings[i]);
  }

  lemma {:induction false} SettingsAre(key: Key, name: string)
    ensures IsSetting(key, name) <==> key in STABLE_KEYS && name == KeyName(key)
  {
    assert key in STABLE_KEYS <==>
        key in {Other("ssid"), Other("channel"), Akm, GroupCipher, PairwiseCipher, Mfpr, Mfpc} by {
      assert STABLE_KEYS[0] == Other("ssid") && STABLE_KEYS[1] == Other("channel") && STABLE_KEYS[2] == Akm;
      assert STABLE_KEYS[3] == GroupCipher && STABLE_KEYS[4] == PairwiseCipher;
      assert STABLE_KEYS[5] == Mfpr && STABLE_KEYS[6] == Mfpc;
    }
  }

  lemma {:induction false} SaidForSomeKey(rows: seq<Row>, keys: seq<Key>, v: GroupVerdict)
    ensures v in BssConfigChanged(rows, keys) <==> exists key :: key in keys && v in ChangeOf(rows, key)
  {
    if keys != [] {
      SaidForSomeKey(rows, keys[..|keys| - 1], v);
      assert forall key :: key in keys <==> key in keys[..|keys| - 1] || key == keys[|keys| - 1];
    }
  }

  lemma {:induction false} ChangeAnnounces(rows: seq<Row>, key: Key, v: GroupVerdict)
    requires v in ChangeOf(rows, key)
    ensures exists n: nat :: n >= 2 && HasReadings(rows, key, n) && Announces(v, rows, KeyName(key), n)
  {
    hide DistinctValues, AreFrames, HasReadings;
    FramesAre(rows);
    ReadingsExist(rows, key);
    assert v == ChangeOf(rows, key)[0];
    assert Announces(v, rows, KeyName(key), |DistinctValues(rows, key)|);
  }

  /**
    * The rule on any rows: it announces, as a warning with every frame, exactly the settings that every row carries
    * and that are read in two ways or more, and in how many. A setting some row lacks is passed over, and a list in
    * another order is no change.
    */
  lemma {:induction false} AnnouncesExactlyTheChanges(rows: seq<Row>)
    ensures forall v :: v in BssConfigChanged(rows, STABLE_KEYS) ==>
      exists key, name, n: nat :: IsSetting(key, name) && n >= 2 && HasReadings(rows, key, n) && Announces(v, rows, name, n)
    ensures forall key, name, n: nat :: IsSetting(key, name) && n >= 2 && HasReadings(rows, key, n) ==>
      exists v :: v in BssConfigChanged(rows, STABLE_KEYS) && Announces(v, rows, name, n)
  {
    hide STABLE_KEYS, HasReadings, Announces, IsSetting;
    forall v | v in BssConfigChanged(rows, STABLE_KEYS)
      ensures exists key, name, n: nat ::
        IsSetting(key, name) && n >= 2 && HasReadings(rows, key, n) && Announces(v, rows, name, n)
    {
      SaidForSomeKey(rows, STABLE_KEYS, v);
      var key :| key in STABLE_KEYS && v in ChangeOf(rows, key);
      ChangeAnnounces(rows, key, v);
      SettingsAre(key, KeyName(key));
    }
    forall key, name, n: nat | IsSetting(key, name) && n >= 2 && HasReadings(rows, key, n)
      ensures exists v :: v in BssConfigChanged(rows, STABLE_KEYS) && Announces(v, rows, name, n)
    {
      SettingsAre(key, name);
      ReadingsCount(rows, key, n);
      var v := ChangeOf(rows, key)[0];
      SaidForSomeKey(rows, STABLE_KEYS, v);
      ChangeMessage(rows, key, n);
    }
  }

  lemma {:induction false} ChangeMessage(rows: seq<Row>, key: Key, n: nat)
    requires n >= 2 && AllCarry(rows, key) && |DistinctValues(rows, key)| == n
    ensures |ChangeOf(rows, key)| == 1 && Announces(ChangeOf(rows, key)[0], rows, KeyName(key), n)
  {
    FramesAre(rows);
  }

  lemma {:induction false} AnnouncementOf(rows: seq<Row>, key: Key, name: string, n: nat) returns (v: GroupVerdict)
    requires IsSetting(key, name) && n >= 2 && HasReadings(rows, key, n)
    ensures v in BssConfigChanged(rows, STABLE_KEYS)
    ensures v.message == name + " changed between beacons of this BSS (" + Text.Decimal(n) + " different values)."
  {
    AnnouncesExactlyTheChanges(rows);
    hide HasReadings, IsSetting, BssConfigChanged, STABLE_KEYS, AreFrames;
    v :| v in BssConfigChanged(rows, STABLE_KEYS) && Announces(v, rows, name, n);
  }

  /** In the program's report: a group whose rows all carry a setting, and read it in `n` ways, has it announced. */
  lemma {:induction false} ChangeIsReported(
    cfg: Config, rows: seq<Row>, findings: seq<Finding>, group: string, key: Key, name: string, n: nat)
    requires cfg.groupRules == GROUP_RULES && "bss_config_changed" in cfg.ruleIds && TellsAll(cfg, rows, findings)
    requires exists row :: row in rows && Carries(row, cfg.groupBy, group)
    requires IsSetting(key, name) && n >= 2 && HasReadings(Members(cfg, rows, group), key, n)
    ensures exists f :: f in findings && Under(
      f, "bss_config_changed", Some(group),
      name + " changed between beacons of this BSS (" + Text.Decimal(n) + " different values).")
  {
    hide *;
    var v := AnnouncementOf(Members(cfg, rows, group), key, name, n);
    TheRuleSays(cfg, rows, group, v);
    ToldOfGroup(cfg, rows, findings, group, "bss_config_changed", v);
  }

  lemma {:induction false} ToldOfGroup(
    cfg: Config, rows: seq<Row>, findings: seq<Finding>, group: string, rule: string, v: GroupVerdict)
    requires TellsAll(cfg, rows, findings) && SaidOfGroup(cfg, rows, group, rule, v)
    ensures exists f :: f in findings && Under(f, rule, Some(group), v.message)
  {
    hide SaidOfGroup, SaidOfRow;
  }

  lemma {:induction false} TheRuleSays(cfg: Config, rows: seq<Row>, group: string, v: GroupVerdict)
    requires cfg.groupRules == GROUP_RULES && "bss_config_changed" in cfg.ruleIds
    requires exists row :: row in rows && Carries(row, cfg.groupBy, group)
    requires v in BssConfigChanged(Members(cfg, rows, group), STABLE_KEYS)
    ensures SaidOfGroup(cfg, rows, group, "bss_config_changed", v)
  {
  }

  // ---- how often a frame is listed ----------------------------------------------------

  lemma {:induction false} DedupeOnce(ids: seq<string>)
    ensures NoRepeats(Dedupe(ids))
  {
    if ids != [] {
      DedupeOnce(ids[..|ids| - 1]);
    }
  }

  ghost function Listed(raised: seq<Raised>, key: FindingKey, n: int): nat { multiset(FramesUnder(raised, key))[n] }

  lemma {:induction false} ListedConcat(a: seq<Raised>, b: seq<Raised>, key: FindingKey, n: int)
    ensures Listed(a + b, key, n) == Listed(a, key, n) + Listed(b, key, n)
  {
    ConcatMapConcat(a, b, FramesFor(key));
  }

  /** Of sources without repeats, only one of which raises anything under the key, that one counts. */
  lemma {:induction false} ListedByOne<X>(xs: seq<X>, f: X -> seq<Raised>, x: X, key: FindingKey, n: int)
    requires NoRepeats(xs) && forall y :: y in xs && y != x ==> Listed(f(y), key, n) == 0
    ensures Listed(ConcatMap(xs, f), key, n) == if x in xs then Listed(f(x), key, n) else 0
  {
    hide Listed;
    if xs == [] {
      ListedNothing(key, n);
    } else {
      assert forall y :: y in xs <==> y == xs[0] || y in xs[1..];
      assert xs[0] !in xs[1..];
      ListedByOne(xs[1..], f, x, key, n);
      ListedConcat(f(xs[0]), ConcatMap(xs[1..], f), key, n);
    }
  }

  lemma {:induction false} ListedNothing(key: FindingKey, n: int)
    ensures Listed([], key, n) == 0
  {
  }

  /** A row says this under this key, and carries this frame. */
  ghost predicate RowTells(cfg: Config, row: Row, key: FindingKey, n: int) {
    && (exists severity :: SaidOfRow(cfg, row, key.rule, Verdict(severity, key.message)))
    && GroupOf(row, cfg.groupBy) == key.group && Other("frame") in row && row[Other("frame")] == Int(n)
  }

  ghost function RowsTelling(cfg: Config, rows: seq<Row>, key: FindingKey, n: int): nat {
    if rows == [] then 0 else (if RowTells(cfg, rows[0], key, n) then 1 else 0) + RowsTelling(cfg, rows[1..], key, n)
  }

  ghost function VerdictsTelling(vs: seq<GroupVerdict>, message: string, n: int): nat {
    if vs == [] then 0
    else (if vs[0].message == message then multiset(vs[0].frames)[n] else 0) + VerdictsTelling(vs[1..], message, n)
  }

  /** How often the verdicts of the rule on the group of the key list the frame. */
  ghost function GroupTelling(cfg: Config, rows: seq<Row>, key: FindingKey, n: int): nat {
    if key.group.Some? && key.rule in cfg.ruleIds && key.rule in cfg.groupRules
       && (exists row :: row in rows && Carries(row, cfg.groupBy, key.group.value))
    then VerdictsTelling(cfg.groupRules[key.rule](Members(cfg, rows, key.group.value)), key.message, n)
    else 0
  }

  lemma {:induction false} ListedByRule(cfg: Config, row: Row, rule: string, key: FindingKey, n: int)
    requires rule in cfg.ruleIds
    ensures Listed(RaisedByRow(cfg, row, rule), key, n) == if rule == key.rule && RowTells(cfg, row, key, n) then 1 else 0
  {
    FrameOfIff(row, n);
    var raised := RaisedByRow(cfg, row, rule);
    if raised == [] {
      ListedNothing(key, n);
    } else {
      ListedSingle(raised[0], key, n);
      assert raised == [raised[0]];
      var v := cfg.rowRules[rule](row).value;
      assert v.message == key.message ==> v == Verdict(v.severity, key.message);
      hide Listed;
      CountOfFrame(FrameOf(row), n);
    }
  }

  lemma {:induction false} CountOfFrame(frames: seq<int>, n: int)
    requires frames == [] || exists m :: frames == [m]
    ensures multiset(frames)[n] == if frames == [n] then 1 else 0
  {
  }

  lemma {:induction false} ListedSingle(r: Raised, key: FindingKey, n: int)
    ensures Listed([r], key, n) == if KeyOf(r) == key then multiset(r.frames)[n] else 0
  {
    assert [r][1..] == [] && ConcatMap([r][1..], FramesFor(key)) == [];
    assert FramesUnder([r], key) == FramesFor(key)([r][0]);
  }

  lemma {:induction false} ListedByRow(cfg: Config, row: Row, key: FindingKey, n: int)
    requires NoRepeats(cfg.ruleIds)
    ensures Listed(RowRaised(cfg)(row), key, n) == if RowTells(cfg, row, key, n) then 1 else 0
  {
    hide Listed, RaisedByRow;
    var f := (rule: string) => RaisedByRow(cfg, row, rule);
    forall rule | rule in cfg.ruleIds
      ensures Listed(f(rule), key, n) == if rule == key.rule && RowTells(cfg, row, key, n) then 1 else 0
    {
      ListedByRule(cfg, row, rule, key, n);
    }
    ListedByOne(cfg.ruleIds, f, key.rule, key, n);
  }

  lemma {:induction false} ListedByRows(cfg: Config, rows: seq<Row>, key: FindingKey, n: int)
    requires NoRepeats(cfg.ruleIds)
    ensures Listed(ConcatMap(rows, RowRaised(cfg)), key, n) == RowsTelling(cfg, rows, key, n)
  {
    hide Listed, RowRaised, RowTells;
    if rows == [] {
      ListedNothing(key, n);
    } else {
      ListedByRow(cfg, rows[0], key, n);
      ListedByRows(cfg, rows[1..], key, n);
      ListedConcat(RowRaised(cfg)(rows[0]), ConcatMap(rows[1..], RowRaised(cfg)), key, n);
    }
  }

  lemma {:induction false} ListedByVerdicts(vs: seq<GroupVerdict>, rule: string, group: string, key: FindingKey, n: int)
    ensures Listed(ConcatMap(vs, AsRaised(rule, group)), key, n) ==
            if rule == key.rule && key.group == Some(group) then VerdictsTelling(vs, key.message, n) else 0
  {
    hide Listed;
    if vs == [] {
      ListedNothing(key, n);
    } else {
      ListedByVerdicts(vs[1..], rule, group, key, n);
      ListedConcat(AsRaised(rule, group)(vs[0]), ConcatMap(vs[1..], AsRaised(rule, group)), key, n);
      ListedSingle(Raised(rule, vs[0].severity, vs[0].message, Some(group), vs[0].frames), key, n);
    }
  }

  lemma {:induction false} ListedByGroupRule(cfg: Config, members: seq<Row>, group: string, rule: string, key: FindingKey, n: int)
    ensures Listed(RaisedByGroup(cfg, members, group, rule), key, n) ==
            if rule == key.rule && key.group == Some(group) && rule in cfg.groupRules
            then VerdictsTelling(cfg.groupRules[rule](members), key.message, n) else 0
  {
    hide Listed, VerdictsTelling;
    if rule in cfg.groupRules {
      ListedByVerdicts(cfg.groupRules[rule](members), rule, group, key, n);
    } else {
      ListedNothing(key, n);
    }
  }

  lemma {:induction false} ListedByGroup(cfg: Config, rows: seq<Row>, group: string, key: FindingKey, n: int)
    requires NoRepeats(cfg.ruleIds)
    ensures Listed(GroupRaised(cfg, rows)(group), key, n) ==
            if key.group == Some(group) && key.rule in cfg.ruleIds && key.rule in cfg.groupRules
            then VerdictsTelling(cfg.groupRules[key.rule](Members(cfg, rows, group)), key.message, n) else 0
  {
    hide Listed, RaisedByGroup, VerdictsTelling;
    var members := Members(cfg, rows, group);
    var f := (rule: string) => RaisedByGroup(cfg, Members(cfg, rows, group), group, rule);
    forall rule
      ensures Listed(f(rule), key, n) ==
              if rule == key.rule && key.group == Some(group) && rule in cfg.groupRules
              then VerdictsTelling(cfg.groupRules[rule](members), key.message, n) else 0
    {
      ListedByGroupRule(cfg, members, group, rule, key, n);
    }
    ListedByOne(cfg.ruleIds, f, key.rule, key, n);
  }

  lemma {:induction false} ListedByGroups(cfg: Config, rows: seq<Row>, key: FindingKey, n: int)
    requires NoRepeats(cfg.ruleIds)
    ensures Listed(ConcatMap(GroupOrder(cfg, rows), GroupRaised(cfg, rows)), key, n) == GroupTelling(cfg, rows, key, n)
  {
    hide Listed, GroupRaised, VerdictsTelling, Members, GroupOrder, Carries;
    var groups := GroupOrder(cfg, rows);
    forall group
      ensures Listed(GroupRaised(cfg, rows)(group), key, n) ==
              if key.group == Some(group) && key.rule in cfg.ruleIds && key.rule in cfg.groupRules
              then VerdictsTelling(cfg.groupRules[key.rule](Members(cfg, rows, group)), key.message, n) else 0
    {
      ListedByGroup(cfg, rows, group, key, n);
    }
    GroupOrderLists(cfg, rows);
    var group := key.group.GetOr("");
    ListedByOne(groups, GroupRaised(cfg, rows), group, key, n);
    GroupIsCarried(cfg, rows, group);
  }

  lemma {:induction false} GroupIsCarried(cfg: Config, rows: seq<Row>, group: string)
    ensures group in GroupOrder(cfg, rows) <==> exists row :: row in rows && Carries(row, cfg.groupBy, group)
  {
    GroupOrderLists(cfg, rows);
    forall row
      ensures GroupOf(row, cfg.groupBy) == Some(group) <==> Carries(row, cfg.groupBy, group)
    {
      GroupOfIff(row, cfg.groupBy, group);
    }
  }

  /**
    * Every frame is listed exactly as often as it is told: once for each row that carries it and says this, and as often
    * as the verdicts on the finding's group list it.
    */
  lemma {:induction false} FramesAreCounted(cfg: Config, rows: seq<Row>, findings: seq<Finding>, f: Finding, n: int)
    requires Collapses(findings, AllRaised(Effective(cfg), rows)) && f in findings
    ensures var key := FindingKeyOf(f);
      multiset(f.frames)[n] == RowsTelling(cfg, rows, key, n) + GroupTelling(cfg, rows, key, n)
  {
    var eff, key := Effective(cfg), FindingKeyOf(f);
    DedupeOnce(cfg.ruleIds);
    ListedByRows(eff, rows, key, n);
    ListedByGroups(eff, rows, key, n);
    ListedConcat(ConcatMap(rows, RowRaised(eff)), ConcatMap(GroupOrder(eff, rows), GroupRaised(eff, rows)), key, n);
    EffectiveTelling(cfg, rows, key, n);
    assert multiset(f.frames) == multiset(FramesUnder(AllRaised(eff, rows), key));
  }

  lemma {:induction false} EffectiveTelling(cfg: Config, rows: seq<Row>, key: FindingKey, n: int)
    ensures RowsTelling(Effective(cfg), rows, key, n) == RowsTelling(cfg, rows, key, n)
    ensures GroupTelling(Effective(cfg), rows, key, n) == GroupTelling(cfg, rows, key, n)
  {
    EffectiveMembers(cfg, rows);
    EffectiveRows(cfg, rows, key, n);
  }

  lemma {:induction false} EffectiveRows(cfg: Config, rows: seq<Row>, key: FindingKey, n: int)
    ensures RowsTelling(Effective(cfg), rows, key, n) == RowsTelling(cfg, rows, key, n)
  {
    if rows != [] {
      EffectiveRows(cfg, rows[1..], key, n);
      assert RowTells(Effective(cfg), rows[0], key, n) <==> RowTells(cfg, rows[0], key, n);
    }
  }
}
