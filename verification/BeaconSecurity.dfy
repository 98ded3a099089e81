/**
 * Recovering a beacon's own RSN element from tshark's flattened view of it.
 *
 * IEEE Std 802.11-2020: section 9.3.3.2 orders a beacon's elements (RSN ahead of Multiple BSSID), section 9.4.2.24
 * gives the RSN element (everything after its version is optional, and in order), section 9.4.2.45 nests the
 * elements of nontransmitted BSSes inside a Multiple BSSID element.
 */
module BeaconSecurity {
  import opened Common

  const MBSSID_ELEMENT: int := 71
  const RSN_ELEMENT: int := 48

  // ---- the beacon ---------------------------------------------------------------------

  datatype Caps = Caps(mfpr: bool, mfpc: bool)

  /** One RSN element; a field the element stops short of is `None`. */
  datatype Rsn = Rsn(group: Option<int>, pairwise: Option<seq<int>>, akm: Option<seq<int>>, caps: Option<Caps>)

  datatype Element =
    | Security(rsn: Rsn)
    | MultipleBssid(nested: seq<Element>)
    | Plain(id: int)

  datatype Beacon = Beacon(privacy: Option<bool>, elements: seq<Element>)

  predicate WellFormed(es: seq<Element>) {
    es != [] ==>
      && WellFormed(es[1..])
      && match es[0]
         case Plain(id) => id != RSN_ELEMENT && id != MBSSID_ELEMENT
         case MultipleBssid(nested) => WellFormed(nested)
         case Security(_) => true
  }

  /** The transmitting BSS's own RSN element: the first one that is not nested. */
  function Own(es: seq<Element>): Option<Rsn> {
    if es == [] then None
    else if es[0].Security? then Some(es[0].rsn)
    else Own(es[1..])
  }

  /** The standard's order: an RSN element of the transmitting BSS, ahead of any Multiple BSSID element. */
  predicate RsnLeads(es: seq<Element>) {
    es != [] && (es[0].Security? || (es[0].Plain? && RsnLeads(es[1..])))
  }

  /** Every field carried. */
  predicate Complete(r: Rsn) {
    r.group.Some? && r.pairwise.Some? && r.akm.Some? && r.caps.Some?
  }

  // ---- what tshark makes of it --------------------------------------------------------

  function FlatTags(es: seq<Element>): seq<int> {
    if es == [] then []
    else
      (match es[0]
       case Security(_) => [RSN_ELEMENT]
       case MultipleBssid(nested) => [MBSSID_ELEMENT] + FlatTags(nested)
       case Plain(id) => [id]) + FlatTags(es[1..])
  }

  function FlatRsns(es: seq<Element>): seq<Rsn> {
    if es == [] then []
    else
      (match es[0]
       case Security(r) => [r]
       case MultipleBssid(nested) => FlatRsns(nested)
       case Plain(_) => []) + FlatRsns(es[1..])
  }

  /** A decoded table cell; `Null` says the frame does not carry the field. */
  datatype Cell = Null | Int(n: int) | Bool(b: bool) | Text(text: string) | Ints(ns: seq<int>) | Texts(ts: seq<string>)

  /** The columns of a beacon table; `Other` are those that have nothing to do with security. */
  datatype Key =
    | Akm | GroupCipher | PairwiseCipher | Mfpr | Mfpc
    | WpaVersion | WpaGroupCipher | WpaPairwiseCipher
    | TagNumbers | AkmCount | PcsCount
    | Privacy | RsnUnresolved
    | Other(name: string)

  type Row = map<Key, Cell>

  const RSN_KEYS: set<Key> := {Akm, GroupCipher, PairwiseCipher, Mfpr, Mfpc}
  const WPA_KEYS: set<Key> := {WpaVersion, WpaGroupCipher, WpaPairwiseCipher}
  const HELPER_KEYS: set<Key> := {TagNumbers, AkmCount, PcsCount}

  /** Every occurrence of a repeated list field, merged. */
  function Merged(lists: seq<Option<seq<int>>>): seq<int> {
    if lists == [] then [] else lists[0].GetOr([]) + Merged(lists[1..])
  }

  /** The per-element count fields, one for each element that carries the list. */
  function Counts(lists: seq<Option<seq<int>>>): seq<int> {
    if lists == [] then []
    else (if lists[0].Some? then [|lists[0].value|] else []) + Counts(lists[1..])
  }

  /** A repeated scalar field decodes to its first occurrence. */
  function FirstCarried<T>(xs: seq<Option<T>>): Option<T> {
    if xs == [] then None else if xs[0].Some? then xs[0] else FirstCarried(xs[1..])
  }

  function Akms(rs: seq<Rsn>): (r: seq<Option<seq<int>>>)
    ensures |r| == |rs| && forall i :: 0 <= i < |r| ==> r[i] == rs[i].akm
  {
    if rs == [] then [] else [rs[0].akm] + Akms(rs[1..])
  }

  function Pairwises(rs: seq<Rsn>): (r: seq<Option<seq<int>>>)
    ensures |r| == |rs| && forall i :: 0 <= i < |r| ==> r[i] == rs[i].pairwise
  {
    if rs == [] then [] else [rs[0].pairwise] + Pairwises(rs[1..])
  }

  function Groups(rs: seq<Rsn>): (r: seq<Option<int>>)
    ensures |r| == |rs| && forall i :: 0 <= i < |r| ==> r[i] == rs[i].group
  {
    if rs == [] then [] else [rs[0].group] + Groups(rs[1..])
  }

  function Capabilities(rs: seq<Rsn>): (r: seq<Option<Caps>>)
    ensures |r| == |rs| && forall i :: 0 <= i < |r| ==> r[i] == rs[i].caps
  {
    if rs == [] then [] else [rs[0].caps] + Capabilities(rs[1..])
  }


  function ListCell(xs: seq<int>): Cell { if xs == [] then Null else Ints(xs) }
  function IntCell(x: Option<int>): Cell { if x.None? then Null else Int(x.value) }
  function BoolCell(x: Option<bool>): Cell { if x.None? then Null else Bool(x.value) }

  /** Every column there is, decoded. `decoded` says whether the list of element ids parsed. */
  function AllCells(b: Beacon, decoded: bool): Row {
    var r := FirstFields(FlatRsns(b.elements));
    map[
      Akm := ListCell(Merged(Akms(FlatRsns(b.elements)))),
      PairwiseCipher := ListCell(Merged(Pairwises(FlatRsns(b.elements)))),
      GroupCipher := IntCell(r.group),
      Mfpr := BoolCell(MfprOf(r)),
      Mfpc := BoolCell(MfpcOf(r)),
      TagNumbers := if decoded then ListCell(FlatTags(b.elements)) else Null,
      AkmCount := ListCell(Counts(Akms(FlatRsns(b.elements)))),
      PcsCount := ListCell(Counts(Pairwises(FlatRsns(b.elements)))),
      Privacy := BoolCell(b.privacy)]
  }

  function MfprOf(r: Rsn): Option<bool> { if r.caps.None? then None else Some(r.caps.value.mfpr) }
  function MfpcOf(r: Rsn): Option<bool> { if r.caps.None? then None else Some(r.caps.value.mfpc) }

  /** Each field from the first element that carries it. */
  function FirstFields(rs: seq<Rsn>): Rsn {
    Rsn(FirstCarried(Groups(rs)), FirstCarried(Pairwises(rs)), FirstCarried(Akms(rs)), FirstCarried(Capabilities(rs)))
  }

  function Visible(all: Row, resolved: set<Key>): Row {
    map key | key in all && key in resolved :: all[key]
  }

  /**
   * The decoded row of one frame. `resolved` are the columns this tshark can produce, `others` the columns that
   * have nothing to do with RSN.
   */
  function FlattenedRow(b: Beacon, resolved: set<Key>, decoded: bool, others: Row): Row {
    others + Visible(AllCells(b, decoded), resolved)
  }

  // ---- the recovery -------------------------------------------------------------------

  function ListAt(row: Row, key: Key): Option<seq<int>> {
    if key in row && row[key].Ints? then Some(row[key].ns) else None
  }

  function IndexOf(s: seq<int>, v: int): (i: nat)
    ensures i <= |s|
    ensures v in s ==> i < |s| && s[i] == v
    ensures forall j :: 0 <= j < i ==> s[j] != v
  {
    if s == [] || s[0] == v then 0 else 1 + IndexOf(s[1..], v)
  }

  function CountOf(s: seq<int>, v: int): nat {
    if s == [] then 0 else (if s[0] == v then 1 else 0) + CountOf(s[1..], v)
  }

  function Sum(s: seq<int>): int {
    if s == [] then 0 else s[0] + Sum(s[1..])
  }

  /** A slice up to `k`, counting from the end when `k` is negative. */
  function SliceTo(s: seq<int>, k: int): seq<int> {
    if k >= |s| then s else if k >= 0 then s[..k] else if k + |s| >= 0 then s[..k + |s|] else []
  }

  function Unresolved(row: Row): Row {
    (row - RSN_KEYS)[RsnUnresolved := Bool(true)]
  }

  /** One list column cut down to the first element's share; `None` when it cannot be told apart. */
  function Reduced(row: Row, key: Key, counts: Option<seq<int>>, several: bool): Option<Row> {
    var values := ListAt(row, key);
    if values.None? then Some(row)
    else if counts.None? || counts.value == [] then if several then None else Some(row)
    else if Sum(counts.value) != |values.value| then None
    else Some(row[key := Ints(SliceTo(values.value, counts.value[0]))])
  }

  /** The row without its helper columns, and without the WPA columns when a Multiple BSSID element is about. */
  function Bare(row: Row, tags: seq<int>): Row {
    if MBSSID_ELEMENT in tags then row - HELPER_KEYS - WPA_KEYS else row - HELPER_KEYS
  }

  function ReduceBoth(row: Row, akmCount: Option<seq<int>>, pcsCount: Option<seq<int>>, several: bool): Row {
    var first := Reduced(row, Akm, akmCount, several);
    if first.None? then Unresolved(row)
    else
      var second := Reduced(first.value, PairwiseCipher, pcsCount, several);
      if second.None? then Unresolved(first.value) else second.value
  }

  function AsOpen(row: Row): Row { row + map key | key in RSN_KEYS :: Null }

  function KeepTransmitting(row: Row): Row {
    var tags := ListAt(row, TagNumbers).GetOr([]);
    var kept := Bare(row, tags);
    if RSN_ELEMENT !in tags then kept
    else if MBSSID_ELEMENT in tags && IndexOf(tags, MBSSID_ELEMENT) < IndexOf(tags, RSN_ELEMENT) then
      if Privacy in kept && kept[Privacy] == Bool(false) then AsOpen(kept) else Unresolved(kept)
    else
      ReduceBoth(kept, ListAt(row, AkmCount), ListAt(row, PcsCount), CountOf(tags, RSN_ELEMENT) > 1)
  }

  // ---- what flattening loses and keeps ------------------------------------------------

  lemma {:induction false} IndexOfConcat(a: seq<int>, b: seq<int>, v: int)
    ensures IndexOf(a + b, v) == if v in a then IndexOf(a, v) else |a| + IndexOf(b, v)
  {
    if a == [] {
      assert a + b == b;
    } else {
      assert (a + b)[1..] == a[1..] + b;
      IndexOfConcat(a[1..], b, v);
      assert v in a <==> v == a[0] || v in a[1..];
    }
  }

  lemma {:induction false} CountOfConcat(a: seq<int>, b: seq<int>, v: int)
    ensures CountOf(a + b, v) == CountOf(a, v) + CountOf(b, v)
  {
    if a == [] {
      assert a + b == b;
    } else {
      assert (a + b)[1..] == a[1..] + b;
      CountOfConcat(a[1..], b, v);
    }
  }

  lemma {:induction false} CountOfPositive(s: seq<int>, v: int)
    ensures CountOf(s, v) > 0 <==> v in s
  {
    if s != [] {
      CountOfPositive(s[1..], v);
      assert v in s <==> v == s[0] || v in s[1..];
    }
  }

  lemma {:induction false} TagsCountRsns(es: seq<Element>)
    requires WellFormed(es)
    ensures CountOf(FlatTags(es), RSN_ELEMENT) == |FlatRsns(es)|
    ensures RSN_ELEMENT in FlatTags(es) <==> FlatRsns(es) != []
  {
    CountOfPositive(FlatTags(es), RSN_ELEMENT);
    if es != [] {
      TagsCountRsns(es[1..]);
      match es[0]
      case MultipleBssid(nested) =>
        TagsCountRsns(nested);
        CountOfConcat([MBSSID_ELEMENT], FlatTags(nested), RSN_ELEMENT);
        CountOfConcat([MBSSID_ELEMENT] + FlatTags(nested), FlatTags(es[1..]), RSN_ELEMENT);
      case Security(_) =>
        CountOfConcat([RSN_ELEMENT], FlatTags(es[1..]), RSN_ELEMENT);
      case Plain(id) =>
        CountOfConcat([id], FlatTags(es[1..]), RSN_ELEMENT);
    }
  }

  /** In the standard's order the first flattened RSN element is the transmitting BSS's own, and no 71 is ahead of it. */
  lemma {:induction false} LeadingRsnIsOwn(es: seq<Element>)
    requires WellFormed(es) && RsnLeads(es)
    ensures var tags := FlatTags(es);
            && Own(es).Some? && FlatRsns(es) != [] && FlatRsns(es)[0] == Own(es).value
            && RSN_ELEMENT in tags
            && (MBSSID_ELEMENT in tags ==> IndexOf(tags, RSN_ELEMENT) < IndexOf(tags, MBSSID_ELEMENT))
  {
    if es[0].Plain? {
      LeadingRsnIsOwn(es[1..]);
      IndexOfConcat([es[0].id], FlatTags(es[1..]), RSN_ELEMENT);
      IndexOfConcat([es[0].id], FlatTags(es[1..]), MBSSID_ELEMENT);
    }
  }

  /** Out of order or absent, every flattened RSN element sits behind a 71. */
  lemma {:induction false} OtherwiseMbssidLeads(es: seq<Element>)
    requires WellFormed(es) && !RsnLeads(es) && FlatRsns(es) != []
    ensures var tags := FlatTags(es);
            MBSSID_ELEMENT in tags && IndexOf(tags, MBSSID_ELEMENT) < IndexOf(tags, RSN_ELEMENT)
  {
    match es[0]
    case Plain(id) =>
      OtherwiseMbssidLeads(es[1..]);
      IndexOfConcat([id], FlatTags(es[1..]), RSN_ELEMENT);
      IndexOfConcat([id], FlatTags(es[1..]), MBSSID_ELEMENT);
    case MultipleBssid(nested) =>
      assert FlatTags(es)[0] == MBSSID_ELEMENT;
  }

  lemma {:induction false} CountsSumToMerged(lists: seq<Option<seq<int>>>)
    ensures Sum(Counts(lists)) == |Merged(lists)|
    ensures Merged(lists) != [] ==> Counts(lists) != []
    ensures Counts(lists) != [] <==> FirstCarried(lists).Some?
    ensures FirstCarried(lists).Some? ==>
              var own := FirstCarried(lists).value;
              Counts(lists)[0] == |own| && |own| <= |Merged(lists)| && Merged(lists)[..|own|] == own
  {
    if lists != [] {
      CountsSumToMerged(lists[1..]);
      if lists[0].Some? {
        assert Counts(lists)[1..] == Counts(lists[1..]);
        var own := lists[0].value;
        assert Merged(lists)[..|own|] == own;
      } else {
        assert Merged(lists) == Merged(lists[1..]);
        assert Counts(lists) == Counts(lists[1..]);
      }
    }
  }

  // ---- what a recovered row says ------------------------------------------------------

  /** A list cell as the rules read it: an empty list and no list are the same to them. */
  function ListMeaning(row: Row, key: Key): seq<int> { ListAt(row, key).GetOr([]) }

  predicate IsUnresolved(row: Row) {
    RsnUnresolved in row && row[RsnUnresolved] == Bool(true) && row.Keys !! RSN_KEYS
  }

  /** The row tells `own`'s values and nobody else's; a field `own` stops short of reads as absent. */
  ghost predicate Tells(row: Row, own: Option<Rsn>, resolved: set<Key>) {
    var r := own.GetOr(Rsn(None, None, None, None));
    && RsnUnresolved !in row
    && (Akm in resolved ==> Akm in row && ListMeaning(row, Akm) == r.akm.GetOr([]))
    && (PairwiseCipher in resolved ==>
          PairwiseCipher in row && ListMeaning(row, PairwiseCipher) == r.pairwise.GetOr([]))
    && (GroupCipher in resolved ==> GroupCipher in row && row[GroupCipher] == IntCell(r.group))
    && (Mfpr in resolved ==>
          Mfpr in row && row[Mfpr] == BoolCell(MfprOf(r)))
    && (Mfpc in resolved ==>
          Mfpc in row && row[Mfpc] == BoolCell(MfpcOf(r)))
  }

  ghost predicate Columns(resolved: set<Key>, others: Row) {
    TagNumbers in resolved && others.Keys !! RSN_KEYS + HELPER_KEYS + {RsnUnresolved, Privacy}
  }

  /** One column of a flattened row. */
  ghost predicate Shows(row: Row, resolved: set<Key>, key: Key, cell: Cell) {
    if key in resolved then key in row && row[key] == cell else key !in row
  }

  ghost predicate IsFlattened(row: Row, b: Beacon, resolved: set<Key>, decoded: bool) {
    var rs := FlatRsns(b.elements);
    && RsnUnresolved !in row
    && Shows(row, resolved, TagNumbers, if decoded then ListCell(FlatTags(b.elements)) else Null)
    && Shows(row, resolved, AkmCount, ListCell(Counts(Akms(rs))))
    && Shows(row, resolved, PcsCount, ListCell(Counts(Pairwises(rs))))
    && Shows(row, resolved, Privacy, BoolCell(b.privacy))
    && RsnCells(row, resolved, rs)
  }

  ghost predicate RsnCells(row: Row, resolved: set<Key>, rs: seq<Rsn>) {
    && Shows(row, resolved, Akm, ListCell(Merged(Akms(rs))))
    && Shows(row, resolved, PairwiseCipher, ListCell(Merged(Pairwises(rs))))
    && Scalars(row, resolved, FirstFields(rs))
  }

  ghost predicate Scalars(row: Row, resolved: set<Key>, r: Rsn) {
    && Shows(row, resolved, GroupCipher, IntCell(r.group))
    && Shows(row, resolved, Mfpr, BoolCell(MfprOf(r)))
    && Shows(row, resolved, Mfpc, BoolCell(MfpcOf(r)))
  }

  lemma {:induction false} CellShows(b: Beacon, resolved: set<Key>, decoded: bool, others: Row, key: Key)
    requires key in AllCells(b, decoded) && key !in others
    ensures Shows(FlattenedRow(b, resolved, decoded, others), resolved, key, AllCells(b, decoded)[key])
  {
  }

  lemma {:induction false} CellsAre(b: Beacon, decoded: bool)
    ensures var all, rs := AllCells(b, decoded), FlatRsns(b.elements);
            && all.Keys == RSN_KEYS + HELPER_KEYS + {Privacy}
            && all[Akm] == ListCell(Merged(Akms(rs))) && all[PairwiseCipher] == ListCell(Merged(Pairwises(rs)))
            && all[GroupCipher] == IntCell(FirstFields(rs).group)
            && all[Mfpr] == BoolCell(MfprOf(FirstFields(rs))) && all[Mfpc] == BoolCell(MfpcOf(FirstFields(rs)))
            && all[TagNumbers] == (if decoded then ListCell(FlatTags(b.elements)) else Null)
            && all[AkmCount] == ListCell(Counts(Akms(rs))) && all[PcsCount] == ListCell(Counts(Pairwises(rs)))
            && all[Privacy] == BoolCell(b.privacy)
  {
    hide Merged, Counts, FirstFields, FlatRsns, FlatTags, ListCell, IntCell, BoolCell;
  }

  lemma {:induction false} FlattenedRowIsFlattened(b: Beacon, resolved: set<Key>, decoded: bool, others: Row)
    requires Columns(resolved, others)
    ensures IsFlattened(FlattenedRow(b, resolved, decoded, others), b, resolved, decoded)
  {
    var row := FlattenedRow(b, resolved, decoded, others);
    CellsAre(b, decoded);
    UnflaggedAtFirst(b, resolved, decoded, others);
    forall key | key in AllCells(b, decoded)
      ensures Shows(row, resolved, key, AllCells(b, decoded)[key])
    {
      CellShows(b, resolved, decoded, others, key);
    }
    hide FlattenedRow, AllCells, Shows, FirstFields, FlatRsns, FlatTags, ListCell, IntCell, BoolCell, Merged, Counts;
  }

  lemma {:induction false} UnflaggedAtFirst(b: Beacon, resolved: set<Key>, decoded: bool, others: Row)
    requires Columns(resolved, others)
    ensures RsnUnresolved !in FlattenedRow(b, resolved, decoded, others)
  {
    CellKeys(b, decoded);
    hide AllCells;
  }

  lemma {:induction false} CellKeys(b: Beacon, decoded: bool)
    ensures AllCells(b, decoded).Keys == RSN_KEYS + HELPER_KEYS + {Privacy}
  {
    CellsAre(b, decoded);
  }

  lemma {:induction false} BareKeepsRsn(row: Row, tags: seq<int>, resolved: set<Key>, rs: seq<Rsn>)
    requires RsnCells(row, resolved, rs)
    ensures RsnCells(Bare(row, tags), resolved, rs)
  {
  }

  /** One list column with its counts at hand: the first share, whatever follows. */
  lemma {:induction false} ReduceWithCounts(row: Row, key: Key, lists: seq<Option<seq<int>>>, several: bool)
    requires key in row && row[key] == ListCell(Merged(lists))
    ensures var counts := if Counts(lists) == [] then None else Some(Counts(lists));
            var out := Reduced(row, key, counts, several);
            && out.Some? && key in out.value
            && ListMeaning(out.value, key) == FirstCarried(lists).GetOr([])
            && out.value == row[key := out.value[key]]
  {
    hide Merged, Counts, FirstCarried, Sum;
    CountsSumToMerged(lists);
    if Merged(lists) == [] {
      assert row == row[key := row[key]];
    }
  }

  /** Whether a list column can be told apart: by its counts, or because there is nothing to tell apart. */
  ghost predicate Splits(resolved: set<Key>, key: Key, countKey: Key, lists: seq<Option<seq<int>>>) {
    key in resolved ==> countKey in resolved || |lists| <= 1 || Merged(lists) == []
  }

  /** The counts the recovery finds for a list column. */
  ghost function CountsAt(resolved: set<Key>, countKey: Key, lists: seq<Option<seq<int>>>): Option<seq<int>> {
    if countKey in resolved && Counts(lists) != [] then Some(Counts(lists)) else None
  }

  ghost predicate OnlyReduced(row: Row, out: Row, key: Key, first: seq<int>) {
    && out.Keys == row.Keys
    && (forall k :: k in row && k != key ==> out[k] == row[k])
    && (key in row ==> ListMeaning(out, key) == first)
  }

  /** One list column, counts or not: given up exactly when it cannot be told apart, the first carried list if not. */
  lemma {:induction false} ReduceOne(
    row: Row, resolved: set<Key>, key: Key, countKey: Key, lists: seq<Option<seq<int>>>)
    requires key in row ==> row[key] == ListCell(Merged(lists))
    requires key in row <==> key in resolved
    ensures var out := Reduced(row, key, CountsAt(resolved, countKey, lists), |lists| > 1);
            && (out.Some? <==> Splits(resolved, key, countKey, lists))
            && (out.Some? ==> OnlyReduced(row, out.value, key, FirstCarried(lists).GetOr([])))
  {
    CountsSumToMerged(lists);
    if key in row && countKey in resolved {
      ReduceWithCounts(row, key, lists, |lists| > 1);
    } else if key in row && (|lists| <= 1 || Merged(lists) == []) {
      FirstIsAll(lists);
    }
  }

  /** One element's list is the whole merge; and a merge of nothing says the first list is empty. */
  lemma {:induction false} FirstIsAll(lists: seq<Option<seq<int>>>)
    requires |lists| <= 1 || Merged(lists) == []
    ensures Merged(lists) == FirstCarried(lists).GetOr([])
  {
    CountsSumToMerged(lists);
    if |lists| == 1 {
      assert lists[1..] == [];
      assert Merged(lists) == lists[0].GetOr([]) + [];
    }
  }

  /** Both list columns, whatever counts are at hand. */
  lemma {:induction false} ReduceBothTells(row: Row, resolved: set<Key>, rs: seq<Rsn>)
    requires RsnCells(row, resolved, rs) && RsnUnresolved !in row
    ensures var out := ReduceBoth(row, CountsAt(resolved, AkmCount, Akms(rs)), CountsAt(resolved, PcsCount, Pairwises(rs)),
                                  |rs| > 1);
            if Splits(resolved, Akm, AkmCount, Akms(rs)) && Splits(resolved, PairwiseCipher, PcsCount, Pairwises(rs))
            then Tells(out, Some(FirstFields(rs)), resolved) else IsUnresolved(out)
  {
    hide Merged, Counts, FirstFields, Reduced, CountsAt, Splits, Tells, IsUnresolved, Unresolved, RsnCells, OnlyReduced;
    RsnCellsLists(row, resolved, rs);
    ReduceOne(row, resolved, Akm, AkmCount, Akms(rs));
    UnresolvedIsUnresolved(row);
    var first := Reduced(row, Akm, CountsAt(resolved, AkmCount, Akms(rs)), |rs| > 1);
    if first.Some? {
      ReducedKeepsKeys(row, first.value, Akm, FirstCarried(Akms(rs)).GetOr([]));
      UnresolvedIsUnresolved(first.value);
      ReduceOne(first.value, resolved, PairwiseCipher, PcsCount, Pairwises(rs));
      var second := Reduced(first.value, PairwiseCipher, CountsAt(resolved, PcsCount, Pairwises(rs)), |rs| > 1);
      if second.Some? {
        ReducedTwiceTells(row, first.value, second.value, resolved, rs);
      }
    }
  }

  lemma {:induction false} RsnCellsLists(row: Row, resolved: set<Key>, rs: seq<Rsn>)
    requires RsnCells(row, resolved, rs)
    ensures (Akm in row <==> Akm in resolved) && (PairwiseCipher in row <==> PairwiseCipher in resolved)
    ensures Akm in row ==> row[Akm] == ListCell(Merged(Akms(rs)))
    ensures PairwiseCipher in row ==> row[PairwiseCipher] == ListCell(Merged(Pairwises(rs)))
  {
  }

  lemma {:induction false} ReducedKeepsKeys(row: Row, out: Row, key: Key, first: seq<int>)
    requires OnlyReduced(row, out, key, first)
    ensures out.Keys == row.Keys && forall k :: k in row && k != key ==> out[k] == row[k]
  {
  }

  lemma {:induction false} ReducedTwiceTells(row: Row, once: Row, twice: Row, resolved: set<Key>, rs: seq<Rsn>)
    requires RsnCells(row, resolved, rs) && RsnUnresolved !in row
    requires OnlyReduced(row, once, Akm, FirstCarried(Akms(rs)).GetOr([]))
    requires OnlyReduced(once, twice, PairwiseCipher, FirstCarried(Pairwises(rs)).GetOr([]))
    ensures Tells(twice, Some(FirstFields(rs)), resolved)
  {
    hide Merged, Counts, FirstCarried;
  }

  /**
   * In the standard's order the row says what the elements carry first, field by field; or gives up, exactly when
   * several elements' lists cannot be told apart for want of their counts.
   */
  lemma {:induction false} RecoverLeading(b: Beacon, resolved: set<Key>, others: Row)
    requires WellFormed(b.elements) && RsnLeads(b.elements) && Columns(resolved, others)
    ensures var row, rs := KeepTransmitting(FlattenedRow(b, resolved, true, others)), FlatRsns(b.elements);
            if Splits(resolved, Akm, AkmCount, Akms(rs)) && Splits(resolved, PairwiseCipher, PcsCount, Pairwises(rs))
            then Tells(row, Some(FirstFields(rs)), resolved) else IsUnresolved(row)
  {
    hide Tells, IsUnresolved, Splits, ReduceBoth, FirstFields, Bare, RsnCells, Merged, Counts;
    var rs, tags := FlatRsns(b.elements), FlatTags(b.elements);
    var row := FlattenedRow(b, resolved, true, others);
    FlattenedRowIsFlattened(b, resolved, true, others);
    LeadingRsnIsOwn(b.elements);
    TagsCountRsns(b.elements);
    assert ListAt(row, TagNumbers) == Some(tags);
    BareKeepsRsn(row, tags, resolved, rs);
    BareStaysResolved(row, tags);
    assert ListAt(row, AkmCount) == CountsAt(resolved, AkmCount, Akms(rs));
    assert ListAt(row, PcsCount) == CountsAt(resolved, PcsCount, Pairwises(rs));
    KeepLeading(row, tags);
    ReduceBothTells(Bare(row, tags), resolved, rs);
  }

  lemma {:induction false} BareStaysResolved(row: Row, tags: seq<int>)
    requires RsnUnresolved !in row
    ensures RsnUnresolved !in Bare(row, tags)
  {
  }

  lemma {:induction false} KeepLeading(row: Row, tags: seq<int>)
    requires ListAt(row, TagNumbers) == Some(tags) && RSN_ELEMENT in tags
    requires MBSSID_ELEMENT in tags ==> IndexOf(tags, RSN_ELEMENT) < IndexOf(tags, MBSSID_ELEMENT)
    ensures KeepTransmitting(row) ==
            ReduceBoth(Bare(row, tags), ListAt(row, AkmCount), ListAt(row, PcsCount), CountOf(tags, RSN_ELEMENT) > 1)
  {
  }

  lemma {:induction false} FirstFieldsOfComplete(rs: seq<Rsn>)
    requires rs != [] && Complete(rs[0])
    ensures FirstFields(rs) == rs[0]
  {
  }

  /**
   * Flatten, then recover. With a complete own RSN element and a truthful Privacy bit, the recovered row tells the
   * transmitting BSS's own settings or says that it cannot; it never tells another BSS's.
   */
  lemma {:induction false} RecoveryUndoesFlattening(b: Beacon, resolved: set<Key>, others: Row)
    requires WellFormed(b.elements) && Columns(resolved, others)
    requires Own(b.elements).Some? ==> Complete(Own(b.elements).value)
    requires b.privacy == Some(false) && Privacy in resolved ==> Own(b.elements).None?
    ensures var row := KeepTransmitting(FlattenedRow(b, resolved, true, others));
            IsUnresolved(row) || Tells(row, Own(b.elements), resolved)
  {
    if FlatRsns(b.elements) == [] {
      RecoverNothing(b, resolved, true, others);
    } else if RsnLeads(b.elements) {
      LeadingRsnIsOwn(b.elements);
      FirstFieldsOfComplete(FlatRsns(b.elements));
      RecoverLeading(b, resolved, others);
    } else {
      RecoverBehindMbssid(b, resolved, others);
    }
  }

  /** No RSN element at all: nothing is claimed. */
  lemma {:induction false} RecoverNothing(b: Beacon, resolved: set<Key>, decoded: bool, others: Row)
    requires WellFormed(b.elements) && Columns(resolved, others) && FlatRsns(b.elements) == []
    ensures Own(b.elements).None?
    ensures Tells(KeepTransmitting(FlattenedRow(b, resolved, decoded, others)), None, resolved)
  {
    var row := FlattenedRow(b, resolved, decoded, others);
    FlattenedRowIsFlattened(b, resolved, decoded, others);
    NoRsnAnywhere(b.elements);
    TagsCountRsns(b.elements);
    assert ListAt(row, TagNumbers).GetOr([]) == if decoded then FlatTags(b.elements) else [];
    BareKeepsRsn(row, ListAt(row, TagNumbers).GetOr([]), resolved, []);
  }

  lemma {:induction false} NoRsnAnywhere(es: seq<Element>)
    requires FlatRsns(es) == []
    ensures Own(es).None?
  {
    if es != [] {
      NoRsnAnywhere(es[1..]);
    }
  }

  /** A Multiple BSSID element ahead of the first RSN element: open if the Privacy bit says so, unresolved if not. */
  lemma {:induction false} RecoverBehindMbssid(b: Beacon, resolved: set<Key>, others: Row)
    requires WellFormed(b.elements) && Columns(resolved, others)
    requires !RsnLeads(b.elements) && FlatRsns(b.elements) != []
    ensures var row := KeepTransmitting(FlattenedRow(b, resolved, true, others));
            if b.privacy == Some(false) && Privacy in resolved then Tells(row, None, resolved) else IsUnresolved(row)
  {
    var row, tags := FlattenedRow(b, resolved, true, others), FlatTags(b.elements);
    FlattenedRowIsFlattened(b, resolved, true, others);
    OtherwiseMbssidLeads(b.elements);
    TagsCountRsns(b.elements);
    assert ListAt(row, TagNumbers) == Some(tags);
    BehindMbssid(row, tags, b.privacy, resolved);
  }

  lemma {:induction false} BehindMbssid(row: Row, tags: seq<int>, privacy: Option<bool>, resolved: set<Key>)
    requires ListAt(row, TagNumbers) == Some(tags) && RSN_ELEMENT in tags && RsnUnresolved !in row
    requires MBSSID_ELEMENT in tags && IndexOf(tags, MBSSID_ELEMENT) < IndexOf(tags, RSN_ELEMENT)
    requires Shows(row, resolved, Privacy, BoolCell(privacy))
    ensures if privacy == Some(false) && Privacy in resolved then Tells(KeepTransmitting(row), None, resolved)
            else IsUnresolved(KeepTransmitting(row))
  {
    KeepBehindMbssid(row, tags);
    var kept := Bare(row, tags);
    assert Shows(kept, resolved, Privacy, BoolCell(privacy));
    OpenTellsNothing(kept, resolved);
    UnresolvedIsUnresolved(kept);
  }

  lemma {:induction false} KeepBehindMbssid(row: Row, tags: seq<int>)
    requires ListAt(row, TagNumbers) == Some(tags) && RSN_ELEMENT in tags
    requires MBSSID_ELEMENT in tags && IndexOf(tags, MBSSID_ELEMENT) < IndexOf(tags, RSN_ELEMENT)
    ensures var kept := Bare(row, tags);
            KeepTransmitting(row) ==
            if Privacy in kept && kept[Privacy] == Bool(false) then AsOpen(kept) else Unresolved(kept)
  {
  }

  lemma {:induction false} OpenTellsNothing(row: Row, resolved: set<Key>)
    requires RsnUnresolved !in row
    ensures Tells(AsOpen(row), None, resolved)
  {
    assert RSN_KEYS <= AsOpen(row).Keys;
  }

  lemma {:induction false} UnresolvedIsUnresolved(row: Row)
    ensures IsUnresolved(Unresolved(row))
  {
  }

  /** Outside the columns of an RSN element nothing changes, and nothing is added but the flag. */
  ghost predicate LeavesRest(row: Row, out: Row) {
    && out.Keys <= row.Keys + RSN_KEYS + {RsnUnresolved}
    && forall key :: key in row && key !in RSN_KEYS + {RsnUnresolved} ==> key in out && out[key] == row[key]
  }

  lemma {:induction false} RewritesLeaveRest(row: Row)
    ensures LeavesRest(row, row) && LeavesRest(row, AsOpen(row)) && LeavesRest(row, Unresolved(row))
  {
  }

  lemma {:induction false} ReducedLeavesRest(row: Row, key: Key, counts: Option<seq<int>>, several: bool)
    requires key in RSN_KEYS
    ensures var out := Reduced(row, key, counts, several); out.Some? ==> LeavesRest(row, out.value)
  {
    hide Sum, SliceTo;
  }

  lemma {:induction false} LeavesRestTransitive(a: Row, b: Row, c: Row)
    requires LeavesRest(a, b) && LeavesRest(b, c)
    ensures LeavesRest(a, c)
  {
  }

  lemma {:induction false} ReduceBothLeavesRest(
    row: Row, akmCount: Option<seq<int>>, pcsCount: Option<seq<int>>, several: bool)
    ensures LeavesRest(row, ReduceBoth(row, akmCount, pcsCount, several))
  {
    hide Reduced, LeavesRest, Unresolved;
    RewritesLeaveRest(row);
    ReducedLeavesRest(row, Akm, akmCount, several);
    var first := Reduced(row, Akm, akmCount, several);
    if first.Some? {
      RewritesLeaveRest(first.value);
      ReducedLeavesRest(first.value, PairwiseCipher, pcsCount, several);
      LeavesRestTransitive(row, first.value, ReduceBoth(row, akmCount, pcsCount, several));
    }
  }

  lemma {:induction false} KeepLeavesRest(row: Row)
    ensures LeavesRest(Bare(row, ListAt(row, TagNumbers).GetOr([])), KeepTransmitting(row))
  {
    hide LeavesRest, ReduceBoth, Bare, AsOpen, Unresolved, IndexOf, CountOf;
    var tags := ListAt(row, TagNumbers).GetOr([]);
    RewritesLeaveRest(Bare(row, tags));
    ReduceBothLeavesRest(Bare(row, tags), ListAt(row, AkmCount), ListAt(row, PcsCount), CountOf(tags, RSN_ELEMENT) > 1);
  }

  /** Nothing outside the security columns is touched, and the helper columns are gone either way. */
  lemma {:induction false} RecoveryLeavesTheRest(row: Row)
    ensures var out := KeepTransmitting(row);
            && out.Keys !! HELPER_KEYS
            && (forall key :: key in row && key !in RSN_KEYS + WPA_KEYS + HELPER_KEYS + {RsnUnresolved} ==>
                  key in out && out[key] == row[key])
            && (ListAt(row, TagNumbers).Some? && MBSSID_ELEMENT in ListAt(row, TagNumbers).value ==>
                  out.Keys !! WPA_KEYS)
  {
    KeepLeavesRest(row);
    hide KeepTransmitting;
  }

  // ---- where the premises matter ------------------------------------------------------

  const NOTHING: Rsn := Rsn(None, None, None, None)

  /** Two elements say the same in the scalar columns at hand. */
  ghost predicate SameScalars(r: Rsn, own: Rsn, resolved: set<Key>) {
    && (GroupCipher in resolved ==> r.group == own.group)
    && (Mfpr in resolved ==> MfprOf(r) == MfprOf(own))
    && (Mfpc in resolved ==> MfpcOf(r) == MfpcOf(own))
  }

  ghost predicate SameLists(akm: seq<int>, pairwise: seq<int>, own: Rsn, resolved: set<Key>) {
    && (Akm in resolved ==> akm == own.akm.GetOr([]))
    && (PairwiseCipher in resolved ==> pairwise == own.pairwise.GetOr([]))
  }

  lemma {:induction false} TellsIff(row: Row, r: Rsn, own: Rsn, resolved: set<Key>)
    requires Tells(row, Some(r), resolved)
    ensures Tells(row, Some(own), resolved) <==>
            SameLists(r.akm.GetOr([]), r.pairwise.GetOr([]), own, resolved) && SameScalars(r, own, resolved)
  {
  }

  lemma {:induction false} UnresolvedTellsNobody(row: Row, own: Option<Rsn>, resolved: set<Key>)
    requires IsUnresolved(row)
    ensures !Tells(row, own, resolved)
  {
  }

  /**
   * Order alone is not enough: a field the own element stops short of is filled in from a nested one. In the
   * standard's order, whatever columns there are, the row is right if and only if its lists can be told apart and,
   * field by field, what the elements carry first is what the own element says.
   */
  lemma {:induction false} LeadingRightIff(b: Beacon, resolved: set<Key>, others: Row)
    requires WellFormed(b.elements) && RsnLeads(b.elements) && Columns(resolved, others)
    ensures Own(b.elements).Some?
    ensures var own, rs := Own(b.elements).value, FlatRsns(b.elements);
            var first := FirstFields(rs);
            Tells(KeepTransmitting(FlattenedRow(b, resolved, true, others)), Some(own), resolved) <==>
            && Splits(resolved, Akm, AkmCount, Akms(rs))
            && Splits(resolved, PairwiseCipher, PcsCount, Pairwises(rs))
            && SameLists(first.akm.GetOr([]), first.pairwise.GetOr([]), own, resolved)
            && SameScalars(first, own, resolved)
  {
    hide Tells, IsUnresolved, Splits, KeepTransmitting, FirstFields, SameLists, SameScalars;
    RecoverLeading(b, resolved, others);
    LeadingRsnIsOwn(b.elements);
    var row := KeepTransmitting(FlattenedRow(b, resolved, true, others));
    if IsUnresolved(row) {
      UnresolvedTellsNobody(row, Own(b.elements), resolved);
      UnresolvedTellsNobody(row, Some(FirstFields(FlatRsns(b.elements))), resolved);
    } else {
      TellsIff(row, FirstFields(FlatRsns(b.elements)), Own(b.elements).value, resolved);
    }
  }

  const OWN_WITHOUT_CAPS: Rsn := Rsn(Some(4), Some([4]), Some([2]), None)
  const NESTED_WPA3: Rsn := Rsn(Some(4), Some([4]), Some([8]), Some(Caps(true, true)))

  lemma {:induction false} FlatRsnsOfExample()
    ensures var es := [Security(OWN_WITHOUT_CAPS), MultipleBssid([Security(NESTED_WPA3)])];
            WellFormed(es) && RsnLeads(es) && FlatRsns(es) == [OWN_WITHOUT_CAPS, NESTED_WPA3]
  {
    var inner := [Security(NESTED_WPA3)];
    var es := [Security(OWN_WITHOUT_CAPS), MultipleBssid(inner)];
    assert inner[1..] == [] && es[1..] == [MultipleBssid(inner)] && es[1..][1..] == [];
    assert FlatRsns(inner) == [NESTED_WPA3];
  }

  lemma {:induction false} FirstCapsOfExample()
    ensures FirstFields([OWN_WITHOUT_CAPS, NESTED_WPA3]).caps == Some(Caps(true, true))
  {
    var caps := Capabilities([OWN_WITHOUT_CAPS, NESTED_WPA3]);
    assert caps[0] == None && caps[1] == Some(Caps(true, true));
    assert FirstCarried(caps) == FirstCarried(caps[1..]) && caps[1..][0] == caps[1];
  }

  /** An own element that ends before its capabilities takes them from a nontransmitted BSS. */
  lemma {:induction false} TruncatedOwnIsMisread()
    ensures var b := Beacon(Some(true), [Security(OWN_WITHOUT_CAPS), MultipleBssid([Security(NESTED_WPA3)])]);
            var resolved := RSN_KEYS + HELPER_KEYS;
            var row := KeepTransmitting(FlattenedRow(b, resolved, true, map[]));
            Mfpr in row && row[Mfpr] == Bool(true) && !Tells(row, Own(b.elements), resolved)
  {
    var b := Beacon(Some(true), [Security(OWN_WITHOUT_CAPS), MultipleBssid([Security(NESTED_WPA3)])]);
    FlatRsnsOfExample();
    FirstCapsOfExample();
    RecoverLeading(b, RSN_KEYS + HELPER_KEYS, map[]);
    LeadingRightIff(b, RSN_KEYS + HELPER_KEYS, map[]);
  }

  /**
   * Behind a Multiple BSSID element a clear Privacy bit reads as open. The row is right if and only if the bit is
   * there and clear, and the own element says nothing.
   */
  lemma {:induction false} OpenBitRightIff(b: Beacon, resolved: set<Key>, others: Row)
    requires WellFormed(b.elements) && Columns(resolved, others)
    requires !RsnLeads(b.elements) && FlatRsns(b.elements) != []
    ensures var own := Own(b.elements).GetOr(NOTHING);
            Tells(KeepTransmitting(FlattenedRow(b, resolved, true, others)), Own(b.elements), resolved) <==>
            && b.privacy == Some(false) && Privacy in resolved
            && SameLists([], [], own, resolved) && SameScalars(NOTHING, own, resolved)
  {
    RecoverBehindMbssid(b, resolved, others);
    var row := KeepTransmitting(FlattenedRow(b, resolved, true, others));
    if IsUnresolved(row) {
      UnresolvedTellsNobody(row, Own(b.elements), resolved);
      UnresolvedTellsNobody(row, None, resolved);
    } else {
      assert Tells(row, Some(NOTHING), resolved);
      TellsIff(row, NOTHING, Own(b.elements).GetOr(NOTHING), resolved);
    }
  }

  /**
   * When the element list did not decode, the columns stay merged: the row is right if and only if every merged list
   * is the own one and every scalar carried first is the own one.
   */
  lemma {:induction false} UndecodedRightIff(b: Beacon, resolved: set<Key>, others: Row)
    requires Columns(resolved, others)
    ensures var own, rs := Own(b.elements).GetOr(NOTHING), FlatRsns(b.elements);
            Tells(KeepTransmitting(FlattenedRow(b, resolved, false, others)), Own(b.elements), resolved) <==>
            && SameLists(Merged(Akms(rs)), Merged(Pairwises(rs)), own, resolved)
            && SameScalars(FirstFields(rs), own, resolved)
  {
    hide Merged, FirstFields;
    var rs, row := FlatRsns(b.elements), FlattenedRow(b, resolved, false, others);
    var merged := FirstFields(rs).(akm := Some(Merged(Akms(rs))), pairwise := Some(Merged(Pairwises(rs))));
    FlattenedRowIsFlattened(b, resolved, false, others);
    BareKeepsRsn(row, [], resolved, rs);
    BareStaysResolved(row, []);
    KeepWithoutTags(row);
    assert Tells(Bare(row, []), Some(merged), resolved);
    TellsIff(Bare(row, []), merged, Own(b.elements).GetOr(NOTHING), resolved);
    assert Tells(Bare(row, []), Own(b.elements), resolved) <==>
           Tells(Bare(row, []), Some(Own(b.elements).GetOr(NOTHING)), resolved);
  }

  /** When a recovered row is right, from the beacon and the columns at hand alone. */
  ghost predicate RightlyRead(b: Beacon, resolved: set<Key>, decoded: bool) {
    var rs, own := FlatRsns(b.elements), Own(b.elements).GetOr(NOTHING);
    var first := FirstFields(rs);
    if rs == [] then true
    else if !decoded then
      && SameLists(Merged(Akms(rs)), Merged(Pairwises(rs)), own, resolved)
      && SameScalars(first, own, resolved)
    else if RsnLeads(b.elements) then
      && Splits(resolved, Akm, AkmCount, Akms(rs)) && Splits(resolved, PairwiseCipher, PcsCount, Pairwises(rs))
      && SameLists(first.akm.GetOr([]), first.pairwise.GetOr([]), own, resolved)
      && SameScalars(first, own, resolved)
    else
      && b.privacy == Some(false) && Privacy in resolved
      && SameLists([], [], own, resolved) && SameScalars(NOTHING, own, resolved)
  }

  /** The whole of it: any beacon, any nesting, any columns, element list decoded or not. */
  lemma {:induction false} RecoveryRightIff(b: Beacon, resolved: set<Key>, decoded: bool, others: Row)
    requires WellFormed(b.elements) && Columns(resolved, others)
    ensures Tells(KeepTransmitting(FlattenedRow(b, resolved, decoded, others)), Own(b.elements), resolved) <==>
            RightlyRead(b, resolved, decoded)
  {
    hide Tells, KeepTransmitting, FlattenedRow, SameLists, SameScalars, Splits, Columns;
    if FlatRsns(b.elements) == [] {
      RecoverNothing(b, resolved, decoded, others);
    } else if !decoded {
      UndecodedRightIff(b, resolved, others);
    } else if RsnLeads(b.elements) {
      LeadingRightIff(b, resolved, others);
    } else {
      OpenBitRightIff(b, resolved, others);
    }
  }

  lemma {:induction false} KeepWithoutTags(row: Row)
    requires ListAt(row, TagNumbers).GetOr([]) == []
    ensures KeepTransmitting(row) == Bare(row, [])
  {
  }

  // ---- any row at all -----------------------------------------------------------------

  /** An RSN element (id 48) with no Multiple BSSID element (id 71) ahead of it. */
  ghost predicate LeadingTag(tags: seq<int>) {
    exists i :: 0 <= i < |tags| && tags[i] == 48 && forall j :: 0 <= j < i ==> tags[j] != 71
  }

  ghost predicate TwoRsns(tags: seq<int>) {
    exists i, j :: 0 <= i < j < |tags| && tags[i] == 48 && tags[j] == 48
  }

  lemma {:induction false} LeadingTagIff(tags: seq<int>)
    ensures LeadingTag(tags) <==>
            RSN_ELEMENT in tags && !(MBSSID_ELEMENT in tags && IndexOf(tags, MBSSID_ELEMENT) < IndexOf(tags, RSN_ELEMENT))
  {
    if LeadingTag(tags) {
      var i :| 0 <= i < |tags| && tags[i] == 48 && forall j :: 0 <= j < i ==> tags[j] != 71;
      assert tags[i] in tags;
    }
    if RSN_ELEMENT in tags {
      var i := IndexOf(tags, RSN_ELEMENT);
      assert tags[i] == 48;
      if MBSSID_ELEMENT in tags {
        assert tags[IndexOf(tags, MBSSID_ELEMENT)] == 71;
      }
    }
  }

  lemma {:induction false} CountsTwoIff(tags: seq<int>)
    ensures CountOf(tags, RSN_ELEMENT) > 1 <==> TwoRsns(tags)
  {
    CountOfPositive(tags, RSN_ELEMENT);
    if tags != [] {
      var rest := tags[1..];
      CountsTwoIff(rest);
      CountOfPositive(rest, RSN_ELEMENT);
      assert forall i :: 0 <= i < |rest| ==> rest[i] == tags[i + 1];
      if TwoRsns(tags) {
        var i, j :| 0 <= i < j < |tags| && tags[i] == 48 && tags[j] == 48;
        assert rest[j - 1] in rest;
        if i > 0 {
          assert rest[i - 1] == 48;
        }
      }
      if CountOf(tags, RSN_ELEMENT) > 1 {
        if tags[0] == 48 {
          var j :| 0 <= j < |rest| && rest[j] == 48;
          assert tags[j + 1] == 48;
        } else {
          var i, j :| 0 <= i < j < |rest| && rest[i] == 48 && rest[j] == 48;
          assert tags[i + 1] == 48 && tags[j + 1] == 48;
        }
      }
    }
  }

  ghost predicate HasList(row: Row, key: Key) { key in row && row[key].Ints? }

  /** Counts at hand: present and not empty. */
  ghost predicate HasCounts(row: Row, countKey: Key) { HasList(row, countKey) && row[countKey].ns != [] }

  /** A list column that cannot be told apart: several elements without counts, or counts that do not add up. */
  ghost predicate Muddled(row: Row, key: Key, countKey: Key)
    requires HasList(row, TagNumbers)
  {
    && HasList(row, key)
    && if HasCounts(row, countKey) then Sum(row[countKey].ns) != |row[key].ns| else TwoRsns(row[TagNumbers].ns)
  }

  /** What becomes of a list column that can. */
  ghost predicate FirstShare(row: Row, out: Row, key: Key, countKey: Key) {
    if HasList(row, key) && HasCounts(row, countKey) then
      HasList(out, key) && IsCut(row[key].ns, row[countKey].ns[0], out[key].ns)
    else
      (key in out <==> key in row) && (key in row ==> out[key] == row[key])
  }

  /** The first `k` of the list, or all of it; a negative `k` counts from its end. */
  ghost predicate IsCut(xs: seq<int>, k: int, cut: seq<int>) {
    cut <= xs && |cut| == if k > |xs| then |xs| else if k >= 0 then k else if -k < |xs| then |xs| + k else 0
  }

  lemma {:induction false} SliceIsCut(xs: seq<int>, k: int)
    ensures IsCut(xs, k, SliceTo(xs, k))
  {
  }

  lemma {:induction false} ReducedCases(kept: Row, row: Row, key: Key, countKey: Key)
    requires HasList(row, TagNumbers)
    requires (key in kept <==> key in row) && (key in row ==> kept[key] == row[key])
    ensures Reduced(kept, key, ListAt(row, countKey), CountOf(row[TagNumbers].ns, RSN_ELEMENT) > 1) ==
      if Muddled(row, key, countKey) then None
      else if HasList(row, key) && HasCounts(row, countKey)
        then Some(kept[key := Ints(SliceTo(row[key].ns, row[countKey].ns[0]))])
      else Some(kept)
  {
    hide Sum, CountOf, TwoRsns, SliceTo;
    CountsTwoIff(row[TagNumbers].ns);
  }

  lemma {:induction false} ReducedOrMuddled(kept: Row, row: Row, key: Key, countKey: Key)
    requires HasList(row, TagNumbers)
    requires (key in kept <==> key in row) && (key in row ==> kept[key] == row[key])
    ensures var out := Reduced(kept, key, ListAt(row, countKey), CountOf(row[TagNumbers].ns, RSN_ELEMENT) > 1);
      && (out.None? <==> Muddled(row, key, countKey))
      && (out.Some? ==> FirstShare(row, out.value, key, countKey) && SameBut(kept, out.value, key))
  {
    ReducedCases(kept, row, key, countKey);
    hide Muddled, Reduced, SliceTo, CountOf, TwoRsns, FirstShare, SameBut;
    if HasList(row, key) && HasCounts(row, countKey) {
      CutIsShare(kept, row, key, countKey);
    } else {
      UncutIsShare(kept, row, key, countKey);
    }
  }

  lemma {:induction false} CutIsShare(kept: Row, row: Row, key: Key, countKey: Key)
    requires HasList(row, key) && HasCounts(row, countKey)
    ensures var out := kept[key := Ints(SliceTo(row[key].ns, row[countKey].ns[0]))];
      FirstShare(row, out, key, countKey) && SameBut(kept, out, key)
  {
    hide SliceTo, SameBut, IsCut;
    SliceIsCut(row[key].ns, row[countKey].ns[0]);
    PutIsSameBut(kept, key, Ints(SliceTo(row[key].ns, row[countKey].ns[0])));
  }

  lemma {:induction false} PutIsSameBut(row: Row, key: Key, cell: Cell)
    ensures var out := row[key := cell]; key in out && out[key] == cell && SameBut(row, out, key)
  {
  }

  lemma {:induction false} UncutIsShare(kept: Row, row: Row, key: Key, countKey: Key)
    requires !(HasList(row, key) && HasCounts(row, countKey))
    requires (key in kept <==> key in row) && (key in row ==> kept[key] == row[key])
    ensures FirstShare(row, kept, key, countKey) && SameBut(kept, kept, key)
  {
  }

  ghost predicate SameBut(a: Row, b: Row, key: Key) {
    forall k :: k != key ==> (k in b <==> k in a) && (k in a ==> b[k] == a[k])
  }

  /** Both list columns, one after the other: each is cut on its own, and either may give the row up. */
  lemma {:induction false} ReducedBothOrMuddled(kept: Row, row: Row)
    requires HasList(row, TagNumbers)
    requires forall key :: key in {Akm, PairwiseCipher} ==> (key in kept <==> key in row) && (key in row ==> kept[key] == row[key])
    ensures var out := ReduceBoth(kept, ListAt(row, AkmCount), ListAt(row, PcsCount), CountOf(row[TagNumbers].ns, RSN_ELEMENT) > 1);
      if Muddled(row, Akm, AkmCount) || Muddled(row, PairwiseCipher, PcsCount) then IsUnresolved(out)
      else
        && FirstShare(row, out, Akm, AkmCount) && FirstShare(row, out, PairwiseCipher, PcsCount)
        && forall key :: key != Akm && key != PairwiseCipher ==> (key in out <==> key in kept) && (key in kept ==> out[key] == kept[key])
  {
    hide CountOf, Muddled, IsUnresolved, Unresolved, Reduced, IsCut;
    var several := CountOf(row[TagNumbers].ns, RSN_ELEMENT) > 1;
    ReducedOrMuddled(kept, row, Akm, AkmCount);
    UnresolvedIsUnresolved(kept);
    var first := Reduced(kept, Akm, ListAt(row, AkmCount), several);
    if first.Some? {
      ReducedOrMuddled(first.value, row, PairwiseCipher, PcsCount);
      UnresolvedIsUnresolved(first.value);
    }
  }

  lemma {:induction false} LeadingRowReduces(row: Row)
    requires HasList(row, TagNumbers) && LeadingTag(row[TagNumbers].ns)
    ensures var tags := row[TagNumbers].ns;
      KeepTransmitting(row) ==
      ReduceBoth(Bare(row, tags), ListAt(row, AkmCount), ListAt(row, PcsCount), CountOf(tags, RSN_ELEMENT) > 1)
  {
    hide IndexOf, CountOf, ReduceBoth, Bare;
    LeadingTagIff(row[TagNumbers].ns);
  }

  lemma {:induction false} BareKeeps(row: Row, tags: seq<int>)
    ensures forall key :: key in {Akm, PairwiseCipher, GroupCipher, Mfpr, Mfpc, RsnUnresolved} ==>
      (key in Bare(row, tags) <==> key in row) && (key in row ==> Bare(row, tags)[key] == row[key])
  {
  }

  /**
    * Any row whose own RSN element leads: given up exactly when one of its two list columns cannot be told apart; and
    * if not, each of them is its first element's share, and the three scalars stay.
    */
  lemma {:induction false} LeadingRow(row: Row)
    requires HasList(row, TagNumbers) && LeadingTag(row[TagNumbers].ns) && RsnUnresolved !in row
    ensures var out := KeepTransmitting(row);
      if Muddled(row, Akm, AkmCount) || Muddled(row, PairwiseCipher, PcsCount) then IsUnresolved(out)
      else
        && RsnUnresolved !in out
        && FirstShare(row, out, Akm, AkmCount) && FirstShare(row, out, PairwiseCipher, PcsCount)
        && forall key :: key in {GroupCipher, Mfpr, Mfpc} ==> (key in out <==> key in row) && (key in row ==> out[key] == row[key])
  {
    hide CountOf, Muddled, IsUnresolved, ReduceBoth, Bare, KeepTransmitting, LeadingTag, FirstShare;
    LeadingRowReduces(row);
    BareKeeps(row, row[TagNumbers].ns);
    ReducedBothOrMuddled(Bare(row, row[TagNumbers].ns), row);
  }

  /** Any row whose first RSN element is behind a Multiple BSSID element: open on a clear Privacy bit, given up if not. */
  lemma {:induction false} FollowingRow(row: Row)
    requires HasList(row, TagNumbers) && 48 in row[TagNumbers].ns && !LeadingTag(row[TagNumbers].ns)
    ensures var out := KeepTransmitting(row);
      if Privacy in row && row[Privacy] == Bool(false)
      then forall key :: key in {Akm, GroupCipher, PairwiseCipher, Mfpr, Mfpc} ==> key in out && out[key] == Null
      else IsUnresolved(out)
  {
    hide IndexOf;
    LeadingTagIff(row[TagNumbers].ns);
    UnresolvedIsUnresolved(Bare(row, row[TagNumbers].ns));
  }

  /** Any row without an RSN element in its list, or without the list: its columns stay. */
  lemma {:induction false} RsnFreeRow(row: Row)
    requires HasList(row, TagNumbers) ==> 48 !in row[TagNumbers].ns
    ensures var out := KeepTransmitting(row);
      forall key :: key in {Akm, GroupCipher, PairwiseCipher, Mfpr, Mfpc, RsnUnresolved} ==>
        (key in out <==> key in row) && (key in row ==> out[key] == row[key])
  {
  }

  /** The columns of a WPA element go exactly when a Multiple BSSID element is about. */
  lemma {:induction false} WpaColumnsGoIff(row: Row, key: Key)
    requires key in {WpaVersion, WpaGroupCipher, WpaPairwiseCipher} && key in row
    ensures key !in KeepTransmitting(row) <==> HasList(row, TagNumbers) && 71 in row[TagNumbers].ns
    ensures key in KeepTransmitting(row) ==> KeepTransmitting(row)[key] == row[key]
  {
    KeepLeavesRest(row);
    hide KeepTransmitting;
  }

  // ---- in place -----------------------------------------------------------------------

  class RowTable {
    var cells: Row

    constructor (cells: Row)
      ensures this.cells == cells
    {
      this.cells := cells;
    }

    method Drop(keys: set<Key>)
      modifies this
      ensures cells == old(cells) - keys
    {
      var todo := keys;
      while todo != {}
        invariant todo <= keys
        invariant cells == old(cells) - (keys - todo)
        decreases todo
      {
        var key :| key in todo;
        cells := cells - {key};
        assert keys - (todo - {key}) == (keys - todo) + {key};
        todo := todo - {key};
      }
      assert keys - {} == keys;
    }

    method MarkUnresolved()
      modifies this
      ensures cells == Unresolved(old(cells))
    {
      Drop(RSN_KEYS);
      cells := cells[RsnUnresolved := Bool(true)];
    }

    /** Cut one list column down; false when the row had to be given up. */
    method ReduceColumn(key: Key, perElement: Option<seq<int>>, several: bool) returns (ok: bool)
      modifies this
      ensures ok <==> Reduced(old(cells), key, perElement, several).Some?
      ensures ok ==> cells == Reduced(old(cells), key, perElement, several).value
      ensures !ok ==> cells == Unresolved(old(cells))
    {
      var values := ListAt(cells, key);
      if values.None? {
        return true;
      }
      if perElement.None? || perElement.value == [] {
        if several {
          MarkUnresolved();
          return false;
        }
        return true;
      }
      if Sum(perElement.value) != |values.value| {
        MarkUnresolved();
        return false;
      }
      cells := cells[key := Ints(SliceTo(values.value, perElement.value[0]))];
      return true;
    }

    method KeepTransmittingRsn()
      modifies this
      ensures cells == KeepTransmitting(old(cells))
    {
      var tags := ListAt(cells, TagNumbers).GetOr([]);
      var akmCount, pcsCount := ListAt(cells, AkmCount), ListAt(cells, PcsCount);
      Drop(HELPER_KEYS);
      if MBSSID_ELEMENT in tags {
        Drop(WPA_KEYS);
      }
      if RSN_ELEMENT !in tags {
        return;
      }
      if MBSSID_ELEMENT in tags && IndexOf(tags, MBSSID_ELEMENT) < IndexOf(tags, RSN_ELEMENT) {
        if Privacy in cells && cells[Privacy] == Bool(false) {
          cells := AsOpen(cells);
        } else {
          MarkUnresolved();
        }
        return;
      }
      var several := CountOf(tags, RSN_ELEMENT) > 1;
      var ok := ReduceColumn(Akm, akmCount, several);
      if ok {
        ok := ReduceColumn(PairwiseCipher, pcsCount, several);
      }
    }
  }
}
