/** Replacing captured identifiers by aliases: hashed start, linear probing, never two values on one alias. */
module Anonymiser {
  import opened Common
  import opened Sorting
  import opened Text

  // ---- the alias pools ----------------------------------------------------------------

  datatype Kind = Ssid | Mac | Ip | Vendor

  function KindName(kind: Kind): string {
    match kind case Ssid => "ssid" case Mac => "mac" case Ip => "ip" case Vendor => "vendor"
  }

  /** `space` aliases, numbered from zero. */
  datatype Pool = Pool(alias: nat -> string, space: nat)

  ghost predicate InjectivePool(p: Pool) {
    forall i, j :: 0 <= i < j < p.space ==> p.alias(i) != p.alias(j)
  }

  const HEX: string := "0123456789abcdef"

  function Hex2(octet: nat): string
    requires octet < 256
  {
    [HEX[octet / 16], HEX[octet % 16]]
  }

  function Octet(index: nat, shift: nat): (o: nat)
    requires shift > 0
    ensures o < 256
  {
    (index / shift) % 256
  }

  /** Five octets of the index, the high one first, behind `02:`. */
  function MacAlias(index: nat): string {
    "02:" + Hex2(Octet(index, 0x1_0000_0000)) + ":" + Hex2(Octet(index, 0x100_0000)) + ":" +
    Hex2(Octet(index, 0x1_0000)) + ":" + Hex2(Octet(index, 0x100)) + ":" + Hex2(Octet(index, 1))
  }

  const IP_BLOCKS: seq<string> := ["192.0.2", "198.51.100", "203.0.113"]

  /** The three documentation ranges of RFC 5737, section 3; host octets 1 to 254. */
  function IpAlias(index: nat): string {
    IP_BLOCKS[if index / 254 < 3 then index / 254 else 2] + "." + Decimal(index % 254 + 1)
  }

  const VENDORS: seq<string> := [
    "Acme Devices", "Northwind Systems", "Contoso Networks", "Fabrikam Inc.", "Private (randomized)", "Litware Hardware"]

  const ROLES: seq<string> := [
    "Corp", "Guest", "IoT", "Lab", "Voice", "Legacy", "Test", "Mgmt", "Sensor", "Kiosk", "Field", "Depot"]

  /** The own VAPs' names: a role, then the role again numbered 2 to 4. */
  function OwnSsid(i: nat): string {
    var role := ROLES[i % 12];
    if i < 12 then "DemoAP-" + role else "DemoAP-" + role + "-" + Decimal(i / 12 + 1)
  }

  const WORDS: seq<string> := [
    "Cafe", "Office", "Home", "Fiber", "Sky", "Metro", "Tower", "Green",
    "Blue", "City", "Studio", "River", "North", "Sunset", "Park", "Light",
    "Orchard", "Redwood", "Stone", "Harbour", "Willow", "Summit", "Amber",
    "Cedar", "Delta", "Falcon", "Granite", "Ivory", "Juniper", "Quartz"]

  /** The nine forms a word comes in. */
  function Form(word: nat, form: nat): string {
    var n := Decimal(word * 7 % 90 + 10);
    match form
    case 0 => "Net"
    case 1 => "-Guest"
    case 2 => "-WiFi"
    case 3 => "-" + n
    case 4 => "_5G"
    case 5 => "-Fibre"
    case 6 => "Link"
    case 7 => "-Public"
    case _ => "-Home-" + n
  }

  function NeighbourSsid(i: nat): string {
    WORDS[(i / 9) % 30] + Form((i / 9) % 30, i % 9)
  }

  const OWN_SSIDS: Pool := Pool(OwnSsid, 48)
  const NEIGHBOUR_SSIDS: Pool := Pool(NeighbourSsid, 270)
  const MACS: Pool := Pool(MacAlias, 0x100_0000_0000)
  const IPS: Pool := Pool(IpAlias, 762)
  const VENDOR_NAMES: Pool := Pool((i: nat) => VENDORS[i % 6], 6)

  // ---- assignment ---------------------------------------------------------------------

  type Table = map<string, string>

  /** The digest of the salted value, taken as given; a bucket is its remainder. */
  function Bucket(hash: string -> nat, kind: Kind, value: string, size: nat): (b: nat)
    requires size > 0
    ensures b < size
  {
    hash(KindName(kind) + ":" + value) % size
  }

  /** The alias number `step` places behind `start`, wrapping around. */
  function Slot(start: nat, step: nat, space: nat): (i: nat)
    requires space > 0
    ensures i < space
  {
    (start + step) % space
  }

  /** The first free alias from `start + step` on. */
  function Probe(p: Pool, start: nat, step: nat, taken: set<string>): Option<string>
    requires p.space > 0 && step <= p.space
    decreases p.space - step
  {
    if step == p.space then None
    else
      var candidate := p.alias(Slot(start, step, p.space));
      if candidate !in taken then Some(candidate) else Probe(p, start, step + 1, taken)
  }

  /** One value into the table; `None` when the pool is exhausted. */
  function AssignOne(hash: string -> nat, kind: Kind, p: Pool, t: Table, value: string): Option<Table>
    requires p.space > 0
  {
    if value in t then Some(t)
    else
      var alias := Probe(p, Bucket(hash, kind, value, p.space), 0, t.Values);
      if alias.None? then None else Some(t[value := alias.value])
  }

  function AssignAll(hash: string -> nat, kind: Kind, p: Pool, t: Table, values: seq<string>): Option<Table>
    requires p.space > 0
  {
    if values == [] then Some(t)
    else
      var before := AssignAll(hash, kind, p, t, values[..|values| - 1]);
      if before.None? then None else AssignOne(hash, kind, p, before.value, values[|values| - 1])
  }

  /** The distinct non-empty values, sorted. */
  function InOrder(values: seq<string>): (r: seq<string>)
    ensures forall v :: v in r <==> v in values && v != []
  {
    var d := Distinct(values);
    var r := SortBy(d, StrLe);
    assert forall v :: v in r <==> v in multiset(r);
    assert forall v :: v in d <==> v in multiset(d);
    r
  }

  function Distinct(values: seq<string>): (r: seq<string>)
    ensures forall v :: v in r <==> v in values && v != []
    ensures NoRepeats(r)
  {
    if values == [] then []
    else
      var before := Distinct(values[..|values| - 1]);
      var v := values[|values| - 1];
      assert values == values[..|values| - 1] + [v];
      if v == [] || v in before then before else before + [v]
  }

  function Assign(hash: string -> nat, kind: Kind, p: Pool, t: Table, values: seq<string>): Option<Table>
    requires p.space > 0
  {
    AssignAll(hash, kind, p, t, InOrder(values))
  }

  // ---- probing ------------------------------------------------------------------------

  lemma {:induction false} ProbeFindsFree(p: Pool, start: nat, step: nat, taken: set<string>)
    requires p.space > 0 && step <= p.space
    ensures var r := Probe(p, start, step, taken);
            if r.Some? then
              && r.value !in taken
              && exists i :: 0 <= i < p.space && p.alias(i) == r.value
            else forall s :: step <= s < p.space ==> p.alias(Slot(start, s, p.space)) in taken
    decreases p.space - step
  {
    if step < p.space {
      var i := Slot(start, step, p.space);
      if p.alias(i) in taken {
        ProbeFindsFree(p, start, step + 1, taken);
      } else {
        assert 0 <= i < p.space && p.alias(i) == Probe(p, start, step, taken).value;
      }
    }
  }

  /** Every alias is met once on the way round. */
  lemma {:induction false} StepTo(start: nat, i: nat, space: nat) returns (s: nat)
    requires i < space
    ensures s < space && Slot(start, s, space) == i
  {
    var at, q := start % space, start / space;
    s := if at <= i then i - at else i + space - at;
    assert start == q * space + at;
    var turns := if at <= i then q else q + 1;
    assert start + s == turns * space + i;
    DivisionUnique(start + s, space, turns, i);
  }

  lemma {:induction false} DivisionUnique(x: nat, n: nat, q: nat, r: nat)
    requires r < n && x == q * n + r
    ensures x / n == q && x % n == r
  {
    var d, m := x / n, x % n;
    assert x == d * n + m && 0 <= m < n;
    if d < q {
      MultiplyKeepsOrder(d + 1, q, n);
    } else if q < d {
      MultiplyKeepsOrder(q + 1, d, n);
    }
  }

  lemma {:induction false} MultiplyKeepsOrder(a: nat, b: nat, n: nat)
    requires a <= b
    ensures a * n <= b * n
  {
  }

  /** The alias taken is the first free one from the hashed start on, around the pool. */
  lemma {:induction false} ProbeIff(p: Pool, start: nat, step: nat, taken: set<string>, alias: string)
    requires p.space > 0 && step <= p.space
    ensures Probe(p, start, step, taken) == Some(alias) <==>
            alias !in taken && exists n: nat :: step <= n < p.space && alias == p.alias(Slot(start, n, p.space))
                                                && forall k: nat :: step <= k < n ==> p.alias(Slot(start, k, p.space)) in taken
    decreases p.space - step
  {
    hide Slot;
    if step < p.space {
      ProbeIff(p, start, step + 1, taken, alias);
      if p.alias(Slot(start, step, p.space)) == alias && alias !in taken {
        assert step <= step < p.space && alias == p.alias(Slot(start, step, p.space));
      }
    }
  }

  /** The slots go up by one from the start, from the last one to the first. */
  lemma {:induction false} SlotsGoRound(start: nat, step: nat, space: nat)
    requires space > 0 && start < space
    ensures Slot(start, 0, space) == start
    ensures Slot(start, step + 1, space) == if Slot(start, step, space) == space - 1 then 0 else Slot(start, step, space) + 1
  {
    hide Slot;
    SlotOf(start, 0, space);
    SlotOf(start, step, space);
    SlotOf(start, step + 1, space);
    RemainderIs(start, 0, start, space);
    NextRemainder(start + step, space);
  }

  lemma {:induction false} SlotOf(start: nat, step: nat, space: nat)
    requires space > 0
    ensures Slot(start, step, space) == Remainder(start + step, space)
  {
  }

  ghost function Remainder(n: nat, space: nat): nat
    requires space > 0
  {
    n % space
  }

  lemma {:induction false} NextRemainder(n: nat, space: nat)
    requires space > 0
    ensures Remainder(n + 1, space) == if Remainder(n, space) == space - 1 then 0 else Remainder(n, space) + 1
    decreases n
  {
    hide Remainder;
    if n + 1 < space {
      RemainderIs(n, 0, n, space);
      RemainderIs(n + 1, 0, n + 1, space);
    } else if n + 1 == space {
      RemainderIs(n, 0, n, space);
      RemainderIs(n + 1, 1, 0, space);
    } else {
      NextRemainder(n - space, space);
      RoundOff(n, space);
      RoundOff(n + 1, space);
    }
  }

  lemma {:induction false} RoundOff(n: nat, space: nat)
    requires 0 < space <= n
    ensures Remainder(n, space) == Remainder(n - space, space)
  {
    var m := n - space;
    assert m == m / space * space + m % space;
    assert (m / space + 1) * space == m / space * space + space;
    RemainderIs(n, m / space + 1, m % space, space);
  }

  lemma {:induction false} RemainderIs(n: nat, q: nat, r: nat, space: nat)
    requires 0 <= r < space && n == q * space + r
    ensures Remainder(n, space) == r
  {
    var d := n / space - q;
    assert d * space == r - n % space;
    assert d >= 1 ==> d * space >= space;
    assert d <= -1 ==> d * space <= 0 - space;
  }

  /** What is hashed: the kind by its name, a colon, the value. */
  lemma {:induction false} HashedText(hash: string -> nat, value: string, size: nat)
    requires size > 0
    ensures Bucket(hash, Ssid, value, size) == hash("ssid:" + value) % size
    ensures Bucket(hash, Mac, value, size) == hash("mac:" + value) % size
    ensures Bucket(hash, Ip, value, size) == hash("ip:" + value) % size
    ensures Bucket(hash, Vendor, value, size) == hash("vendor:" + value) % size
  {
    assert "ssid" + ":" + value == "ssid:" + value && "mac" + ":" + value == "mac:" + value;
    assert "ip" + ":" + value == "ip:" + value && "vendor" + ":" + value == "vendor:" + value;
  }

  /** Probing fails if and only if every alias of the pool is taken. */
  lemma {:induction false} ProbeFailsIff(p: Pool, start: nat, taken: set<string>)
    requires p.space > 0
    ensures Probe(p, start, 0, taken).None? <==> forall i :: 0 <= i < p.space ==> p.alias(i) in taken
  {
    ProbeFindsFree(p, start, 0, taken);
    if Probe(p, start, 0, taken).None? {
      forall i | 0 <= i < p.space
        ensures p.alias(i) in taken
      {
        var s := StepTo(start, i, p.space);
        assert p.alias(Slot(start, s, p.space)) in taken;
      }
    }
  }

  function Aliases(p: Pool, n: nat): set<string> {
    set i | 0 <= i < n :: p.alias(i)
  }

  lemma {:induction false} AliasesCount(p: Pool, n: nat)
    requires InjectivePool(p) && n <= p.space
    ensures |Aliases(p, n)| == n
  {
    if n > 0 {
      AliasesCount(p, n - 1);
      assert Aliases(p, n) == Aliases(p, n - 1) + {p.alias(n - 1)};
      assert p.alias(n - 1) !in Aliases(p, n - 1);
    }
  }

  /** An injective pool with more aliases than are taken has a free one. */
  lemma {:induction false} ProbeSucceeds(p: Pool, start: nat, taken: set<string>)
    requires p.space > 0 && InjectivePool(p) && |taken| < p.space
    ensures Probe(p, start, 0, taken).Some?
  {
    ProbeFailsIff(p, start, taken);
    AliasesCount(p, p.space);
    if Aliases(p, p.space) <= taken {
      SubsetCount(Aliases(p, p.space), taken);
    }
    var alias :| alias in Aliases(p, p.space) && alias !in taken;
  }

  // ---- tables -------------------------------------------------------------------------

  ghost predicate Injective(t: Table) {
    forall a, b :: a in t && b in t && t[a] == t[b] ==> a == b
  }

  ghost predicate Extends(t: Table, u: Table) {
    forall k :: k in t ==> k in u && u[k] == t[k]
  }

  lemma {:induction false} ValuesCount(t: Table)
    ensures |t.Values| <= |t|
    decreases |t|
  {
    if t == map[] {
      assert t.Values == {};
    } else {
      var k :| k in t;
      var u := t - {k};
      ValuesCount(u);
      assert t == u[k := t[k]];
      assert t.Values == u.Values + {t[k]};
    }
  }

  lemma {:induction false} AssignOneKeeps(hash: string -> nat, kind: Kind, p: Pool, t: Table, value: string)
    requires p.space > 0 && Injective(t)
    ensures var u := AssignOne(hash, kind, p, t, value);
            if u.Some? then
              && Injective(u.value) && Extends(t, u.value) && u.value.Keys == t.Keys + {value}
              && (value !in t ==> exists i :: 0 <= i < p.space && p.alias(i) == u.value[value])
            else value !in t && forall i :: 0 <= i < p.space ==> p.alias(i) in t.Values
  {
    if value !in t {
      var start := Bucket(hash, kind, value, p.space);
      ProbeFindsFree(p, start, 0, t.Values);
      ProbeFailsIff(p, start, t.Values);
    }
  }

  /** Injective, complete, and nothing already assigned ever moves. */
  lemma {:induction false} AssignAllKeeps(hash: string -> nat, kind: Kind, p: Pool, t: Table, values: seq<string>)
    requires p.space > 0 && Injective(t)
    ensures var u := AssignAll(hash, kind, p, t, values);
            u.Some? ==>
              && Injective(u.value) && Extends(t, u.value)
              && u.value.Keys == t.Keys + set v | v in values
  {
    if values != [] {
      var values0, v := values[..|values| - 1], values[|values| - 1];
      assert values == values0 + [v];
      AssignAllKeeps(hash, kind, p, t, values0);
      var before := AssignAll(hash, kind, p, t, values0);
      if before.Some? {
        AssignOneKeeps(hash, kind, p, before.value, v);
      }
    }
  }

  lemma {:induction false} ElementsSnoc(values: seq<string>, v: string)
    ensures (set w | w in values + [v]) == (set w | w in values) + {v}
  {
  }

  lemma {:induction false} KeysSnoc(t: Table, values: seq<string>, v: string)
    ensures t.Keys + (set w | w in values + [v]) == (t.Keys + set w | w in values) + {v}
    ensures |t.Keys + set w | w in values| <= |t.Keys + set w | w in values + [v]|
  {
    var before, after := set w | w in values, set w | w in values + [v];
    ElementsSnoc(values, v);
    assert t.Keys + after == (t.Keys + before) + {v};
    SubsetCount(t.Keys + before, t.Keys + after);
  }

  /** While the values fit an injective pool, assignment cannot fail. */
  lemma {:induction false} AssignAllSucceeds(hash: string -> nat, kind: Kind, p: Pool, t: Table, values: seq<string>)
    requires p.space > 0 && InjectivePool(p) && Injective(t)
    requires |t.Keys + set v | v in values| <= p.space
    ensures AssignAll(hash, kind, p, t, values).Some?
  {
    hide AssignOne, Injective, InjectivePool, Extends;
    if values != [] {
      var values0, v := values[..|values| - 1], values[|values| - 1];
      assert values == values0 + [v];
      KeysSnoc(t, values0, v);
      AssignAllSucceeds(hash, kind, p, t, values0);
      AssignAllKeeps(hash, kind, p, t, values0);
      OneMoreFits(hash, kind, p, AssignAll(hash, kind, p, t, values0).value, v);
    }
  }

  lemma {:induction false} OneMoreFits(hash: string -> nat, kind: Kind, p: Pool, t: Table, value: string)
    requires p.space > 0 && InjectivePool(p) && |t.Keys + {value}| <= p.space
    ensures AssignOne(hash, kind, p, t, value).Some?
  {
    if value !in t {
      ValuesCount(t);
      assert |t.Keys| == |t| && |t.Keys + {value}| == |t.Keys| + 1;
      ProbeSucceeds(p, Bucket(hash, kind, value, p.space), t.Values);
    }
  }

  /** The order values are handed over in, and how often, makes no difference. */
  lemma {:induction false} AssignForgetsOrder(
    hash: string -> nat, kind: Kind, p: Pool, t: Table, a: seq<string>, b: seq<string>)
    requires p.space > 0
    requires forall v :: v != [] ==> (v in a <==> v in b)
    ensures Assign(hash, kind, p, t, a) == Assign(hash, kind, p, t, b)
  {
    NoRepeatsSameBag(Distinct(a), Distinct(b));
    StrLeOrder();
    SortForgetsOrder(Distinct(a), Distinct(b), StrLe);
  }

  /** Values all known already leave the table as it is. */
  lemma {:induction false} AssignKnownIsNothing(hash: string -> nat, kind: Kind, p: Pool, t: Table, values: seq<string>)
    requires p.space > 0 && forall v :: v in values ==> v in t
    ensures AssignAll(hash, kind, p, t, values) == Some(t)
  {
    if values != [] {
      assert values == values[..|values| - 1] + [values[|values| - 1]];
      AssignKnownIsNothing(hash, kind, p, t, values[..|values| - 1]);
    }
  }

  // ---- the anonymiser as a state machine ----------------------------------------------

  type Tables = map<Kind, Table>

  const EMPTY: Tables := map[Ssid := map[], Mac := map[], Ip := map[], Vendor := map[]]

  function LowerAll(values: seq<string>): (r: seq<string>)
    ensures |r| == |values| && forall i :: 0 <= i < |r| ==> r[i] == Lower(values[i])
  {
    seq(|values|, i requires 0 <= i < |values| => Lower(values[i]))
  }

  datatype Op =
    | Prepare(ownSsids: seq<string>, ssids: seq<string>, macs: seq<string>, ips: seq<string>, vendors: seq<string>)
    | LookupSsid(value: string, own: bool)
    | LookupMac(value: string)
    | LookupIp(value: string)
    | LookupVendor(value: string)

  /** One pass of assignments into one table; `None` ends the program. */
  function Into(hash: string -> nat, ts: Option<Tables>, kind: Kind, p: Pool, values: seq<string>): Option<Tables>
    requires p.space > 0
    requires ts.Some? ==> kind in ts.value
  {
    if ts.None? then None
    else
      var t := Assign(hash, kind, p, ts.value[kind], values);
      if t.None? then None else Some(ts.value[kind := t.value])
  }

  ghost predicate AllKinds(ts: Tables) { forall kind: Kind :: kind in ts }

  function SsidPool(own: bool): (p: Pool)
    ensures p.space > 0
  {
    if own then OWN_SSIDS else NEIGHBOUR_SSIDS
  }

  function Step(hash: string -> nat, ts: Tables, op: Op): (r: Option<Tables>)
    requires AllKinds(ts)
    ensures r.Some? ==> AllKinds(r.value)
  {
    match op
    case Prepare(ownSsids, ssids, macs, ips, vendors) =>
      var a := Into(hash, Some(ts), Ssid, OWN_SSIDS, ownSsids);
      var b := Into(hash, a, Ssid, NEIGHBOUR_SSIDS, ssids);
      var c := Into(hash, b, Mac, MACS, LowerAll(macs));
      var d := Into(hash, c, Ip, IPS, ips);
      Into(hash, d, Vendor, VENDOR_NAMES, vendors)
    case LookupSsid(v, own) => Into(hash, Some(ts), Ssid, SsidPool(own), [v])
    case LookupMac(v) => Into(hash, Some(ts), Mac, MACS, [Lower(v)])
    case LookupIp(v) => Into(hash, Some(ts), Ip, IPS, [v])
    case LookupVendor(v) => Into(hash, Some(ts), Vendor, VENDOR_NAMES, [v])
  }

  function Run(hash: string -> nat, ts: Tables, ops: seq<Op>): (r: Option<Tables>)
    requires AllKinds(ts)
    ensures r.Some? ==> AllKinds(r.value)
  {
    if ops == [] then Some(ts)
    else
      var before := Run(hash, ts, ops[..|ops| - 1]);
      if before.None? then None else Step(hash, before.value, ops[|ops| - 1])
  }

  lemma {:induction false} EmptyHasAllKinds()
    ensures AllKinds(EMPTY)
  {
    forall kind: Kind
      ensures kind in EMPTY
    {
      match kind case Ssid => case Mac => case Ip => case Vendor =>
    }
  }

  ghost predicate AllInjective(ts: Tables) {
    forall kind :: kind in ts ==> Injective(ts[kind])
  }

  ghost predicate AllExtend(ts: Tables, us: Tables) {
    forall kind :: kind in ts ==> kind in us && Extends(ts[kind], us[kind])
  }

  /** The non-empty ones of some values all have an alias. */
  ghost predicate Covers(t: Table, values: seq<string>) {
    forall v :: v in values && v != [] ==> v in t
  }

  lemma {:induction false} IntoKeeps(hash: string -> nat, ts: Option<Tables>, kind: Kind, p: Pool, values: seq<string>)
    requires p.space > 0 && (ts.Some? ==> kind in ts.value && AllInjective(ts.value))
    ensures var us := Into(hash, ts, kind, p, values);
            us.Some? ==>
              && ts.Some? && us.value.Keys == ts.value.Keys
              && AllInjective(us.value) && AllExtend(ts.value, us.value) && Covers(us.value[kind], values)
              && forall k :: k in ts.value && k != kind ==> us.value[k] == ts.value[k]
  {
    if ts.Some? && Into(hash, ts, kind, p, values).Some? {
      var t := ts.value[kind];
      AssignKeeps(hash, kind, p, t, values);
      hide Assign, Injective, Extends, Covers;
      forall k | k in ts.value
        ensures Extends(ts.value[k], ts.value[k])
      {
        ExtendsItself(ts.value[k]);
      }
    }
  }

  lemma {:induction false} ExtendsItself(t: Table)
    ensures Extends(t, t)
  {
  }

  lemma {:induction false} AssignKeeps(hash: string -> nat, kind: Kind, p: Pool, t: Table, values: seq<string>)
    requires p.space > 0 && Injective(t) && Assign(hash, kind, p, t, values).Some?
    ensures var u := Assign(hash, kind, p, t, values).value;
            Injective(u) && Extends(t, u) && Covers(u, values)
  {
    AssignAllKeeps(hash, kind, p, t, InOrder(values));
  }

  lemma {:induction false} CoverageLasts(ts: Tables, us: Tables, kind: Kind, values: seq<string>)
    requires kind in ts && Covers(ts[kind], values) && AllExtend(ts, us)
    ensures Covers(us[kind], values)
  {
  }

  lemma {:induction false} ExtendTransitive(ts: Tables, us: Tables, vs: Tables)
    requires AllExtend(ts, us) && AllExtend(us, vs)
    ensures AllExtend(ts, vs)
  {
  }

  /** What any one operation keeps: injective per kind, aliases never move, everything asked about is covered. */
  lemma {:induction false} StepKeeps(hash: string -> nat, ts: Tables, op: Op)
    requires AllKinds(ts) && AllInjective(ts)
    ensures var us := Step(hash, ts, op);
            us.Some? ==> AllInjective(us.value) && AllExtend(ts, us.value) && Answers(us.value, op)
  {
    match op
    case Prepare(ownSsids, ssids, macs, ips, vendors) => PrepareKeeps(hash, ts, ownSsids, ssids, macs, ips, vendors);
    case LookupSsid(v, own) => IntoKeeps(hash, Some(ts), Ssid, SsidPool(own), [v]);
    case LookupMac(v) => IntoKeeps(hash, Some(ts), Mac, MACS, [Lower(v)]);
    case LookupIp(v) => IntoKeeps(hash, Some(ts), Ip, IPS, [v]);
    case LookupVendor(v) => IntoKeeps(hash, Some(ts), Vendor, VENDOR_NAMES, [v]);
  }

  ghost predicate Answers(ts: Tables, op: Op)
    requires AllKinds(ts)
  {
    match op
    case Prepare(ownSsids, ssids, macs, ips, vendors) =>
      && Covers(ts[Ssid], ownSsids) && Covers(ts[Ssid], ssids) && Covers(ts[Mac], LowerAll(macs))
      && Covers(ts[Ip], ips) && Covers(ts[Vendor], vendors)
    case LookupSsid(v, _) => Covers(ts[Ssid], [v])
    case LookupMac(v) => Covers(ts[Mac], [Lower(v)])
    case LookupIp(v) => Covers(ts[Ip], [v])
    case LookupVendor(v) => Covers(ts[Vendor], [v])
  }

  lemma {:induction false} PrepareKeeps(
    hash: string -> nat, ts: Tables,
    ownSsids: seq<string>, ssids: seq<string>, macs: seq<string>, ips: seq<string>, vendors: seq<string>)
    requires AllKinds(ts) && AllInjective(ts)
    ensures var op := Prepare(ownSsids, ssids, macs, ips, vendors);
            var us := Step(hash, ts, op);
            us.Some? ==> AllInjective(us.value) && AllExtend(ts, us.value) && Answers(us.value, op)
  {
    var a := Into(hash, Some(ts), Ssid, OWN_SSIDS, ownSsids);
    IntoKeeps(hash, Some(ts), Ssid, OWN_SSIDS, ownSsids);
    var b := Into(hash, a, Ssid, NEIGHBOUR_SSIDS, ssids);
    IntoKeeps(hash, a, Ssid, NEIGHBOUR_SSIDS, ssids);
    var c := Into(hash, b, Mac, MACS, LowerAll(macs));
    IntoKeeps(hash, b, Mac, MACS, LowerAll(macs));
    var d := Into(hash, c, Ip, IPS, ips);
    IntoKeeps(hash, c, Ip, IPS, ips);
    var e := Into(hash, d, Vendor, VENDOR_NAMES, vendors);
    IntoKeeps(hash, d, Vendor, VENDOR_NAMES, vendors);
    if e.Some? {
      ExtendTransitive(ts, a.value, b.value);
      ExtendTransitive(ts, b.value, c.value);
      ExtendTransitive(ts, c.value, d.value);
      ExtendTransitive(ts, d.value, e.value);
      CoverageLasts(a.value, b.value, Ssid, ownSsids);
    }
  }

  /**
   * Under every interleaving of preparation and lookups, from any point on: no two values of one kind share an
   * alias, and an alias once given is the alias for good.
   */
  lemma {:induction false} RunKeeps(hash: string -> nat, ts: Tables, ops: seq<Op>)
    requires AllKinds(ts) && AllInjective(ts)
    ensures var us := Run(hash, ts, ops);
            us.Some? ==> AllInjective(us.value) && AllExtend(ts, us.value)
  {
    if ops != [] {
      RunKeeps(hash, ts, ops[..|ops| - 1]);
      var before := Run(hash, ts, ops[..|ops| - 1]);
      if before.Some? {
        StepKeeps(hash, before.value, ops[|ops| - 1]);
        var after := Step(hash, before.value, ops[|ops| - 1]);
        if after.Some? {
          ExtendTransitive(ts, before.value, after.value);
        }
      }
    }
  }

  /** In particular from the start. */
  lemma {:induction false} RunInjective(hash: string -> nat, ops: seq<Op>)
    ensures AllKinds(EMPTY)
    ensures Run(hash, EMPTY, ops).Some? ==> AllInjective(Run(hash, EMPTY, ops).value)
  {
    EmptyHasAllKinds();
    RunKeeps(hash, EMPTY, ops);
  }

  ghost predicate SameValues(a: seq<string>, b: seq<string>) {
    forall v :: v != [] ==> (v in a <==> v in b)
  }

  /** Preparing depends on the sets given, not on how they are listed. */
  lemma {:induction false} PrepareForgetsOrder(
    hash: string -> nat, ts: Tables,
    own: seq<string>, own': seq<string>, ssids: seq<string>, ssids': seq<string>, macs: seq<string>, macs': seq<string>,
    ips: seq<string>, ips': seq<string>, vendors: seq<string>, vendors': seq<string>)
    requires AllKinds(ts)
    requires SameValues(own, own') && SameValues(ssids, ssids') && SameValues(LowerAll(macs), LowerAll(macs'))
    requires SameValues(ips, ips') && SameValues(vendors, vendors')
    ensures Step(hash, ts, Prepare(own, ssids, macs, ips, vendors)) ==
            Step(hash, ts, Prepare(own', ssids', macs', ips', vendors'))
  {
    IntoForgetsOrder(hash, Some(ts), Ssid, OWN_SSIDS, own, own');
    var a := Into(hash, Some(ts), Ssid, OWN_SSIDS, own);
    IntoForgetsOrder(hash, a, Ssid, NEIGHBOUR_SSIDS, ssids, ssids');
    var b := Into(hash, a, Ssid, NEIGHBOUR_SSIDS, ssids);
    IntoForgetsOrder(hash, b, Mac, MACS, LowerAll(macs), LowerAll(macs'));
    var c := Into(hash, b, Mac, MACS, LowerAll(macs));
    IntoForgetsOrder(hash, c, Ip, IPS, ips, ips');
    var d := Into(hash, c, Ip, IPS, ips);
    IntoForgetsOrder(hash, d, Vendor, VENDOR_NAMES, vendors, vendors');
  }

  lemma {:induction false} IntoForgetsOrder(
    hash: string -> nat, ts: Option<Tables>, kind: Kind, p: Pool, a: seq<string>, b: seq<string>)
    requires p.space > 0 && (ts.Some? ==> kind in ts.value) && SameValues(a, b)
    ensures Into(hash, ts, kind, p, a) == Into(hash, ts, kind, p, b)
  {
    if ts.Some? {
      AssignForgetsOrder(hash, kind, p, ts.value[kind], a, b);
    }
  }

  /** Once prepared, looking values up in any order changes nothing: encounter order cannot show. */
  lemma {:induction false} LookupAfterPrepare(hash: string -> nat, ts: Tables, op: Op)
    requires AllKinds(ts) && !op.Prepare? && Answers(ts, op)
    ensures Step(hash, ts, op) == Some(ts)
  {
    match op
    case LookupSsid(v, own) => CoveredIsNothing(hash, ts, Ssid, SsidPool(own), [v]);
    case LookupMac(v) => CoveredIsNothing(hash, ts, Mac, MACS, [Lower(v)]);
    case LookupIp(v) => CoveredIsNothing(hash, ts, Ip, IPS, [v]);
    case LookupVendor(v) => CoveredIsNothing(hash, ts, Vendor, VENDOR_NAMES, [v]);
  }

  lemma {:induction false} CoveredIsNothing(hash: string -> nat, ts: Tables, kind: Kind, p: Pool, values: seq<string>)
    requires p.space > 0 && kind in ts && Covers(ts[kind], values)
    ensures Into(hash, Some(ts), kind, p, values) == Some(ts)
  {
    AssignKnownIsNothing(hash, kind, p, ts[kind], InOrder(values));
    assert ts[kind := ts[kind]] == ts;
  }

  // ---- the class ----------------------------------------------------------------------

  class Anonymiser {
    const hash: string -> nat
    var maps: Tables

    constructor (hash: string -> nat)
      ensures maps == EMPTY && this.hash == hash
    {
      this.hash := hash;
      maps := EMPTY;
    }

    /** Give every value a distinct alias; false when the pool is exhausted. */
    method AssignValues(kind: Kind, values: seq<string>, p: Pool) returns (ok: bool)
      requires p.space > 0 && kind in maps
      modifies this
      ensures ok <==> Into(hash, Some(old(maps)), kind, p, values).Some?
      ensures ok ==> maps == Into(hash, Some(old(maps)), kind, p, values).value
      ensures maps.Keys == old(maps).Keys
    {
      ghost var before := maps;
      var table := AssignLoop(kind, InOrder(values), p, maps[kind]);
      assert table == Assign(hash, kind, p, before[kind], values);
      if table.None? {
        return false;
      }
      maps := maps[kind := table.value];
      return true;
    }

    method AssignLoop(kind: Kind, ordered: seq<string>, p: Pool, known: Table) returns (r: Option<Table>)
      requires p.space > 0
      ensures r == AssignAll(hash, kind, p, known, ordered)
    {
      var table := known;
      var taken := table.Values;
      for i := 0 to |ordered|
        invariant taken == table.Values
        invariant AssignAll(hash, kind, p, known, ordered[..i]) == Some(table)
      {
        var value := ordered[i];
        AssignSnoc(hash, kind, p, known, ordered, i);
        if value in table {
          continue;
        }
        var candidate := ProbeLoop(p, Bucket(hash, kind, value, p.space), taken);
        if candidate.None? {
          FailureSticks(hash, kind, p, known, ordered, i + 1);
          return None;
        }
        NewValue(table, value, candidate.value);
        table := table[value := candidate.value];
        taken := taken + {candidate.value};
      }
      assert ordered[..|ordered|] == ordered;
      return Some(table);
    }

    method ProbeLoop(p: Pool, start: nat, taken: set<string>) returns (r: Option<string>)
      requires p.space > 0
      ensures r == Probe(p, start, 0, taken)
    {
      var step := 0;
      while step < p.space
        invariant step <= p.space && Probe(p, start, 0, taken) == Probe(p, start, step, taken)
      {
        var candidate := p.alias(Slot(start, step, p.space));
        if candidate !in taken {
          return Some(candidate);
        }
        step := step + 1;
      }
      return None;
    }

    method PrepareAll(ownSsids: seq<string>, ssids: seq<string>, macs: seq<string>, ips: seq<string>, vendors: seq<string>)
      returns (ok: bool)
      requires AllKinds(maps)
      modifies this
      ensures var r := Step(hash, old(maps), Prepare(ownSsids, ssids, macs, ips, vendors));
              ok == r.Some? && (ok ==> maps == r.value)
    {
      ok := AssignValues(Ssid, ownSsids, OWN_SSIDS);
      if ok {
        ok := AssignValues(Ssid, ssids, NEIGHBOUR_SSIDS);
      }
      if ok {
        ok := AssignValues(Mac, LowerAll(macs), MACS);
      }
      if ok {
        ok := AssignValues(Ip, ips, IPS);
      }
      if ok {
        ok := AssignValues(Vendor, vendors, VENDOR_NAMES);
      }
    }

    /** The alias of a MAC address, in the case it was asked in; an empty value stays empty, `None` is exhaustion. */
    method MacOf(value: string) returns (r: Option<string>)
      requires AllKinds(maps)
      modifies this
      ensures value == [] ==> r == Some([]) && maps == old(maps)
      ensures value != [] ==>
                var after := Step(hash, old(maps), LookupMac(value));
                && (r.Some? <==> after.Some?)
                && (after.Some? ==>
                      && maps == after.value && Lower(value) in maps[Mac]
                      && r == Some(if value == Upper(value) then Upper(maps[Mac][Lower(value)]) else maps[Mac][Lower(value)]))
    {
      if value == [] {
        return Some(value);
      }
      var key := Lower(value);
      if key !in maps[Mac] {
        var ok := AssignValues(Mac, [key], MACS);
        if !ok {
          return None;
        }
        LookupFills(hash, old(maps), Mac, MACS, key);
      } else {
        CoveredIsNothing(hash, maps, Mac, MACS, [key]);
      }
      var alias := maps[Mac][key];
      return Some(if value == Upper(value) then Upper(alias) else alias);
    }

    /** The alias of an SSID; a name prepared as one of our own keeps its own-VAP alias whoever asks. */
    method SsidOf(value: string, own: bool) returns (r: Option<string>)
      requires AllKinds(maps)
      modifies this
      ensures value == [] ==> r == Some([]) && maps == old(maps)
      ensures value != [] ==>
                var after := Step(hash, old(maps), LookupSsid(value, own));
                && (r.Some? <==> after.Some?)
                && (after.Some? ==> maps == after.value && value in maps[Ssid] && r == Some(maps[Ssid][value]))
    {
      r := LookUp(Ssid, SsidPool(own), value);
    }

    /** The common shape of a lookup. */
    method LookUp(kind: Kind, p: Pool, value: string) returns (r: Option<string>)
      requires AllKinds(maps) && p.space > 0
      modifies this
      ensures value == [] ==> r == Some([]) && maps == old(maps)
      ensures value != [] ==>
                var after := Into(hash, Some(old(maps)), kind, p, [value]);
                && (r.Some? <==> after.Some?)
                && (after.Some? ==> maps == after.value && value in maps[kind] && r == Some(maps[kind][value]))
    {
      if value == [] {
        return Some(value);
      }
      if value !in maps[kind] {
        var ok := AssignValues(kind, [value], p);
        if !ok {
          return None;
        }
        LookupFills(hash, old(maps), kind, p, value);
      } else {
        CoveredIsNothing(hash, maps, kind, p, [value]);
      }
      return Some(maps[kind][value]);
    }
  }

  lemma {:induction false} AssignSnoc(
    hash: string -> nat, kind: Kind, p: Pool, t: Table, values: seq<string>, i: nat)
    requires p.space > 0 && i < |values|
    ensures AssignAll(hash, kind, p, t, values[..i + 1]) ==
            var before := AssignAll(hash, kind, p, t, values[..i]);
            if before.None? then None else AssignOne(hash, kind, p, before.value, values[i])
  {
    assert values[..i + 1][..i] == values[..i];
  }

  lemma {:induction false} NewValue(t: Table, key: string, value: string)
    requires key !in t
    ensures t[key := value].Values == t.Values + {value}
  {
    var u := t[key := value];
    assert forall k :: k in t ==> k in u && u[k] == t[k];
    assert key in u && u[key] == value;
  }

  lemma {:induction false} FailureSticks(
    hash: string -> nat, kind: Kind, p: Pool, t: Table, values: seq<string>, n: nat)
    requires p.space > 0 && n <= |values| && AssignAll(hash, kind, p, t, values[..n]).None?
    ensures AssignAll(hash, kind, p, t, values).None?
    decreases |values| - n
  {
    if n < |values| {
      assert values[..n + 1][..n] == values[..n];
      FailureSticks(hash, kind, p, t, values, n + 1);
    } else {
      assert values[..n] == values;
    }
  }

  lemma {:induction false} InOrderOfOne(value: string)
    requires value != []
    ensures InOrder([value]) == [value]
  {
    assert [value][..0] == [] && Distinct([]) == [];
    assert Distinct([value]) == [value];
    assert SortBy([value], StrLe) == InsertBy(SortBy([], StrLe), value, StrLe);
  }

  lemma {:induction false} LookupFills(hash: string -> nat, ts: Tables, kind: Kind, p: Pool, value: string)
    requires p.space > 0 && kind in ts && value != [] && value !in ts[kind]
    ensures var after := Into(hash, Some(ts), kind, p, [value]);
            after.Some? ==> kind in after.value && value in after.value[kind]
  {
    InOrderOfOne(value);
    assert [value][..0] == [];
  }
}
