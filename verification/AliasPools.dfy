/** The alias pools give every number its own name, so an assignment fails only when a pool is full. */
module AliasPools {
  import opened Common
  import opened Text
  import opened Anonymiser

  // ---- MAC addresses ------------------------------------------------------------------

  lemma {:induction false} HexDigitsDiffer(a: nat, b: nat)
    requires a < 16 && b < 16 && HEX[a] == HEX[b]
    ensures a == b
  {
  }

  lemma {:induction false} Hex2Injective(a: nat, b: nat)
    requires a < 256 && b < 256 && Hex2(a) == Hex2(b)
    ensures a == b
  {
    assert Hex2(a)[0] == Hex2(b)[0] && Hex2(a)[1] == Hex2(b)[1];
    HexDigitsDiffer(a / 16, b / 16);
    HexDigitsDiffer(a % 16, b % 16);
  }

  lemma {:induction false} MacOctets(index: nat)
    ensures var m := MacAlias(index);
            && |m| == 17
            && m[3..5] == Hex2(Octet(index, 0x1_0000_0000)) && m[6..8] == Hex2(Octet(index, 0x100_0000))
            && m[9..11] == Hex2(Octet(index, 0x1_0000)) && m[12..14] == Hex2(Octet(index, 0x100))
            && m[15..17] == Hex2(Octet(index, 1))
  {
  }

  /** Below 2^40 the five octets determine the index. */
  lemma {:induction false} OctetsDetermine(index: nat)
    requires index < 0x100_0000_0000
    ensures index == Octet(index, 0x1_0000_0000) * 0x1_0000_0000 + Octet(index, 0x100_0000) * 0x100_0000 +
                     Octet(index, 0x1_0000) * 0x1_0000 + Octet(index, 0x100) * 0x100 + Octet(index, 1)
  {
    SecondOctet(index);
    ThirdOctet(index);
    FourthOctet(index);
    var a, b, c, d := index / 0x100, index / 0x1_0000, index / 0x100_0000, index / 0x1_0000_0000;
    Split(index, a, b, c, d);
  }

  lemma {:induction false} Split(index: nat, a: nat, b: nat, c: nat, d: nat)
    requires a == index / 0x100 && b == a / 0x100 && c == b / 0x100 && d == c / 0x100
    ensures index == d * 0x1_0000_0000 + (c % 0x100) * 0x100_0000 + (b % 0x100) * 0x1_0000 + (a % 0x100) * 0x100
                     + index % 0x100
  {
  }

  lemma {:induction false} SecondOctet(index: nat)
    ensures index / 0x1_0000 == index / 0x100 / 0x100
  {
  }

  lemma {:induction false} ThirdOctet(index: nat)
    ensures index / 0x100_0000 == index / 0x1_0000 / 0x100
  {
  }

  lemma {:induction false} FourthOctet(index: nat)
    ensures index / 0x1_0000_0000 == index / 0x100_0000 / 0x100
  {
  }

  lemma {:induction false} MacAliasInjective(i: nat, j: nat)
    requires i < 0x100_0000_0000 && j < 0x100_0000_0000 && MacAlias(i) == MacAlias(j)
    ensures i == j
  {
    MacOctets(i);
    MacOctets(j);
    Hex2Injective(Octet(i, 0x1_0000_0000), Octet(j, 0x1_0000_0000));
    Hex2Injective(Octet(i, 0x100_0000), Octet(j, 0x100_0000));
    Hex2Injective(Octet(i, 0x1_0000), Octet(j, 0x1_0000));
    Hex2Injective(Octet(i, 0x100), Octet(j, 0x100));
    Hex2Injective(Octet(i, 1), Octet(j, 1));
    OctetsDetermine(i);
    OctetsDetermine(j);
  }

  lemma {:induction false} MacsInjective()
    ensures InjectivePool(MACS)
  {
    forall i, j | 0 <= i < j < MACS.space
      ensures MACS.alias(i) != MACS.alias(j)
    {
      if MacAlias(i) == MacAlias(j) {
        MacAliasInjective(i, j);
      }
    }
  }

  // ---- IP addresses -------------------------------------------------------------------

  lemma {:induction false} IpAliasParts(index: nat)
    requires index < 762
    ensures index / 254 < 3 && 1 <= index % 254 + 1 <= 254
    ensures IpAlias(index) == IP_BLOCKS[index / 254] + "." + Decimal(index % 254 + 1)
    ensures IpAlias(index)[2] == "283"[index / 254]
  {
    var block := IP_BLOCKS[index / 254];
    assert |block| > 2 && block[2] == "283"[index / 254];
    assert IpAlias(index)[2] == block[2];
  }

  /** 762 documentation addresses, no two the same, every host octet in 1 to 254. */
  lemma {:induction false} IpAliasInjective(i: nat, j: nat)
    requires i < 762 && j < 762 && IpAlias(i) == IpAlias(j)
    ensures i == j
  {
    IpAliasParts(i);
    IpAliasParts(j);
    assert "283"[i / 254] == "283"[j / 254];
    assert i / 254 == j / 254;
    var head := IP_BLOCKS[i / 254] + ".";
    assert IpAlias(i)[|head|..] == Decimal(i % 254 + 1) && IpAlias(j)[|head|..] == Decimal(j % 254 + 1);
    DecimalInjective(i % 254 + 1, j % 254 + 1);
  }

  lemma {:induction false} IpsInjective()
    ensures InjectivePool(IPS)
  {
    forall i, j | 0 <= i < j < IPS.space
      ensures IPS.alias(i) != IPS.alias(j)
    {
      if IpAlias(i) == IpAlias(j) {
        IpAliasInjective(i, j);
      }
    }
  }

  // ---- names --------------------------------------------------------------------------

  lemma {:induction false} VendorsInjective()
    ensures InjectivePool(VENDOR_NAMES)
  {
    forall i, j | 0 <= i < j < 6
      ensures VENDORS[i] != VENDORS[j]
    {
    }
    assert forall i :: 0 <= i < 6 ==> VENDOR_NAMES.alias(i) == VENDORS[i];
  }

  /** How far a text runs before the first stopping character. */
  function RunLength(s: string, stop: char -> bool): nat {
    if s == [] || stop(s[0]) then 0 else 1 + RunLength(s[1..], stop)
  }

  lemma {:induction false} RunLengthIs(a: string, x: string, stop: char -> bool)
    requires (forall i :: 0 <= i < |a| ==> !stop(a[i])) && (x == [] || stop(x[0]))
    ensures RunLength(a + x, stop) == |a|
  {
    if a == [] {
      assert a + x == x;
    } else {
      assert (a + x)[1..] == a[1..] + x;
      RunLengthIs(a[1..], x, stop);
    }
  }

  /** Where the part that holds no stopping character ends is plain from the text. */
  lemma {:induction false} SplitUnique(a: string, x: string, b: string, y: string, stop: char -> bool)
    requires a + x == b + y
    requires (forall i :: 0 <= i < |a| ==> !stop(a[i])) && (forall i :: 0 <= i < |b| ==> !stop(b[i]))
    requires (x == [] || stop(x[0])) && (y == [] || stop(y[0]))
    ensures a == b && x == y
  {
    RunLengthIs(a, x, stop);
    RunLengthIs(b, y, stop);
    assert (a + x)[..|a|] == a && (b + y)[..|a|] == b;
    assert (a + x)[|a|..] == x && (b + y)[|a|..] == y;
  }

  function OwnTail(i: nat): string { if i < 12 then [] else "-" + Decimal(i / 12 + 1) }

  lemma {:induction false} RolesDiffer(i: nat, j: nat)
    requires i < 12 && j < 12 && ROLES[i] == ROLES[j]
    ensures i == j
  {
  }

  lemma {:induction false} RolesHoldNoDash(i: nat)
    requires i < 12
    ensures forall k :: 0 <= k < |ROLES[i]| ==> ROLES[i][k] != '-'
  {
  }

  lemma {:induction false} OwnSsidParts(i: nat)
    requires i < 48
    ensures OwnSsid(i) == "DemoAP-" + (ROLES[i % 12] + OwnTail(i))
  {
    var role := ROLES[i % 12];
    if i >= 12 {
      assert "DemoAP-" + role + "-" + Decimal(i / 12 + 1) == "DemoAP-" + (role + ("-" + Decimal(i / 12 + 1)));
    } else {
      assert role + [] == role;
    }
  }

  lemma {:induction false} OwnSsidInjective(i: nat, j: nat)
    requires i < 48 && j < 48 && OwnSsid(i) == OwnSsid(j)
    ensures i == j
  {
    OwnSsidParts(i);
    OwnSsidParts(j);
    RolesHoldNoDash(i % 12);
    RolesHoldNoDash(j % 12);
    var a, b := ROLES[i % 12] + OwnTail(i), ROLES[j % 12] + OwnTail(j);
    assert ("DemoAP-" + a)[7..] == a && ("DemoAP-" + b)[7..] == b;
    SplitUnique(ROLES[i % 12], OwnTail(i), ROLES[j % 12], OwnTail(j), c => c == '-');
    RolesDiffer(i % 12, j % 12);
    if i >= 12 {
      assert OwnTail(i)[1..] == Decimal(i / 12 + 1);
      assert j >= 12 && OwnTail(j)[1..] == Decimal(j / 12 + 1);
      DecimalInjective(i / 12 + 1, j / 12 + 1);
    }
  }

  lemma {:induction false} OwnSsidsInjective()
    ensures InjectivePool(OWN_SSIDS)
  {
    forall i, j | 0 <= i < j < OWN_SSIDS.space
      ensures OWN_SSIDS.alias(i) != OWN_SSIDS.alias(j)
    {
      if OwnSsid(i) == OwnSsid(j) {
        OwnSsidInjective(i, j);
      }
    }
  }

  predicate IsLower(c: char) { 'a' <= c <= 'z' }

  /** Which word a text is, read off its first three characters. */
  function WordIndex(s: string): nat
    requires |s| > 2
  {
    match s[0]
    case 'A' => 22
    case 'B' => 8
    case 'C' => if s[1] == 'a' then 0 else if s[1] == 'i' then 9 else 23
    case 'D' => 24
    case 'F' => if s[1] == 'i' then 3 else 25
    case 'G' => if s[2] == 'e' then 7 else 26
    case 'H' => if s[1] == 'o' then 2 else 19
    case 'I' => 27
    case 'J' => 28
    case 'L' => 15
    case 'M' => 5
    case 'N' => 12
    case 'O' => if s[1] == 'f' then 1 else 16
    case 'P' => 14
    case 'Q' => 29
    case 'R' => if s[1] == 'i' then 11 else 17
    case 'S' =>
      if s[1] == 'k' then 4
      else if s[1] == 't' then (if s[2] == 'u' then 10 else 18)
      else if s[2] == 'n' then 13 else 21
    case 'T' => 6
    case 'W' => 20
    case _ => 30
  }

  lemma {:induction false} WordIndexOfWord(i: nat)
    requires i < 30
    ensures |WORDS[i]| > 2 && WordIndex(WORDS[i]) == i
  {
    hide WordIndex;
    if i < 10 {
      FirstWords(i);
    } else if i < 20 {
      MiddleWords(i);
    } else {
      LastWords(i);
    }
  }

  lemma {:induction false} FirstWords(i: nat)
    requires i < 10
    ensures |WORDS[i]| > 2 && WordIndex(WORDS[i]) == i
  {
  }

  lemma {:induction false} MiddleWords(i: nat)
    requires 10 <= i < 20
    ensures |WORDS[i]| > 2 && WordIndex(WORDS[i]) == i
  {
  }

  lemma {:induction false} LastWords(i: nat)
    requires 20 <= i < 30
    ensures |WORDS[i]| > 2 && WordIndex(WORDS[i]) == i
  {
  }

  lemma {:induction false} WordsDiffer(i: nat, j: nat)
    requires i < 30 && j < 30 && WORDS[i] == WORDS[j]
    ensures i == j
  {
    WordIndexOfWord(i);
    WordIndexOfWord(j);
    hide WordIndex;
  }

  lemma {:induction false} WordsAreCapitalised(i: nat)
    requires i < 30
    ensures WORDS[i] != [] && forall k :: 1 <= k < |WORDS[i]| ==> IsLower(WORDS[i][k])
  {
  }

  /** Which form a text after a word is, read off its first two characters. */
  function FormIndex(s: string): nat
    requires |s| > 1
  {
    match s[0]
    case 'N' => 0
    case '_' => 4
    case 'L' => 6
    case _ =>
      match s[1]
      case 'G' => 1
      case 'W' => 2
      case 'F' => 5
      case 'P' => 7
      case 'H' => 8
      case _ => 3
  }

  lemma {:induction false} FormIndexOfForm(word: nat, form: nat)
    requires form < 9
    ensures var s := Form(word, form); |s| > 1 && !IsLower(s[0]) && FormIndex(s) == form
  {
    var s, n := Form(word, form), Decimal(word * 7 % 90 + 10);
    if form == 3 {
      assert s[0] == '-' && s[1] == n[0] && IsDigit(n[0]);
    } else if form == 8 {
      assert s[0] == '-' && s[1] == 'H';
    } else if form in {1, 2, 5, 7} {
      assert s[0] == '-' && s[1] == "0GW00F0P"[form];
    } else {
      assert s[0] == "N000_0L0"[form];
    }
  }

  /** A word and its form can be told apart in the name they make. */
  lemma {:induction false} WordPlusForm(w: string, x: string, v: string, y: string)
    requires w != [] && v != [] && w + x == v + y
    requires forall k :: 1 <= k < |w| ==> IsLower(w[k])
    requires forall k :: 1 <= k < |v| ==> IsLower(v[k])
    requires x != [] && !IsLower(x[0]) && y != [] && !IsLower(y[0])
    ensures w == v && x == y
  {
    assert (w + x)[1..] == w[1..] + x && (v + y)[1..] == v[1..] + y;
    SplitUnique(w[1..], x, v[1..], y, c => !IsLower(c));
    assert (w + x)[0] == w[0] && (v + y)[0] == v[0];
    assert w == [w[0]] + w[1..] && v == [v[0]] + v[1..];
  }

  lemma {:induction false} NeighbourSsidParts(i: nat)
    requires i < 270
    ensures NeighbourSsid(i) == WORDS[i / 9] + Form(i / 9, i % 9)
    ensures Form(i / 9, i % 9) != [] && !IsLower(Form(i / 9, i % 9)[0])
    ensures WORDS[i / 9] != [] && forall k :: 1 <= k < |WORDS[i / 9]| ==> IsLower(WORDS[i / 9][k])
  {
    assert (i / 9) % 30 == i / 9;
    WordsAreCapitalised(i / 9);
    FormIndexOfForm(i / 9, i % 9);
  }

  lemma {:induction false} NeighbourSsidInjective(i: nat, j: nat)
    requires i < 270 && j < 270 && NeighbourSsid(i) == NeighbourSsid(j)
    ensures i == j
  {
    NeighbourSsidParts(i);
    NeighbourSsidParts(j);
    WordPlusForm(WORDS[i / 9], Form(i / 9, i % 9), WORDS[j / 9], Form(j / 9, j % 9));
    WordsDiffer(i / 9, j / 9);
    FormIndexOfForm(i / 9, i % 9);
    FormIndexOfForm(j / 9, j % 9);
  }

  lemma {:induction false} NeighbourSsidsInjective()
    ensures InjectivePool(NEIGHBOUR_SSIDS)
  {
    forall i, j | 0 <= i < j < NEIGHBOUR_SSIDS.space
      ensures NEIGHBOUR_SSIDS.alias(i) != NEIGHBOUR_SSIDS.alias(j)
    {
      if NeighbourSsid(i) == NeighbourSsid(j) {
        NeighbourSsidInjective(i, j);
      }
    }
  }

  ghost function Given(values: seq<string>): set<string> { set v | v in values && v != [] }

  lemma {:induction false} IntoSucceeds(hash: string -> nat, ts: Tables, kind: Kind, p: Pool, values: seq<string>)
    requires p.space > 0 && InjectivePool(p) && kind in ts && Injective(ts[kind])
    requires |ts[kind].Keys + Given(values)| <= p.space
    ensures var us := Into(hash, Some(ts), kind, p, values);
            && us.Some? && kind in us.value && Injective(us.value[kind])
            && us.value[kind].Keys == ts[kind].Keys + Given(values)
            && us.value == ts[kind := us.value[kind]]
  {
    var ordered := InOrder(values);
    assert (set v | v in ordered) == Given(values);
    AssignAllSucceeds(hash, kind, p, ts[kind], ordered);
    AssignAllKeeps(hash, kind, p, ts[kind], ordered);
  }

  lemma {:induction false} InjectiveAt(ts: Tables, kind: Kind)
    requires AllInjective(ts) && kind in ts
    ensures Injective(ts[kind])
  {
  }

  /** Preparing succeeds whenever what each table then holds fits the pool it draws from. */
  lemma {:induction false} PrepareSucceeds(
    hash: string -> nat, ts: Tables,
    own: seq<string>, ssids: seq<string>, macs: seq<string>, ips: seq<string>, vendors: seq<string>)
    requires AllKinds(ts) && AllInjective(ts)
    requires |ts[Ssid].Keys + Given(own)| <= 48 && |ts[Ssid].Keys + Given(own) + Given(ssids)| <= 270
    requires |ts[Mac].Keys + Given(LowerAll(macs))| <= 0x100_0000_0000
    requires |ts[Ip].Keys + Given(ips)| <= 762 && |ts[Vendor].Keys + Given(vendors)| <= 6
    ensures Step(hash, ts, Prepare(own, ssids, macs, ips, vendors)).Some?
  {
    hide Into, Given, InjectivePool, AllInjective, Injective;
    assert Injective(ts[Ssid]) && Injective(ts[Mac]) && Injective(ts[Ip]) && Injective(ts[Vendor]) by {
      InjectiveAt(ts, Ssid);
      InjectiveAt(ts, Mac);
      InjectiveAt(ts, Ip);
      InjectiveAt(ts, Vendor);
    }
    OwnSsidsInjective();
    NeighbourSsidsInjective();
    IntoSucceeds(hash, ts, Ssid, OWN_SSIDS, own);
    var a := Into(hash, Some(ts), Ssid, OWN_SSIDS, own).value;
    IntoSucceeds(hash, a, Ssid, NEIGHBOUR_SSIDS, ssids);
    var b := Into(hash, Some(a), Ssid, NEIGHBOUR_SSIDS, ssids).value;
    assert b == ts[Ssid := b[Ssid]];
    AddressesSucceed(hash, b, macs, ips, vendors);
  }

  lemma {:induction false} AddressesSucceed(
    hash: string -> nat, ts: Tables, macs: seq<string>, ips: seq<string>, vendors: seq<string>)
    requires AllKinds(ts) && Injective(ts[Mac]) && Injective(ts[Ip]) && Injective(ts[Vendor])
    requires |ts[Mac].Keys + Given(LowerAll(macs))| <= 0x100_0000_0000
    requires |ts[Ip].Keys + Given(ips)| <= 762 && |ts[Vendor].Keys + Given(vendors)| <= 6
    ensures var c := Into(hash, Some(ts), Mac, MACS, LowerAll(macs));
            Into(hash, Into(hash, c, Ip, IPS, ips), Vendor, VENDOR_NAMES, vendors).Some?
  {
    MacsInjective();
    IpsInjective();
    VendorsInjective();
    IntoSucceeds(hash, ts, Mac, MACS, LowerAll(macs));
    var c := Into(hash, Some(ts), Mac, MACS, LowerAll(macs)).value;
    IntoSucceeds(hash, c, Ip, IPS, ips);
    var d := Into(hash, Some(c), Ip, IPS, ips).value;
    IntoSucceeds(hash, d, Vendor, VENDOR_NAMES, vendors);
  }

  // ---- aliases are visibly no real identifiers ----------------------------------------

  /** The value of a hexadecimal digit in lower case. */
  ghost function DigitOf(c: char): int {
    if '0' <= c <= '9' then c as int - '0' as int else if 'a' <= c <= 'f' then c as int - 'a' as int + 10 else -1
  }

  ghost predicate TwoDigits(s: string, octet: nat) {
    |s| == 2 && DigitOf(s[0]) >= 0 && DigitOf(s[1]) >= 0 && octet == 16 * DigitOf(s[0]) + DigitOf(s[1])
  }

  lemma {:induction false} HexDigits(a: nat)
    requires a < 16
    ensures DigitOf(HEX[a]) == a
  {
  }

  lemma {:induction false} Hex2Is(octet: nat)
    requires octet < 256
    ensures TwoDigits(Hex2(octet), octet)
  {
    HexDigits(octet / 16);
    HexDigits(octet % 16);
  }

  /** A locally administered address: `02` and five octets, which spell the number from its high octet down. */
  ghost predicate IsLocalMac(m: string, index: nat) {
    && |m| == 17 && m[..3] == "02:" && m[5] == ':' && m[8] == ':' && m[11] == ':' && m[14] == ':'
    && TwoDigits(m[3..5], index / 0x1_0000_0000) && TwoDigits(m[6..8], index / 0x100_0000 % 0x100)
    && TwoDigits(m[9..11], index / 0x1_0000 % 0x100) && TwoDigits(m[12..14], index / 0x100 % 0x100)
    && TwoDigits(m[15..17], index % 0x100)
  }

  lemma {:induction false} MacIsLocal(index: nat)
    requires index < 0x100_0000_0000
    ensures IsLocalMac(MacAlias(index), index)
  {
    hide TwoDigits, Hex2;
    MacOctets(index);
    MacColons(index);
    Hex2Is(Octet(index, 0x1_0000_0000));
    Hex2Is(Octet(index, 0x100_0000));
    Hex2Is(Octet(index, 0x1_0000));
    Hex2Is(Octet(index, 0x100));
    Hex2Is(Octet(index, 1));
    assert Octet(index, 0x1_0000_0000) == index / 0x1_0000_0000;
  }

  lemma {:induction false} MacColons(index: nat)
    ensures var m := MacAlias(index);
      |m| == 17 && m[..3] == "02:" && m[5] == ':' && m[8] == ':' && m[11] == ':' && m[14] == ':'
  {
    hide Octet, HEX;
  }

  /** An address of a documentation range: RFC 5737, section 3. */
  ghost predicate IsDocumentation(address: string) {
    exists host: nat :: 1 <= host <= 254 && InRange(address, host)
  }

  ghost predicate InRange(address: string, host: nat) {
    address == "192.0.2." + Decimal(host) || address == "198.51.100." + Decimal(host) || address == "203.0.113." + Decimal(host)
  }

  lemma {:induction false} IpIsDocumentation(index: nat)
    requires index < 762
    ensures IsDocumentation(IpAlias(index))
    ensures index < 254 ==> IpAlias(index) == "192.0.2." + Decimal(index + 1)
    ensures 254 <= index < 508 ==> IpAlias(index) == "198.51.100." + Decimal(index - 253)
    ensures 508 <= index ==> IpAlias(index) == "203.0.113." + Decimal(index - 507)
  {
    hide Decimal;
    var host := Decimal(index % 254 + 1);
    assert "192.0.2" + "." + host == "192.0.2." + host && "198.51.100" + "." + host == "198.51.100." + host;
    assert "203.0.113" + "." + host == "203.0.113." + host;
    assert InRange(IpAlias(index), index % 254 + 1);
  }

  /** A network of one's own is a demo access point: by its role, and from the thirteenth on with a number. */
  lemma {:induction false} OwnNames(i: nat)
    requires i < 48
    ensures OwnSsid(i) == "DemoAP-" + (ROLES[i % 12] + (if i < 12 then "" else "-" + Decimal(i / 12 + 1)))
    ensures |ROLES| == 12 && ROLES[0] == "Corp" && ROLES[1] == "Guest" && ROLES[11] == "Depot"
  {
    OwnSsidParts(i);
  }

  /** And one of a neighbour's is a made-up word in one of nine forms. */
  lemma {:induction false} NeighbourNames(i: nat)
    requires i < 9
    ensures WORDS[0] == "Cafe" && |WORDS| == 30
    ensures NeighbourSsid(i) == "Cafe" +
      ["Net", "-Guest", "-WiFi", "-" + Decimal(10), "_5G", "-Fibre", "Link", "-Public", "-Home-" + Decimal(10)][i]
  {
    hide Decimal;
  }

  ghost predicate FromPool(alias: string, p: Pool) { exists i :: 0 <= i < p.space && alias == p.alias(i) }

  /** Every alias that was given out is one of its kind's pool, and a network's one of the two pools of names. */
  ghost predicate FromPools(ts: Tables) {
    && AllKinds(ts)
    && (forall alias :: alias in ts[Ssid].Values ==> FromPool(alias, OWN_SSIDS) || FromPool(alias, NEIGHBOUR_SSIDS))
    && (forall alias :: alias in ts[Mac].Values ==> FromPool(alias, MACS))
    && (forall alias :: alias in ts[Ip].Values ==> FromPool(alias, IPS))
    && (forall alias :: alias in ts[Vendor].Values ==> FromPool(alias, VENDOR_NAMES))
  }

  lemma {:induction false} AssignedFromPool(hash: string -> nat, kind: Kind, p: Pool, t: Table, values: seq<string>)
    requires p.space > 0
    ensures var r := AssignAll(hash, kind, p, t, values);
      r.Some? ==> forall alias :: alias in r.value.Values ==> alias in t.Values || FromPool(alias, p)
  {
    if values != [] {
      var front := values[..|values| - 1];
      AssignedFromPool(hash, kind, p, t, front);
      var before := AssignAll(hash, kind, p, t, front);
      if before.Some? {
        OneFromPool(hash, kind, p, before.value, values[|values| - 1]);
      }
    }
  }

  lemma {:induction false} OneFromPool(hash: string -> nat, kind: Kind, p: Pool, t: Table, value: string)
    requires p.space > 0
    ensures var r := AssignOne(hash, kind, p, t, value);
      r.Some? ==> forall alias :: alias in r.value.Values ==> alias in t.Values || FromPool(alias, p)
  {
    hide Probe, Bucket;
    ProbeFindsFree(p, Bucket(hash, kind, value, p.space), 0, t.Values);
  }

  lemma {:induction false} IntoFromPool(hash: string -> nat, ts: Tables, kind: Kind, p: Pool, values: seq<string>)
    requires p.space > 0 && kind in ts
    ensures var r := Into(hash, Some(ts), kind, p, values);
      r.Some? ==>
        && kind in r.value && r.value == ts[kind := r.value[kind]]
        && forall alias :: alias in r.value[kind].Values ==> alias in ts[kind].Values || FromPool(alias, p)
  {
    hide AssignAll, FromPool;
    AssignedFromPool(hash, kind, p, ts[kind], InOrder(values));
  }

  lemma {:induction false} IntoKeepsPools(hash: string -> nat, ts: Tables, kind: Kind, p: Pool, values: seq<string>)
    requires FromPools(ts) && p.space > 0
    requires match kind
             case Ssid => p == OWN_SSIDS || p == NEIGHBOUR_SSIDS
             case Mac => p == MACS
             case Ip => p == IPS
             case Vendor => p == VENDOR_NAMES
    ensures Into(hash, Some(ts), kind, p, values).Some? ==> FromPools(Into(hash, Some(ts), kind, p, values).value)
  {
    hide Into, FromPool;
    IntoFromPool(hash, ts, kind, p, values);
  }

  lemma {:induction false} StepKeepsPools(hash: string -> nat, ts: Tables, op: Op)
    requires FromPools(ts)
    ensures Step(hash, ts, op).Some? ==> FromPools(Step(hash, ts, op).value)
  {
    hide Into, FromPools, FromPool, AssignAll;
    match op
    case Prepare(ownSsids, ssids, macs, ips, vendors) =>
      PrepareKeepsPools(hash, ts, ownSsids, ssids, macs, ips, vendors);
    case LookupSsid(v, own) => IntoKeepsPools(hash, ts, Ssid, SsidPool(own), [v]);
    case LookupMac(v) => IntoKeepsPools(hash, ts, Mac, MACS, [Lower(v)]);
    case LookupIp(v) => IntoKeepsPools(hash, ts, Ip, IPS, [v]);
    case LookupVendor(v) => IntoKeepsPools(hash, ts, Vendor, VENDOR_NAMES, [v]);
  }

  lemma {:induction false} PrepareKeepsPools(
    hash: string -> nat, ts: Tables,
    own: seq<string>, ssids: seq<string>, macs: seq<string>, ips: seq<string>, vendors: seq<string>)
    requires FromPools(ts)
    ensures var r := Step(hash, ts, Prepare(own, ssids, macs, ips, vendors)); r.Some? ==> FromPools(r.value)
  {
    var a := Into(hash, Some(ts), Ssid, OWN_SSIDS, own);
    IntoKeepsPools(hash, ts, Ssid, OWN_SSIDS, own);
    if a.Some? {
      var b := Into(hash, a, Ssid, NEIGHBOUR_SSIDS, ssids);
      IntoKeepsPools(hash, a.value, Ssid, NEIGHBOUR_SSIDS, ssids);
      if b.Some? {
        AddressesKeepPools(hash, b.value, macs, ips, vendors);
      }
    }
    hide FromPools, AssignAll;
  }

  ghost function Addresses(
    hash: string -> nat, ts: Tables, macs: seq<string>, ips: seq<string>, vendors: seq<string>): Option<Tables>
    requires AllKinds(ts)
  {
    Into(hash, Into(hash, Into(hash, Some(ts), Mac, MACS, LowerAll(macs)), Ip, IPS, ips), Vendor, VENDOR_NAMES, vendors)
  }

  lemma {:induction false} AddressesKeepPools(
    hash: string -> nat, ts: Tables, macs: seq<string>, ips: seq<string>, vendors: seq<string>)
    requires FromPools(ts)
    ensures var r := Addresses(hash, ts, macs, ips, vendors); r.Some? ==> FromPools(r.value)
  {
    hide FromPool;
    var c := Into(hash, Some(ts), Mac, MACS, LowerAll(macs));
    IntoKeepsPools(hash, ts, Mac, MACS, LowerAll(macs));
    if c.Some? {
      var d := Into(hash, c, Ip, IPS, ips);
      IntoKeepsPools(hash, c.value, Ip, IPS, ips);
      if d.Some? {
        IntoKeepsPools(hash, d.value, Vendor, VENDOR_NAMES, vendors);
      }
    }
  }

  lemma {:induction false} RunKeepsPools(hash: string -> nat, ts: Tables, ops: seq<Op>)
    requires FromPools(ts)
    ensures Run(hash, ts, ops).Some? ==> FromPools(Run(hash, ts, ops).value)
  {
    hide Step, FromPool;
    if ops != [] {
      var front := ops[..|ops| - 1];
      RunKeepsPools(hash, ts, front);
      if Run(hash, ts, front).Some? {
        StepKeepsPools(hash, Run(hash, ts, front).value, ops[|ops| - 1]);
      }
    }
  }

  /** On every run: an alias for a MAC address is locally administered, one for an IP address is a documentation address. */
  lemma {:induction false} VisiblyNotReal(hash: string -> nat, ops: seq<Op>)
    ensures AllKinds(EMPTY)
    ensures Run(hash, EMPTY, ops).Some? ==>
      var ts := Run(hash, EMPTY, ops).value;
      && (forall value :: value in ts[Mac] ==> exists index: nat :: IsLocalMac(ts[Mac][value], index))
      && (forall value :: value in ts[Ip] ==> IsDocumentation(ts[Ip][value]))
  {
    EmptyHasAllKinds();
    RunKeepsPools(hash, EMPTY, ops);
    hide Run, IsLocalMac, IsDocumentation;
    if Run(hash, EMPTY, ops).Some? {
      PoolsAreNotReal(Run(hash, EMPTY, ops).value);
    }
  }

  lemma {:induction false} PoolsAreNotReal(ts: Tables)
    requires FromPools(ts)
    ensures forall value :: value in ts[Mac] ==> exists index: nat :: IsLocalMac(ts[Mac][value], index)
    ensures forall value :: value in ts[Ip] ==> IsDocumentation(ts[Ip][value])
  {
    hide IsLocalMac, IsDocumentation;
    forall value | value in ts[Mac]
      ensures exists index: nat :: IsLocalMac(ts[Mac][value], index)
    {
      assert ts[Mac][value] in ts[Mac].Values;
      var i: nat :| i < MACS.space && ts[Mac][value] == MACS.alias(i);
      MacIsLocal(i);
    }
    forall value | value in ts[Ip]
      ensures IsDocumentation(ts[Ip][value])
    {
      assert ts[Ip][value] in ts[Ip].Values;
      var i: nat :| i < IPS.space && ts[Ip][value] == IPS.alias(i);
      IpIsDocumentation(i);
    }
  }
}
