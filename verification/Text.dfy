/** White space, prefixes and decimal numerals. */
module Text {

  /** What `str.strip` takes for white space. */
  predicate IsSpace(c: char) {
    || '\U{0009}' <= c <= '\U{000d}' || '\U{001c}' <= c <= '\U{0020}' || c == '\U{0085}' || c == '\U{00a0}'
    || c == '\U{1680}' || '\U{2000}' <= c <= '\U{200a}' || c == '\U{2028}' || c == '\U{2029}'
    || c == '\U{202f}' || c == '\U{205f}' || c == '\U{3000}'
  }

  function LStrip(s: string): (r: string)
    ensures |r| <= |s|
    ensures s != [] && IsSpace(s[0]) ==> |r| < |s|
    ensures s == [] || !IsSpace(s[0]) ==> r == s
  {
    if s != [] && IsSpace(s[0]) then LStrip(s[1..]) else s
  }

  function RStrip(s: string): (r: string)
    ensures |r| <= |s|
    ensures s == [] || !IsSpace(s[|s| - 1]) ==> r == s
  {
    if s != [] && IsSpace(s[|s| - 1]) then RStrip(s[..|s| - 1]) else s
  }

  function Strip(s: string): string { LStrip(RStrip(s)) }

  ghost predicate AllSpace(s: string) { forall i :: 0 <= i < |s| ==> IsSpace(s[i]) }

  /** What stripping is for: white space around a text that neither begins nor ends with any. */
  ghost predicate StripsTo(s: string, core: string) {
    && (core == [] || (!IsSpace(core[0]) && !IsSpace(core[|core| - 1])))
    && exists i :: 0 <= i && i + |core| <= |s| && Around(s, core, i)
  }

  ghost predicate Around(s: string, core: string, i: nat)
    requires i + |core| <= |s|
  {
    s[i..i + |core|] == core && AllSpace(s[..i]) && AllSpace(s[i + |core|..])
  }

  lemma {:induction false} RStripSplits(s: string)
    ensures RStrip(s) <= s && AllSpace(s[|RStrip(s)|..])
    ensures RStrip(s) == [] || !IsSpace(RStrip(s)[|RStrip(s)| - 1])
  {
    if s != [] && IsSpace(s[|s| - 1]) {
      RStripSplits(s[..|s| - 1]);
      assert s[|RStrip(s)|..] == s[..|s| - 1][|RStrip(s)|..] + [s[|s| - 1]];
    }
  }

  lemma {:induction false} LStripSplits(s: string)
    ensures LStrip(s) == s[|s| - |LStrip(s)|..] && AllSpace(s[..|s| - |LStrip(s)|])
    ensures LStrip(s) == [] || !IsSpace(LStrip(s)[0])
  {
    if s != [] && IsSpace(s[0]) {
      LStripSplits(s[1..]);
      var n := |s| - |LStrip(s)|;
      assert s[..n] == [s[0]] + s[1..][..n - 1];
    }
  }

  /** Two texts the same text strips to are one. */
  lemma {:induction false} StripsToOne(s: string, a: string, b: string, i: nat, j: nat)
    requires i + |a| <= |s| && j + |b| <= |s| && Around(s, a, i) && Around(s, b, j)
    requires a == [] || (!IsSpace(a[0]) && !IsSpace(a[|a| - 1]))
    requires b == [] || (!IsSpace(b[0]) && !IsSpace(b[|b| - 1]))
    ensures a == b
  {
    SpaceOutside(s, a, i);
    SpaceOutside(s, b, j);
    assert forall k :: 0 <= k < |a| ==> a[k] == s[i..i + |a|][k] == s[i + k];
    assert forall k :: 0 <= k < |b| ==> b[k] == s[j..j + |b|][k] == s[j + k];
  }

  lemma {:induction false} SpaceOutside(s: string, core: string, i: nat)
    requires i + |core| <= |s| && Around(s, core, i)
    ensures forall k :: 0 <= k < i || i + |core| <= k < |s| ==> IsSpace(s[k])
  {
    forall k | 0 <= k < i || i + |core| <= k < |s|
      ensures IsSpace(s[k])
    {
      if k < i {
        assert s[k] == s[..i][k];
      } else {
        assert s[k] == s[i + |core|..][k - i - |core|];
      }
    }
  }

  lemma {:induction false} StripSplits(s: string)
    ensures var core := Strip(s);
      && (core == [] || (!IsSpace(core[0]) && !IsSpace(core[|core| - 1])))
      && exists i :: 0 <= i && i + |core| <= |s| && Around(s, core, i)
  {
    hide RStrip, LStrip, IsSpace, AllSpace;
    var r, l := RStrip(s), LStrip(RStrip(s));
    RStripSplits(s);
    LStripSplits(r);
    var i := |r| - |l|;
    assert s[..i] == r[..i] && s[i..i + |l|] == l && s[i + |l|..] == s[|r|..];
    assert Around(s, l, i);
    if l != [] {
      assert l[|l| - 1] == r[|r| - 1];
    }
  }

  /** Stripping gives exactly that text. */
  lemma {:induction false} StripIff(s: string, core: string)
    ensures Strip(s) == core <==> StripsTo(s, core)
  {
    hide Strip, IsSpace, Around;
    StripSplits(s);
    var i :| 0 <= i && i + |Strip(s)| <= |s| && Around(s, Strip(s), i);
    if StripsTo(s, core) {
      var j :| 0 <= j && j + |core| <= |s| && Around(s, core, j);
      StripsToOne(s, Strip(s), core, i, j);
    }
  }

  /** White space among the ASCII characters: tab to carriage return, the four separators, blank. */
  lemma {:induction false} AsciiSpace(c: char)
    requires c < '\U{0080}'
    ensures IsSpace(c) <==> c in "\t\n\U{000b}\U{000c}\r\U{001c}\U{001d}\U{001e}\U{001f} "
  {
  }

  predicate StartsWith(s: string, p: string) { |p| <= |s| && s[..|p|] == p }

  lemma {:induction false} StartsWithIff(s: string, p: string)
    ensures StartsWith(s, p) <==> exists rest :: s == p + rest
  {
    if StartsWith(s, p) {
      assert s == p + s[|p|..];
    }
  }

  // ASCII only: what is compared in lower case here are addresses and host names.

  function LowerChar(c: char): char {
    if 'A' <= c <= 'Z' then (c as int + 32) as char else c
  }

  function UpperChar(c: char): char {
    if 'a' <= c <= 'z' then (c as int - 32) as char else c
  }

  function Lower(s: string): (r: string)
    ensures |r| == |s| && forall i :: 0 <= i < |s| ==> r[i] == LowerChar(s[i])
  {
    seq(|s|, i requires 0 <= i < |s| => LowerChar(s[i]))
  }

  function Upper(s: string): (r: string)
    ensures |r| == |s| && forall i :: 0 <= i < |s| ==> r[i] == UpperChar(s[i])
  {
    seq(|s|, i requires 0 <= i < |s| => UpperChar(s[i]))
  }

  lemma {:induction false} CaseSamples()
    ensures Lower("AMZ@[`{amz09") == "amz@[`{amz09" && Upper("amz@[`{AMZ09") == "AMZ@[`{AMZ09"
  {
  }

  predicate IsDigit(c: char) { '0' <= c <= '9' }

  function DigitChar(d: nat): (c: char)
    requires d < 10
    ensures IsDigit(c)
  {
    ('0' as int + d) as char
  }

  function DigitValue(c: char): (d: nat)
    requires IsDigit(c)
    ensures d < 10
  {
    c as int - '0' as int
  }

  predicate AllDigits(s: string) {
    forall i :: 0 <= i < |s| ==> IsDigit(s[i])
  }

  function Decimal(n: nat): (s: string)
    ensures s != [] && AllDigits(s)
  {
    if n < 10 then [DigitChar(n)] else Decimal(n / 10) + [DigitChar(n % 10)]
  }

  function NumberOf(s: string): nat
    requires AllDigits(s)
  {
    if s == [] then 0 else 10 * NumberOf(s[..|s| - 1]) + DigitValue(s[|s| - 1])
  }

  /** Reading a numeral back gives the number, so numerals of different numbers differ. */
  lemma {:induction false} NumberOfDecimal(n: nat)
    ensures NumberOf(Decimal(n)) == n
  {
    if n >= 10 {
      NumberOfDecimal(n / 10);
      assert Decimal(n)[..|Decimal(n)| - 1] == Decimal(n / 10);
    } else {
      assert [DigitChar(n)][..0] == [];
    }
  }

  lemma {:induction false} DecimalInjective(m: nat, n: nat)
    requires Decimal(m) == Decimal(n)
    ensures m == n
  {
    NumberOfDecimal(m);
    NumberOfDecimal(n);
  }

  /** Numerals are the usual ones: these two fix the digits and their order. */
  lemma {:induction false} DecimalSamples()
    ensures Decimal(0) == "0" && Decimal(1234567890) == "1234567890"
  {
    assert Decimal(1) == "1" && Decimal(12) == "12" && Decimal(123) == "123" && Decimal(1234) == "1234";
    assert Decimal(12345) == "12345" && Decimal(123456) == "123456" && Decimal(1234567) == "1234567";
    assert Decimal(12345678) == "12345678" && Decimal(123456789) == "123456789";
  }
}
