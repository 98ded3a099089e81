/** Fields of a hand-editable JSON object, and the cleaning they share. */
module Fields {
  import opened Text

  /** One field of a hand-editable JSON object. */
  datatype Value = Absent | Null | Flag(on: bool) | Number(n: int) | Str(s: string) | Nested

  predicate IsAlnum(c: char) { 'a' <= c <= 'z' || 'A' <= c <= 'Z' || IsDigit(c) }

  predicate IsTokenChar(c: char) { IsAlnum(c) || c in "_.:@%+-" }

  /** What may reach ssh as a name or an address: never a leading punctuation character. */
  predicate IsToken(s: string) {
    s != [] && IsAlnum(s[0]) && forall i :: 0 <= i < |s| ==> IsTokenChar(s[i])
  }

  predicate HasText(v: Value) { v.Str? && Strip(v.s) != [] }

  predicate Given(v: Value) { v != Absent && v != Null }

  /** Only the printable characters. */
  function Printed(s: string, printable: char -> bool): string {
    if s == [] then [] else (if printable(s[0]) then [s[0]] else []) + Printed(s[1..], printable)
  }

  ghost predicate AllPrintable(s: string, printable: char -> bool) {
    forall i :: 0 <= i < |s| ==> printable(s[i])
  }

  predicate IsTrimmed(s: string) { s == [] || (!IsSpace(s[0]) && !IsSpace(s[|s| - 1])) }

  lemma {:induction false} RStripEnd(s: string)
    ensures RStrip(s) == [] || !IsSpace(RStrip(s)[|RStrip(s)| - 1])
    ensures forall printable: char -> bool :: AllPrintable(s, printable) ==> AllPrintable(RStrip(s), printable)
  {
    if s != [] && IsSpace(s[|s| - 1]) {
      RStripEnd(s[..|s| - 1]);
      assert forall printable: char -> bool :: AllPrintable(s, printable) ==> AllPrintable(s[..|s| - 1], printable);
    }
  }

  lemma {:induction false} LStripEnds(s: string)
    requires s == [] || !IsSpace(s[|s| - 1])
    ensures IsTrimmed(LStrip(s))
    ensures forall printable: char -> bool :: AllPrintable(s, printable) ==> AllPrintable(LStrip(s), printable)
  {
    if s != [] && IsSpace(s[0]) {
      LStripEnds(s[1..]);
      assert forall printable: char -> bool :: AllPrintable(s, printable) ==> AllPrintable(s[1..], printable);
    }
  }

  lemma {:induction false} StripTrims(s: string)
    ensures IsTrimmed(Strip(s))
    ensures forall printable: char -> bool :: AllPrintable(s, printable) ==> AllPrintable(Strip(s), printable)
  {
    RStripEnd(s);
    LStripEnds(RStrip(s));
  }

  lemma {:induction false} StripOfTrimmed(s: string)
    requires IsTrimmed(s)
    ensures Strip(s) == s
  {
  }

  lemma {:induction false} PrintedIsPrintable(s: string, printable: char -> bool)
    ensures AllPrintable(Printed(s, printable), printable)
  {
    if s != [] {
      PrintedIsPrintable(s[1..], printable);
    }
  }

  lemma {:induction false} PrintedOfPrintable(s: string, printable: char -> bool)
    requires AllPrintable(s, printable)
    ensures Printed(s, printable) == s
  {
    if s != [] {
      PrintedOfPrintable(s[1..], printable);
      assert s == [s[0]] + s[1..];
    }
  }

  /** Text by text: what is kept of a text is what is kept of its parts. */
  lemma {:induction false} PrintedConcat(a: string, b: string, printable: char -> bool)
    ensures Printed(a + b, printable) == Printed(a, printable) + Printed(b, printable)
  {
    if a == [] {
      assert a + b == b;
    } else {
      assert (a + b)[0] == a[0] && (a + b)[1..] == a[1..] + b;
      PrintedConcat(a[1..], b, printable);
    }
  }

  /** And character by character: one stays exactly if it is printable. */
  lemma {:induction false} PrintedOne(c: char, printable: char -> bool)
    ensures Printed([c], printable) == if printable(c) then [c] else []
  {
    assert [c][1..] == [];
  }

  /** A field says a text: what is left of it between white space, and not nothing. */
  ghost predicate Says(v: Value, s: string) { v.Str? && s != "" && StripsTo(v.s, s) }

  lemma {:induction false} HasTextSays(v: Value)
    ensures HasText(v) ==> Says(v, Strip(v.s))
    ensures forall s :: Says(v, s) ==> HasText(v) && s == Strip(v.s)
  {
    hide Strip, StripsTo;
    if v.Str? {
      StripIff(v.s, Strip(v.s));
      forall s | Says(v, s)
        ensures s == Strip(v.s)
      {
        StripIff(v.s, s);
      }
    }
  }

  /** A name or an address: any number of letters, digits and `_.:@%+-`, a letter or a digit first. */
  lemma {:induction false} TokenIff(s: string)
    ensures IsToken(s) <==>
      && 0 < |s| && s[0] !in "_.:@%+-"
      && forall i :: 0 <= i < |s| ==>
           s[i] in "_.:@%+-" || '0' <= s[i] <= '9' || 'a' <= s[i] <= 'z' || 'A' <= s[i] <= 'Z'
  {
    if s != [] {
      assert IsTokenChar(s[0]) ==> IsAlnum(s[0]) || s[0] in "_.:@%+-";
    }
  }
}
