/** Decimal rendering of naturals as JavaScript's `Number#toString()` and `BigInt#toString()`
    produce it, and the clock texts ("m:ss", "hh:mm:ss") built from it. */
module Decimal {
  import opened Wrappers

  predicate IsDigit(c: char) { '0' <= c <= '9' }

  predicate AllDigits(s: string) {
    forall i :: 0 <= i < |s| ==> IsDigit(s[i])
  }

  function DigitChar(d: nat): (c: char)
    requires d < 10
    ensures IsDigit(c) && DigitValue(c) == d
  {
    "0123456789"[d]
  }

  function DigitValue(c: char): nat
    requires IsDigit(c)
  {
    c as int - '0' as int
  }

  /** The shortest decimal numeral of n: digits only, no leading zero except for 0 itself. */
  function NatToDecimal(n: nat): (r: string)
    ensures |r| >= 1 && AllDigits(r)
    ensures r[0] == '0' ==> n == 0 && |r| == 1
    ensures n < 10 <==> |r| == 1
    ensures n < 100 ==> |r| <= 2
    decreases n
  {
    if n < 10 then [DigitChar(n)] else NatToDecimal(n / 10) + [DigitChar(n % 10)]
  }

  /** The number a string of digits denotes (leading zeros allowed). */
  function DecimalValue(s: string): nat
    requires AllDigits(s)
  {
    if s == [] then 0 else DecimalValue(s[..|s| - 1]) * 10 + DigitValue(s[|s| - 1])
  }

  lemma {:induction false} DecimalRoundTrip(n: nat)
    ensures DecimalValue(NatToDecimal(n)) == n
    decreases n
  {
    if n >= 10 {
      var s := NatToDecimal(n);
      assert s[..|s| - 1] == NatToDecimal(n / 10);
      DecimalRoundTrip(n / 10);
    }
  }

  lemma NatToDecimalInjective(m: nat, n: nat)
    ensures NatToDecimal(m) == NatToDecimal(n) <==> m == n
  {
    DecimalRoundTrip(m);
    DecimalRoundTrip(n);
  }

  /** Leading '0' characters do not change the value of a numeral. */
  lemma {:induction false} LeadingZeros(z: string, s: string)
    requires forall i :: 0 <= i < |z| ==> z[i] == '0'
    requires AllDigits(s)
    ensures AllDigits(z + s) && DecimalValue(z + s) == DecimalValue(s)
    decreases |s|
  {
    assert AllDigits(z + s) by {
      forall i | 0 <= i < |z + s| ensures IsDigit((z + s)[i]) {
        if i < |z| { assert (z + s)[i] == z[i]; } else { assert (z + s)[i] == s[i - |z|]; }
      }
    }
    if s == [] {
      assert z + s == z;
      AllZeros(z);
    } else {
      var t := s[..|s| - 1];
      assert (z + s)[..|z + s| - 1] == z + t;
      LeadingZeros(z, t);
    }
  }

  lemma {:induction false} AllZeros(z: string)
    requires forall i :: 0 <= i < |z| ==> z[i] == '0'
    ensures AllDigits(z) && DecimalValue(z) == 0
    decreases |z|
  {
    if z != [] {
      AllZeros(z[..|z| - 1]);
    }
  }

  // ---- Clock texts -------------------------------------------------------------------

  /** The ':'-separated fields of s (like JavaScript's `s.split(":")`). */
  function Fields(s: string): (r: seq<string>)
    ensures |r| >= 1
    decreases |s|
  {
    if s == [] then [""]
    else
      var rest := Fields(s[1..]);
      if s[0] == ':' then [""] + rest else [[s[0]] + rest[0]] + rest[1..]
  }

  lemma {:induction false} FieldsNoColon(a: string)
    requires ':' !in a
    ensures Fields(a) == [a]
    decreases |a|
  {
    if a != [] {
      assert ':' !in a[1..];
      FieldsNoColon(a[1..]);
      assert [a[0]] + a[1..] == a;
    }
  }

  lemma {:induction false} FieldsSplit(a: string, b: string)
    requires ':' !in a
    ensures Fields(a + ":" + b) == [a] + Fields(b)
    decreases |a|
  {
    if a == [] {
      assert a + ":" + b == [':'] + b;
      assert (a + ":" + b)[1..] == b;
    } else {
      assert (a + ":" + b)[1..] == a[1..] + ":" + b;
      assert ':' !in a[1..];
      FieldsSplit(a[1..], b);
      assert [a[0]] + a[1..] == a;
    }
  }

  predicate NumericFields(fs: seq<string>) {
    forall i :: 0 <= i < |fs| ==> |fs[i]| > 0 && AllDigits(fs[i])
  }

  /** The numbers of a field list, if every field is a non-empty numeral. */
  function ReadFields(fs: seq<string>): (r: Option<seq<nat>>)
    ensures r.Some? ==> |r.value| == |fs|
  {
    if NumericFields(fs) then Some(seq(|fs|, i requires 0 <= i < |fs| && NumericFields(fs) => DecimalValue(fs[i])))
    else None
  }

  /** Reads a clock text ("m:ss", "hh:mm:ss") back into its numbers. */
  function ParseClock(s: string): Option<seq<nat>>
  {
    ReadFields(Fields(s))
  }

  /** The number of seconds a list of clock fields stands for, most significant first. */
  function Seconds(vs: seq<nat>): nat
  {
    if vs == [] then 0 else Seconds(vs[..|vs| - 1]) * 60 + vs[|vs| - 1]
  }

  lemma SecondsTwo(m: nat, s: nat)
    ensures Seconds([m, s]) == m * 60 + s
  {
    assert [m, s][..1] == [m];
    assert [m][..0] == [];
    assert Seconds([m]) == m;
  }

  lemma SecondsThree(h: nat, m: nat, s: nat)
    ensures Seconds([h, m, s]) == h * 3600 + m * 60 + s
  {
    assert [h, m, s][..2] == [h, m];
    SecondsTwo(h, m);
  }

  lemma NoColon(a: string)
    requires AllDigits(a)
    ensures ':' !in a
  {
  }

  lemma FieldsThree(a: string, b: string, c: string)
    requires ':' !in a && ':' !in b && ':' !in c
    ensures Fields(a + ":" + b + ":" + c) == [a, b, c]
  {
    assert a + ":" + b + ":" + c == a + ":" + (b + ":" + c);
    FieldsSplit(a, b + ":" + c);
    FieldsSplit(b, c);
    FieldsNoColon(c);
  }

  /** Numerals joined by ':' split back into those numerals. */
  lemma DigitFieldsTwo(a: string, b: string)
    requires AllDigits(a) && AllDigits(b)
    ensures Fields(a + ":" + b) == [a, b]
  {
    NoColon(a);
    NoColon(b);
    FieldsSplit(a, b);
    FieldsNoColon(b);
  }

  lemma DigitFieldsThree(a: string, b: string, c: string)
    requires AllDigits(a) && AllDigits(b) && AllDigits(c)
    ensures Fields(a + ":" + b + ":" + c) == [a, b, c]
  {
    NoColon(a);
    NoColon(b);
    NoColon(c);
    FieldsThree(a, b, c);
  }

  lemma ReadTwo(s: string, a: string, b: string)
    requires |a| > 0 && AllDigits(a) && |b| > 0 && AllDigits(b)
    requires Fields(s) == [a, b]
    ensures ParseClock(s) == Some([DecimalValue(a), DecimalValue(b)])
  {
    var fs := [a, b];
    assert NumericFields(fs);
    assert ReadFields(fs).value == [DecimalValue(a), DecimalValue(b)];
  }

  lemma ReadThree(s: string, a: string, b: string, c: string)
    requires |a| > 0 && AllDigits(a) && |b| > 0 && AllDigits(b) && |c| > 0 && AllDigits(c)
    requires Fields(s) == [a, b, c]
    ensures ParseClock(s) == Some([DecimalValue(a), DecimalValue(b), DecimalValue(c)])
  {
    var fs := [a, b, c];
    assert NumericFields(fs);
    assert ReadFields(fs).value == [DecimalValue(a), DecimalValue(b), DecimalValue(c)];
  }

  /** Two numerals joined by ':' read back as their two numbers. */
  lemma TwoFieldClock(a: string, b: string)
    requires |a| > 0 && AllDigits(a) && |b| > 0 && AllDigits(b)
    ensures ParseClock(a + ":" + b) == Some([DecimalValue(a), DecimalValue(b)])
  {
    NoColon(a);
    NoColon(b);
    FieldsSplit(a, b);
    FieldsNoColon(b);
    ReadTwo(a + ":" + b, a, b);
  }

  /** Likewise for three numerals. */
  lemma ThreeFieldClock(a: string, b: string, c: string)
    requires |a| > 0 && AllDigits(a) && |b| > 0 && AllDigits(b) && |c| > 0 && AllDigits(c)
    ensures ParseClock(a + ":" + b + ":" + c) == Some([DecimalValue(a), DecimalValue(b), DecimalValue(c)])
  {
    NoColon(a);
    NoColon(b);
    NoColon(c);
    FieldsThree(a, b, c);
    ReadThree(a + ":" + b + ":" + c, a, b, c);
  }
}
