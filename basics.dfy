/** Small building blocks shared by the other modules: an option type, the
    decimal rendering of integers used by Python's `str(n)` and `f"{n:02d}"`,
    and ASCII case mapping. */
module Basics {

  datatype Option<+T> = None | Some(value: T)

  predicate IsDigit(c: char) { '0' <= c <= '9' }

  function DigitChar(d: nat): (c: char)
    requires d < 10
    ensures IsDigit(c) && c as int - '0' as int == d
  {
    ('0' as int + d) as char
  }

  /** The decimal digits of a natural number, without leading zeros. */
  function Digits(n: nat): (r: string)
    ensures |r| >= 1
    ensures forall i :: 0 <= i < |r| ==> IsDigit(r[i])
    ensures n >= 10 ==> |r| >= 2
    ensures (|r| == 1) == (n < 10)
  {
    if n < 10 then [DigitChar(n)] else Digits(n / 10) + [DigitChar(n % 10)]
  }

  /** The value of a string of decimal digits (leading zeros allowed). */
  function DigitsValue(s: string): nat
    requires forall i :: 0 <= i < |s| ==> IsDigit(s[i])
  {
    if s == [] then 0
    else
      var d := s[|s| - 1] as int - '0' as int;
      assert IsDigit(s[|s| - 1]);
      DigitsValue(s[..|s| - 1]) * 10 + d
  }

  lemma {:induction false} DigitsRoundTrip(n: nat)
    ensures DigitsValue(Digits(n)) == n
  {
    if n >= 10 {
      var r := Digits(n);
      assert r[..|r| - 1] == Digits(n / 10);
      DigitsRoundTrip(n / 10);
    }
  }

  /** Python's `str(n)` for an integer n. */
  function IntToStr(n: int): string
  {
    if n < 0 then "-" + Digits(-n) else Digits(n)
  }

  /** Reads back a string produced by `IntToStr` or `Pad2`: an optional '-' and digits. */
  function DecimalValue(s: string): int
    requires |s| > 0
    requires forall i :: (if s[0] == '-' then 1 else 0) <= i < |s| ==> IsDigit(s[i])
  {
    if s[0] == '-' then 0 - DigitsValue(s[1..]) else DigitsValue(s)
  }

  lemma IntToStrRoundTrip(n: int)
    ensures |IntToStr(n)| > 0
    ensures forall i :: (if IntToStr(n)[0] == '-' then 1 else 0) <= i < |IntToStr(n)| ==> IsDigit(IntToStr(n)[i])
    ensures DecimalValue(IntToStr(n)) == n
  {
    if n < 0 {
      NegativeText(-n);
    } else {
      DigitsRoundTrip(n);
    }
  }

  lemma NegativeText(m: nat)
    requires m > 0
    ensures var s := "-" + Digits(m);
            && s[0] == '-'
            && (forall i :: 1 <= i < |s| ==> IsDigit(s[i]))
            && DecimalValue(s) == 0 - m
  {
    var ds := Digits(m);
    var s := "-" + ds;
    assert s[1..] == ds;
    DigitsRoundTrip(m);
  }

  function Zeros(k: int): (r: string)
    ensures |r| == if k <= 0 then 0 else k
    ensures forall i :: 0 <= i < |r| ==> r[i] == '0'
    decreases k
  {
    if k <= 0 then "" else "0" + Zeros(k - 1)
  }

  lemma {:induction false} LeadingZerosValue(k: int, ds: string)
    requires forall i :: 0 <= i < |ds| ==> IsDigit(ds[i])
    ensures forall i :: 0 <= i < |Zeros(k) + ds| ==> IsDigit((Zeros(k) + ds)[i])
    ensures DigitsValue(Zeros(k) + ds) == DigitsValue(ds)
    decreases |ds|
  {
    var z := Zeros(k);
    if ds == [] {
      assert z + ds == z;
      ZerosValue(k);
    } else {
      var ds' := ds[..|ds| - 1];
      assert (z + ds)[..|z + ds| - 1] == z + ds';
      LeadingZerosValue(k, ds');
    }
  }

  lemma {:induction false} ZerosValue(k: int)
    ensures DigitsValue(Zeros(k)) == 0
    decreases k
  {
    if k > 0 {
      var z := Zeros(k);
      assert z[..|z| - 1] == Zeros(k - 1) by {
        assert z == Zeros(k - 1) + "0";
      }
      ZerosValue(k - 1);
    }
  }

  /** Python's `f"{n:02d}"`: zero padding after the sign up to a total width of two. */
  function Pad2(n: int): string
  {
    var sign := if n < 0 then "-" else "";
    var ds := Digits(if n < 0 then -n else n);
    sign + Zeros(2 - |sign| - |ds|) + ds
  }

  /** Facts the output template relies on: at least two characters, the same text as
      `str(n)` from 10 on, a single leading zero below 10, and the number reads back. */
  lemma Pad2Facts(n: int)
    ensures |Pad2(n)| >= 2
    ensures n >= 10 || n < 0 ==> Pad2(n) == IntToStr(n)
    ensures 0 <= n < 10 ==> Pad2(n) == "0" + IntToStr(n)
    ensures forall i :: (if Pad2(n)[0] == '-' then 1 else 0) <= i < |Pad2(n)| ==> IsDigit(Pad2(n)[i])
    ensures DecimalValue(Pad2(n)) == n
  {
    var m := if n < 0 then -n else n;
    var ds := Digits(m);
    if n < 0 {
      assert Pad2(n) == "-" + ds;
      assert Pad2(n)[1..] == ds;
      DigitsRoundTrip(m);
    } else {
      var k := 2 - |ds|;
      assert Pad2(n) == Zeros(k) + ds;
      LeadingZerosValue(k, ds);
      DigitsRoundTrip(m);
      if n < 10 {
        assert Zeros(k) == "0";
      } else {
        assert Zeros(k) == "";
      }
    }
  }

  /** ASCII case mapping; letters outside a-z and A-Z are left unchanged. */
  function UpperChar(c: char): char
  {
    if 'a' <= c <= 'z' then (c as int - 32) as char else c
  }

  function LowerChar(c: char): char
  {
    if 'A' <= c <= 'Z' then (c as int + 32) as char else c
  }

  /** Python's `str.upper()`, restricted to ASCII letters. */
  function Upper(s: string): (r: string)
    ensures |r| == |s|
    ensures forall i :: 0 <= i < |s| ==> !('a' <= r[i] <= 'z')
    ensures forall i :: 0 <= i < |s| ==> UpperChar(r[i]) == UpperChar(s[i])
    ensures forall i :: 0 <= i < |s| && !('a' <= s[i] <= 'z') ==> r[i] == s[i]
  {
    seq(|s|, i requires 0 <= i < |s| => UpperChar(s[i]))
  }

  /** Python's `str.lower()`, restricted to ASCII letters. */
  function Lower(s: string): (r: string)
    ensures |r| == |s|
    ensures forall i :: 0 <= i < |s| ==> !('A' <= r[i] <= 'Z')
    ensures forall i :: 0 <= i < |s| ==> UpperChar(r[i]) == UpperChar(s[i])
    ensures forall i :: 0 <= i < |s| && !('A' <= s[i] <= 'Z') ==> r[i] == s[i]
  {
    seq(|s|, i requires 0 <= i < |s| => LowerChar(s[i]))
  }

  /** `sub` occurs in `s` starting at position i. */
  predicate OccursAt(sub: string, s: string, i: int)
  {
    0 <= i <= |s| - |sub| && s[i..i + |sub|] == sub
  }

  /** `sub in s` for Python strings. */
  predicate IsSubstring(sub: string, s: string)
  {
    exists i :: 0 <= i <= |s| - |sub| && OccursAt(sub, s, i)
  }
}
