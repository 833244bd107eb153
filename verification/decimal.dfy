/** Decimal rendering of frame numbers: Python's `str(n)` and the zero-padded
    `'{:04}'.format(n)` used in every per-frame file name, with the reading
    back that makes those names unambiguous. */
module Decimal {

  predicate IsDigit(ch: char) {
    '0' <= ch <= '9'
  }

  predicate AllDigits(s: string) {
    forall i :: 0 <= i < |s| ==> IsDigit(s[i])
  }

  function DigitChar(d: nat): (ch: char)
    requires d < 10
    ensures IsDigit(ch) && ch as int - '0' as int == d
  {
    ('0' as int + d) as char
  }

  /** The number a digit string denotes in base 10. */
  function ValueOf(s: string): nat
    requires AllDigits(s)
    decreases |s|
  {
    if |s| == 0 then 0 else ValueOf(s[..|s| - 1]) * 10 + (s[|s| - 1] as int - '0' as int)
  }

  /** `str(n)`: the shortest digit string that reads back as `n`. */
  function Dec(n: nat): (r: string)
    ensures 1 <= |r| && AllDigits(r)
    ensures ValueOf(r) == n
    ensures |r| > 1 ==> r[0] != '0'
    ensures n < 10 ==> |r| == 1
    ensures n < 100 ==> |r| <= 2
    ensures n < 1000 ==> |r| <= 3
    ensures n < 10000 ==> |r| <= 4
    decreases n
  {
    if n < 10 then [DigitChar(n)]
    else
      var r := Dec(n / 10) + [DigitChar(n % 10)];
      assert r[..|r| - 1] == Dec(n / 10);
      r
  }

  /** `str(i)` for a possibly negative integer. */
  function IntToString(i: int): (r: string)
    ensures |r| >= 1
    ensures r[0] == '-' <==> i < 0
    ensures i >= 0 ==> r == Dec(i)
    ensures i < 0 ==> r[1..] == Dec(-i)
  {
    if i < 0 then "-" + Dec(-i) else Dec(i)
  }

  function Zeros(k: nat): (r: string)
    ensures |r| == k && AllDigits(r)
    ensures forall i :: 0 <= i < k ==> r[i] == '0'
  {
    seq(k, _ => '0')
  }

  /** Leading zeros do not change the value of a digit string. */
  lemma {:induction false} ValueOfLeadingZeros(k: nat, s: string)
    requires AllDigits(s)
    ensures ValueOf(Zeros(k) + s) == ValueOf(s)
    decreases |s|, k
  {
    if |s| == 0 {
      assert Zeros(k) + s == Zeros(k);
      if k > 0 {
        assert Zeros(k)[..k - 1] == Zeros(k - 1);
        ValueOfLeadingZeros(k - 1, s);
        assert Zeros(k - 1) + s == Zeros(k - 1);
      }
    } else {
      var t := Zeros(k) + s;
      assert t[..|t| - 1] == Zeros(k) + s[..|s| - 1];
      ValueOfLeadingZeros(k, s[..|s| - 1]);
    }
  }

  /** `'{:04}'.format(n)`: at least four digits, zero-filled on the left up to
      four and never beyond, reading back as `n`; so distinct frames never
      share a padded name. */
  function Pad4(n: nat): (r: string)
    ensures |r| >= 4 && AllDigits(r)
    ensures ValueOf(r) == n
    ensures n < 10000 ==> |r| == 4
    ensures |r| > 4 ==> r[0] != '0'
  {
    var d := Dec(n);
    if |d| >= 4 then d
    else
      ValueOfLeadingZeros(4 - |d|, d);
      Zeros(4 - |d|) + d
  }

  predicate EndsWithDec(s: string, n: nat) {
    |Dec(n)| <= |s| && s[|s| - |Dec(n)|..] == Dec(n)
  }

  /** The padding only adds zeros in front of `str(n)`. */
  lemma Pad4EndsWithDec(n: nat)
    ensures EndsWithDec(Pad4(n), n)
  {
    var d := Dec(n);
    if |d| < 4 {
      assert Pad4(n) == Zeros(4 - |d|) + d;
    }
  }

  /** Padded frame numbers are equal exactly when the frames are. */
  lemma Pad4Injective(a: nat, b: nat)
    ensures Pad4(a) == Pad4(b) <==> a == b
  {
  }

  lemma DecInjective(a: nat, b: nat)
    ensures Dec(a) == Dec(b) <==> a == b
  {
  }
}
