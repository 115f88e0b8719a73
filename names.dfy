/** Default card names: Python's `f"Card_{counter:03d}"`. */
module Names {

  function DigitChar(d: nat): (c: char)
    requires d < 10
  {
    ('0' as int + d) as char
  }

  /** Decimal digits of `n` without leading zeros (`"0"` for zero). */
  function Decimal(n: nat): (s: string)
    ensures |s| >= 1
    ensures forall i :: 0 <= i < |s| ==> '0' <= s[i] <= '9'
  {
    if n < 10 then [DigitChar(n)] else Decimal(n / 10) + [DigitChar(n % 10)]
  }

  /** The number a string of decimal digits denotes; leading zeros do not change it. */
  function DecimalValue(s: string): nat
    requires forall i :: 0 <= i < |s| ==> '0' <= s[i] <= '9'
  {
    if s == [] then 0 else 10 * DecimalValue(s[..|s| - 1]) + (s[|s| - 1] as int - '0' as int)
  }

  function Zeros(k: nat): (z: string)
    ensures |z| == k && forall i :: 0 <= i < k ==> z[i] == '0'
  {
    if k == 0 then [] else Zeros(k - 1) + ['0']
  }

  /** `:03d`: left-pad with zeros to at least three digits. */
  function Pad3(s: string): (r: string)
  {
    if |s| >= 3 then s else Zeros(3 - |s|) + s
  }

  function DefaultName(counter: nat): string {
    "Card_" + Pad3(Decimal(counter))
  }

  lemma {:induction false} DecimalRoundTrip(n: nat)
    ensures DecimalValue(Decimal(n)) == n
  {
    if n >= 10 {
      DecimalRoundTrip(n / 10);
      var s := Decimal(n);
      assert s[..|s| - 1] == Decimal(n / 10);
    }
  }

  lemma {:induction false} LeadingZerosIgnored(k: nat, s: string)
    requires forall i :: 0 <= i < |s| ==> '0' <= s[i] <= '9'
    ensures DecimalValue(Zeros(k) + s) == DecimalValue(s)
  {
    if s == [] {
      assert Zeros(k) + s == Zeros(k);
      ZerosValue(k);
    } else {
      var init := s[..|s| - 1];
      LeadingZerosIgnored(k, init);
      assert (Zeros(k) + s)[..|Zeros(k) + s| - 1] == Zeros(k) + init;
    }
  }

  lemma {:induction false} ZerosValue(k: nat)
    ensures DecimalValue(Zeros(k)) == 0
  {
    if k > 0 {
      ZerosValue(k - 1);
      assert Zeros(k)[..k - 1] == Zeros(k - 1);
    }
  }

  /**
   * A default name is "Card_" followed by at least three digits that spell the
   * counter, so different counters give different names.
   */
  lemma DefaultNameSpellsCounter(counter: nat)
    ensures |DefaultName(counter)| >= 8
    ensures DefaultName(counter)[..5] == "Card_"
    ensures var digits := DefaultName(counter)[5..];
            (forall i :: 0 <= i < |digits| ==> '0' <= digits[i] <= '9') && DecimalValue(digits) == counter
    ensures counter < 1000 ==> |DefaultName(counter)| == 8
  {
    var d := Decimal(counter);
    DecimalRoundTrip(counter);
    if |d| < 3 {
      LeadingZerosIgnored(3 - |d|, d);
    }
    assert DefaultName(counter)[5..] == Pad3(d);
    if counter < 1000 {
      DecimalShort(counter);
    }
  }

  lemma {:induction false} DecimalShort(n: nat)
    requires n < 1000
    ensures |Decimal(n)| <= 3
  {
    if n >= 10 {
      DecimalShort(n / 10);
      if n >= 100 {
        assert n / 10 >= 10;
        assert |Decimal(n / 10)| == |Decimal(n / 100)| + 1;
      } else {
        assert n / 10 < 10;
      }
    }
  }

  lemma DefaultNameInjective(a: nat, b: nat)
    requires DefaultName(a) == DefaultName(b)
    ensures a == b
  {
    DefaultNameSpellsCounter(a);
    DefaultNameSpellsCounter(b);
  }
}
