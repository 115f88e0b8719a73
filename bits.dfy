/**
 * Bitstreams: a payload's bits as `seq<bool>` (true for '1'), their big-endian
 * value, the bit-reversed stream, and the hex-to-binary conversion.
 */
module Bits {
  import opened Basics

  function Pow2(n: nat): (p: nat)
    ensures p >= 1
  {
    if n == 0 then 1 else 2 * Pow2(n - 1)
  }

  /** Big-endian unsigned value of a bit string: Python's `int(bits, 2)`. */
  function Value(bs: seq<bool>): (v: nat)
    ensures v < Pow2(|bs|)
  {
    if bs == [] then 0 else 2 * Value(bs[..|bs| - 1]) + (if bs[|bs| - 1] then 1 else 0)
  }

  /** The `n`-bit big-endian representation of `v`: Python's `bin(v)[2:].zfill(n)` when `v < 2^n`. */
  function ToBits(v: nat, n: nat): (bs: seq<bool>)
    ensures |bs| == n
  {
    if n == 0 then [] else ToBits(v / 2, n - 1) + [v % 2 == 1]
  }

  lemma {:induction false} ValueOfSnoc(bs: seq<bool>, b: bool)
    ensures Value(bs + [b]) == 2 * Value(bs) + (if b then 1 else 0)
  {
    assert (bs + [b])[..|bs|] == bs;
  }

  /** Reading back an `n`-bit representation gives the number. */
  lemma {:induction false} ValueToBits(v: nat, n: nat)
    requires v < Pow2(n)
    ensures Value(ToBits(v, n)) == v
  {
    if n > 0 {
      ValueToBits(v / 2, n - 1);
      ValueOfSnoc(ToBits(v / 2, n - 1), v % 2 == 1);
    }
  }

  /** Writing out a bit string's value at its own width gives the bit string back. */
  lemma {:induction false} ToBitsValue(bs: seq<bool>)
    ensures ToBits(Value(bs), |bs|) == bs
  {
    if bs != [] {
      var init := bs[..|bs| - 1];
      var v := Value(bs);
      assert v / 2 == Value(init) && (v % 2 == 1) == bs[|bs| - 1];
      ToBitsValue(init);
      assert bs == init + [bs[|bs| - 1]];
    }
  }

  /** `s[::-1]`. */
  function Reverse<T>(s: seq<T>): (r: seq<T>)
    ensures |r| == |s|
    ensures forall i :: 0 <= i < |s| ==> r[i] == s[|s| - 1 - i]
  {
    if s == [] then [] else Reverse(s[1..]) + [s[0]]
  }

  lemma ReverseInvolutive<T>(s: seq<T>)
    ensures Reverse(Reverse(s)) == s
  {
    assert forall i :: 0 <= i < |s| ==> Reverse(Reverse(s))[i] == s[i];
  }

  predicate IsHexDigit(c: char) {
    ('0' <= c <= '9') || ('a' <= c <= 'f') || ('A' <= c <= 'F')
  }

  predicate IsHex(s: string) {
    forall i :: 0 <= i < |s| ==> IsHexDigit(s[i])
  }

  function DigitValue(c: char): (d: nat)
    requires IsHexDigit(c)
    ensures d < 16
  {
    if '0' <= c <= '9' then c as int - '0' as int
    else if 'a' <= c <= 'f' then c as int - 'a' as int + 10
    else c as int - 'A' as int + 10
  }

  /** The value of a hex string: Python's `int(s, 16)` on plain hex digits. */
  function HexValue(s: string): nat
    requires IsHex(s)
  {
    if s == [] then 0 else 16 * HexValue(s[..|s| - 1]) + DigitValue(s[|s| - 1])
  }

  lemma {:induction false} HexValueBound(s: string)
    requires IsHex(s)
    ensures HexValue(s) < Pow2(4 * |s|)
  {
    if s != [] {
      HexValueBound(s[..|s| - 1]);
      var n := 4 * (|s| - 1);
      assert Pow2(n + 4) == 2 * Pow2(n + 3) == 4 * Pow2(n + 2) == 8 * Pow2(n + 1) == 16 * Pow2(n);
    }
  }

  /**
   * `hex_to_binary`: `bin(int(s, 16))[2:].zfill(len(s) * 4)`. `int` raises
   * `ValueError` on an empty string or a non-hex character.
   */
  function HexToBinary(s: string): (r: Result<seq<bool>>)
    ensures r.Ok? <==> s != [] && IsHex(s)
    ensures r.Ok? ==> |r.value| == 4 * |s| && Value(r.value) == HexValue(s)
    ensures r.ValueError? ==> r.input == s
  {
    if s != [] && IsHex(s) then
      HexValueBound(s);
      ValueToBits(HexValue(s), 4 * |s|);
      Ok(ToBits(HexValue(s), 4 * |s|))
    else ValueError(s)
  }

  /** The bits are determined by their length and value: no other bit string of that width has the hex value. */
  lemma HexToBinaryUnique(s: string, bs: seq<bool>)
    requires s != [] && IsHex(s)
    requires |bs| == 4 * |s| && Value(bs) == HexValue(s)
    ensures HexToBinary(s) == Ok(bs)
  {
    ToBitsValue(bs);
  }

  function LowerChar(c: char): (l: char)
  {
    if 'A' <= c <= 'Z' then (c as int - 'A' as int + 'a' as int) as char else c
  }

  function Lower(s: string): (r: string)
    ensures |r| == |s|
    ensures forall i :: 0 <= i < |s| ==> r[i] == LowerChar(s[i])
  {
    if s == [] then [] else Lower(s[..|s| - 1]) + [LowerChar(s[|s| - 1])]
  }

  /** Lower-casing a hex string keeps it hex, leaves no upper-case digit, and keeps its value. */
  lemma {:induction false} LowerKeepsHexValue(s: string)
    requires IsHex(s)
    ensures IsHex(Lower(s))
    ensures forall i :: 0 <= i < |s| ==> !('A' <= Lower(s)[i] <= 'F')
    ensures HexValue(Lower(s)) == HexValue(s)
  {
    if s != [] {
      var init := s[..|s| - 1];
      assert IsHex(init);
      LowerKeepsHexValue(init);
      assert Lower(s)[..|s| - 1] == Lower(init);
    }
  }
}
