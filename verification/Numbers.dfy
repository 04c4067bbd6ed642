/** Hexadecimal text determines the number. */
module Numbers {
  import opened Types
  import opened Text

  function DigitValue(c: char): nat {
    if '0' <= c <= '9' then (c as int) - ('0' as int)
    else if 'A' <= c <= 'F' then (c as int) - ('A' as int) + 10
    else 0
  }

  /** Reads hexadecimal digits, most significant first. */
  function ParseHex(s: string): nat {
    if s == "" then 0 else ParseHex(s[..|s| - 1]) * 16 + DigitValue(s[|s| - 1])
  }

  predicate IsHexDigit(c: char) { '0' <= c <= '9' || 'A' <= c <= 'F' }

  lemma DigitRoundTrip(d: nat)
    requires d < 16
    ensures IsHexDigit(HEX_DIGITS[d]) && DigitValue(HEX_DIGITS[d]) == d
    ensures HEX_DIGITS[d] == '0' <==> d == 0
  {
  }

  /** Hex digits only, no superfluous leading zero, and parsing returns the value. */
  lemma {:induction false} HexRoundTrip(v: nat)
    ensures ParseHex(Hex(v)) == v
    ensures |Hex(v)| >= 1
    ensures forall i :: 0 <= i < |Hex(v)| ==> IsHexDigit(Hex(v)[i])
    ensures Hex(v)[0] == '0' <==> v == 0
  {
    if v < 16 {
      DigitRoundTrip(v);
      assert Hex(v)[..0] == "";
    } else {
      HexRoundTrip(v / 16);
      DigitRoundTrip(v % 16);
      var s := Hex(v);
      assert s[..|s| - 1] == Hex(v / 16);
    }
  }

  function Pow16(k: nat): nat {
    if k == 0 then 1 else 16 * Pow16(k - 1)
  }

  lemma {:induction false} HexLength(v: nat, k: nat)
    requires k >= 1 && v < Pow16(k)
    ensures |Hex(v)| <= k
  {
    if v >= 16 && k > 1 {
      assert v / 16 < Pow16(k - 1);
      HexLength(v / 16, k - 1);
    }
  }

  lemma SixteenDigits(v: nat)
    requires v < TWO_64
    ensures |Hex(v)| <= 16
  {
    assert Pow16(4) == TWO_16 by {
      assert Pow16(2) == 256;
      assert Pow16(3) == 16 * Pow16(2);
    }
    assert Pow16(8) == TWO_32 by {
      assert Pow16(5) == 16 * Pow16(4);
      assert Pow16(6) == 16 * Pow16(5);
      assert Pow16(7) == 16 * Pow16(6);
    }
    assert Pow16(12) == TWO_16 * TWO_32 by {
      assert Pow16(9) == 16 * Pow16(8);
      assert Pow16(10) == 16 * Pow16(9);
      assert Pow16(11) == 16 * Pow16(10);
    }
    assert Pow16(16) == TWO_64 by {
      assert Pow16(13) == 16 * Pow16(12);
      assert Pow16(14) == 16 * Pow16(13);
      assert Pow16(15) == 16 * Pow16(14);
    }
    HexLength(v, 16);
  }

  lemma HexInjective(v: nat, w: nat)
    requires Hex(v) == Hex(w)
    ensures v == w
  {
    HexRoundTrip(v);
    HexRoundTrip(w);
  }
}
