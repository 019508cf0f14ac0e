/** The format word `log_bits` and the text the integer appends format:
    `%u`/`%lu` in the default mode, `0x%02x`/`0x%016lx` in hex mode. */
module LogFormat {
  import opened Status

  /** The format bits occupy the low 16 bits of the word. */
  const FORMAT_MASK: bv32 := 0x0000_FFFF
  /** Hexadecimal output is bit 0. */
  const FORMAT_HEX: bv32 := 0x0000_0001
  /** The default (decimal) format is no bit set. */
  const FORMAT_DEFAULT: bv32 := 0x0000_0000

  newtype uint8 = x: int | 0 <= x < 0x100
  newtype uint64 = x: int | 0 <= x < 0x1_0000_0000_0000_0000

  /** The hex bit lies inside the format mask, and the default format is the
      all-zero value of the format bits. */
  lemma FormatConstants()
    ensures FORMAT_HEX & FORMAT_MASK == FORMAT_HEX
    ensures FORMAT_DEFAULT & FORMAT_MASK == 0
  {
  }

  /** Whether the integer appends render in hexadecimal. */
  predicate IsHex(bits: bv32) {
    bits & FORMAT_HEX != 0
  }

  /** The word after `format_set_hex`: the format bits are exactly the hex
      format, every other bit is kept. */
  function WithHexFormat(bits: bv32): (r: bv32)
    ensures r & FORMAT_MASK == FORMAT_HEX
    ensures r & !FORMAT_MASK == bits & !FORMAT_MASK
    ensures IsHex(r)
  {
    (bits & !FORMAT_MASK) | FORMAT_HEX
  }

  /** The word after `format_set_default`: the format bits are cleared, every
      other bit is kept. */
  function WithDefaultFormat(bits: bv32): (r: bv32)
    ensures r & FORMAT_MASK == FORMAT_DEFAULT
    ensures r & !FORMAT_MASK == bits & !FORMAT_MASK
    ensures !IsHex(r)
  {
    (bits & !FORMAT_MASK) | FORMAT_DEFAULT
  }

  /** Setting hex twice is setting it once. */
  lemma SetHexIdempotent(bits: bv32)
    ensures WithHexFormat(WithHexFormat(bits)) == WithHexFormat(bits)
  {
  }

  /** Setting the default format twice is setting it once. */
  lemma SetDefaultIdempotent(bits: bv32)
    ensures WithDefaultFormat(WithDefaultFormat(bits)) == WithDefaultFormat(bits)
  {
  }

  /** Hex followed by default restores the default format of the word. */
  lemma SetDefaultUndoesHex(bits: bv32)
    ensures WithDefaultFormat(WithHexFormat(bits)) == WithDefaultFormat(bits)
  {
  }

  /** A fresh logger's word, zero, is in the default format. */
  lemma ZeroIsDefault()
    ensures !IsHex(0) && WithDefaultFormat(0) == 0
  {
  }

  // ---------------------------------------------------------------------
  // Digits.

  function DigitChar(d: nat): (c: char)
    requires d < 16
  {
    if d < 10 then '0' + d as char else 'a' + (d - 10) as char
  }

  predicate IsHexDigit(c: char) {
    ('0' <= c <= '9') || ('a' <= c <= 'f')
  }

  /** The value of a digit character: the inverse of `DigitChar`. */
  function DigitValue(c: char): (d: nat)
    requires IsHexDigit(c)
    ensures d < 16 && DigitChar(d) == c
  {
    if '0' <= c <= '9' then (c - '0') as nat else (c - 'a') as nat + 10
  }

  function Pow(base: nat, n: nat): (p: nat)
    requires base >= 1
    ensures p >= 1
  {
    if n == 0 then 1 else base * Pow(base, n - 1)
  }

  // ---------------------------------------------------------------------
  // Decimal, as `%u` and `%lu` print an unsigned value.

  /** The shortest decimal numeral of `n`, most significant digit first. */
  function Decimal(n: nat): (s: string)
    ensures 1 <= |s|
    ensures forall i :: 0 <= i < |s| ==> '0' <= s[i] <= '9'
    ensures |s| > 1 ==> s[0] != '0'
  {
    if n < 10 then [DigitChar(n)] else Decimal(n / 10) + [DigitChar(n % 10)]
  }

  /** The value of a numeral in base `b`, most significant digit first. */
  function ParseDigits(s: string, b: nat): nat
    requires forall i :: 0 <= i < |s| ==> IsHexDigit(s[i])
  {
    if s == [] then 0 else ParseDigits(s[..|s| - 1], b) * b + DigitValue(s[|s| - 1])
  }

  /** Reading the decimal numeral back gives the number. */
  lemma {:induction false} DecimalRoundTrip(n: nat)
    ensures ParseDigits(Decimal(n), 10) == n
  {
    var s := Decimal(n);
    if n >= 10 {
      DecimalRoundTrip(n / 10);
      assert s[..|s| - 1] == Decimal(n / 10);
    }
  }

  /** A numeral has at most `k` digits exactly when the number is below 10^k. */
  lemma {:induction false} DecimalLength(n: nat, k: nat)
    requires 1 <= k
    ensures |Decimal(n)| <= k <==> n < Pow(10, k)
  {
    if n >= 10 {
      if k > 1 {
        DecimalLength(n / 10, k - 1);
      } else {
        assert |Decimal(n)| == |Decimal(n / 10)| + 1;
      }
    }
  }

  // ---------------------------------------------------------------------
  // Hexadecimal, as `%02x` and `%016lx` print an unsigned value.

  /** The `width` lowest hexadecimal digits of `n`, lowercase, zero-padded. */
  function HexDigits(n: nat, width: nat): (s: string)
    ensures |s| == width
    ensures forall i :: 0 <= i < |s| ==> IsHexDigit(s[i])
  {
    if width == 0 then [] else HexDigits(n / 16, width - 1) + [DigitChar(n % 16)]
  }

  /** Reading `width` hexadecimal digits back gives the number when it fits. */
  lemma {:induction false} HexRoundTrip(n: nat, width: nat)
    requires n < Pow(16, width)
    ensures ParseDigits(HexDigits(n, width), 16) == n
  {
    var s := HexDigits(n, width);
    if width > 0 {
      HexRoundTrip(n / 16, width - 1);
      assert s[..|s| - 1] == HexDigits(n / 16, width - 1);
    }
  }

  // ---------------------------------------------------------------------
  // The text each integer append prints.

  /** What `append_uint8` prints: `0x%02x` when the hex bit is set, else `%u`. */
  function FormatUint8(bits: bv32, v: uint8): (s: string)
    ensures IsHex(bits) <==> |s| >= 2 && s[..2] == "0x"
  {
    if IsHex(bits) then "0x" + HexDigits(v as nat, 2) else Decimal(v as nat)
  }

  /** What `append_uint64` prints: `0x%016lx` when the hex bit is set, else `%lu`. */
  function FormatUint64(bits: bv32, v: uint64): (s: string)
    ensures IsHex(bits) <==> |s| >= 2 && s[..2] == "0x"
  {
    if IsHex(bits) then "0x" + HexDigits(v as nat, 16) else Decimal(v as nat)
  }

  /** Reads back a printed unsigned number: `0x` and hex digits, or decimal digits. */
  function ParseUnsigned(s: string): Option<nat> {
    if |s| >= 2 && s[..2] == "0x" then
      if forall i :: 2 <= i < |s| ==> IsHexDigit(s[i]) then Some(ParseDigits(s[2..], 16)) else None
    else if forall i :: 0 <= i < |s| ==> '0' <= s[i] <= '9' then Some(ParseDigits(s, 10))
    else None
  }

  /** "0x" and `width` hex digits read back as the number when it fits. */
  lemma {:induction false} HexTextReadsBack(n: nat, width: nat)
    requires n < Pow(16, width)
    ensures var s := "0x" + HexDigits(n, width);
      |s| == width + 2 && s[..2] == "0x" && ParseUnsigned(s) == Some(n)
  {
    var s := "0x" + HexDigits(n, width);
    HexRoundTrip(n, width);
    assert s[2..] == HexDigits(n, width);
  }

  /** A decimal numeral reads back as the number. */
  lemma {:induction false} DecimalTextReadsBack(n: nat)
    ensures ParseUnsigned(Decimal(n)) == Some(n)
  {
    DecimalRoundTrip(n);
    assert Decimal(n)[..1] != "0x";
  }

  /** An 8-bit value prints as 1 to 3 decimal digits, or as "0x" and exactly two
      hex digits; either way it reads back as the value, and the mode is chosen
      by the hex bit alone. */
  lemma {:induction false} FormatUint8Spec(bits: bv32, v: uint8)
    ensures var s := FormatUint8(bits, v);
      && (IsHex(bits) ==> |s| == 4 && s[..2] == "0x")
      && (!IsHex(bits) ==> 1 <= |s| <= 3)
      && ParseUnsigned(s) == Some(v as nat)
  {
    if IsHex(bits) {
      HexTextReadsBack(v as nat, 2);
    } else {
      DecimalLength(v as nat, 3);
      DecimalTextReadsBack(v as nat);
    }
  }

  /** A 64-bit value prints as at most 20 decimal digits, or as "0x" and exactly
      16 hex digits (18 characters); either way it reads back as the value. */
  lemma {:induction false} FormatUint64Spec(bits: bv32, v: uint64)
    ensures var s := FormatUint64(bits, v);
      && (IsHex(bits) ==> |s| == 18 && s[..2] == "0x")
      && (!IsHex(bits) ==> 1 <= |s| <= 20)
      && ParseUnsigned(s) == Some(v as nat)
  {
    PowValues();
    if IsHex(bits) {
      HexTextReadsBack(v as nat, 16);
    } else {
      DecimalLength(v as nat, 20);
      DecimalTextReadsBack(v as nat);
    }
  }

  lemma PowValues()
    ensures Pow(16, 16) == 0x1_0000_0000_0000_0000
    ensures Pow(10, 20) == 100000000000000000000
  {
    assert Pow(16, 4) == 0x1_0000;
    assert Pow(16, 8) == 0x1_0000_0000;
    assert Pow(16, 12) == 0x1_0000_0000_0000;
    assert Pow(10, 5) == 100000;
    assert Pow(10, 10) == 10000000000;
    assert Pow(10, 15) == 1000000000000000;
  }

  /** The worked example: ten prints as "0x0a" in hex mode and "10" by default. */
  lemma FormatTenExample()
    ensures FormatUint8(FORMAT_HEX, 10) == "0x0a"
    ensures FormatUint8(FORMAT_DEFAULT, 10) == "10"
  {
  }
}
