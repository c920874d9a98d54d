/** Decimal and hexadecimal text, as Rust's `Display`, `FromStr` and the `hex` crate write and read it. */
module Numerals {
  import opened Wrappers
  import opened Text

  type Byte = n: nat | n < 256

  predicate IsDigit(c: char) { '0' <= c <= '9' }

  predicate AllDigits(s: string) {
    forall i | 0 <= i < |s| :: IsDigit(s[i])
  }

  function Digit(d: nat): (c: char)
    requires d < 10
    ensures IsDigit(c) && c as int - '0' as int == d
  {
    (d + '0' as int) as char
  }

  /** The value of a digit string, most significant digit first. */
  function ValueOf(s: string): nat
    requires AllDigits(s)
  {
    if s == [] then 0
    else ValueOf(s[..|s| - 1]) * 10 + (s[|s| - 1] as int - '0' as int)
  }

  /** Decimal `Display` of an unsigned integer. */
  function Dec(n: nat): (s: string)
    ensures s != [] && AllDigits(s) && ValueOf(s) == n
    ensures n > 0 ==> s[0] != '0'
  {
    if n < 10 then
      assert [Digit(n)][..0] == [];
      [Digit(n)]
    else
      var s := Dec(n / 10) + [Digit(n % 10)];
      assert s[..|s| - 1] == Dec(n / 10);
      s
  }

  lemma DecInjective(m: nat, n: nat)
    requires Dec(m) == Dec(n)
    ensures m == n
  {
    assert ValueOf(Dec(m)) == m && ValueOf(Dec(n)) == n;
  }

  function Pow10(k: nat): nat {
    if k == 0 then 1 else 10 * Pow10(k - 1)
  }

  lemma {:induction false} DecLength(n: nat, k: nat)
    requires k >= 1 && n < Pow10(k)
    ensures |Dec(n)| <= k
  {
    if n >= 10 {
      assert Pow10(k) == 10 * Pow10(k - 1);
      assert k > 1 by { assert Pow10(0) == 1; }
      DecLength(n / 10, k - 1);
    }
  }

  /** `"{:02}"` */
  function Pad2(n: nat): (s: string)
    ensures s != [] && AllDigits(s) && ValueOf(s) == n
  {
    if n < 10 then
      assert ("0" + Dec(n))[..1] == "0" && "0"[..0] == [] && ValueOf("0") == 0;
      "0" + Dec(n)
    else Dec(n)
  }

  /** `str::parse` for an unsigned type: an optional plus sign, then digits, at most `max`. */
  function ParseUnsigned(s: string, max: nat): (r: Option<nat>)
    ensures r.Some? ==> r.value <= max
  {
    var d := if s != [] && s[0] == '+' then s[1..] else s;
    if d == [] || !AllDigits(d) || ValueOf(d) > max then None else Some(ValueOf(d))
  }

  lemma ParseUnsignedDigits(s: string, max: nat)
    requires s != [] && AllDigits(s) && ValueOf(s) <= max
    ensures ParseUnsigned(s, max) == Some(ValueOf(s))
  {
    assert IsDigit(s[0]);
  }

  const I64_MIN: int := -0x8000_0000_0000_0000
  const I64_MAX: int := 0x7FFF_FFFF_FFFF_FFFF

  type I64 = n: int | -0x8000_0000_0000_0000 <= n <= 0x7FFF_FFFF_FFFF_FFFF

  /** The `i64` that a sum or difference of two `i64` becomes in a build without overflow checks. */
  function Wrap64(n: int): I64
    requires 2 * I64_MIN <= n <= 2 * I64_MAX + 1
  {
    if n > I64_MAX then n - 0x1_0000_0000_0000_0000
    else if n < I64_MIN then n + 0x1_0000_0000_0000_0000
    else n
  }

  /** Decimal `Display` of a signed integer. */
  function DecInt(n: int): string {
    if n < 0 then "-" + Dec(-n) else Dec(n)
  }

  /** `str::parse::<i64>`: an optional sign, then digits, within range. */
  function ParseI64(s: string): Option<I64> {
    var negative := s != [] && s[0] == '-';
    var d := if s != [] && (s[0] == '+' || s[0] == '-') then s[1..] else s;
    if d == [] || !AllDigits(d) then None
    else
      var n := if negative then 0 - ValueOf(d) else ValueOf(d) as int;
      if I64_MIN <= n <= I64_MAX then Some(n) else None
  }

  /** Parsing inverts printing, and every `i64` prints within 20 characters. */
  lemma ParseI64OfDecInt(n: I64)
    ensures ParseI64(DecInt(n)) == Some(n)
    ensures |DecInt(n)| <= 20
    ensures Free(DecInt(n), {'.', ':'})
  {
    if n < 0 {
      ParseNegative(n);
    } else {
      DecWidth(n);
      assert IsDigit(Dec(n)[0]);
    }
  }

  lemma ParseNegative(n: I64)
    requires n < 0
    ensures ParseI64("-" + Dec((n as int) * -1)) == Some(n)
    ensures |DecInt(n)| <= 20 && Free(DecInt(n), {'.', ':'})
  {
    var m: nat := (n as int) * -1;
    DecWidth(m);
    assert ("-" + Dec(m))[1..] == Dec(m);
  }

  lemma DecWidth(m: nat)
    requires m <= 0x8000_0000_0000_0000
    ensures |Dec(m)| <= 19
    ensures Free(Dec(m), {'.', ':'})
  {
    Pow10Nineteen();
    DecLength(m, 19);
  }

  lemma Pow10Nineteen()
    ensures Pow10(19) == 10_000_000_000_000_000_000
  {
    assert Pow10(4) == 10_000;
    assert Pow10(8) == 100_000_000;
    assert Pow10(12) == 1_000_000_000_000;
    assert Pow10(16) == 10_000_000_000_000_000;
  }

  lemma DecIntInjective(m: I64, n: I64)
    requires DecInt(m) == DecInt(n)
    ensures m == n
  {
    ParseI64OfDecInt(m);
    ParseI64OfDecInt(n);
  }

  // Hexadecimal

  function HexDigit(d: nat): (c: char)
    requires d < 16
    ensures IsDigit(c) || 'a' <= c <= 'f'
  {
    if d < 10 then (d + '0' as int) as char else (d - 10 + 'a' as int) as char
  }

  /** A hexadecimal digit of either case. */
  function HexValue(c: char): (r: Option<nat>)
    ensures r.Some? ==> r.value < 16
  {
    if IsDigit(c) then Some(c as int - '0' as int)
    else if 'a' <= c <= 'f' then Some(c as int - 'a' as int + 10)
    else if 'A' <= c <= 'F' then Some(c as int - 'A' as int + 10)
    else None
  }

  /** `hex::encode` */
  function Hex(b: seq<Byte>): (s: string)
    ensures |s| == 2 * |b|
    ensures forall i | 0 <= i < |s| :: IsDigit(s[i]) || 'a' <= s[i] <= 'f'
  {
    if b == [] then [] else [HexDigit(b[0] / 16), HexDigit(b[0] % 16)] + Hex(b[1..])
  }

  /** `hex::decode` */
  function Unhex(s: string): (r: Option<seq<Byte>>)
    ensures r.Some? ==> |s| == 2 * |r.value|
  {
    if s == [] then Some([])
    else if |s| == 1 || HexValue(s[0]).None? || HexValue(s[1]).None? || Unhex(s[2..]).None? then None
    else Some([16 * HexValue(s[0]).value + HexValue(s[1]).value] + Unhex(s[2..]).value)
  }

  /** Decoding succeeds with `b` exactly on the texts that are `Hex(b)` up to letter case. */
  lemma UnhexExactly(s: string, b: seq<Byte>)
    ensures Unhex(s) == Some(b) <==> Lower(s) == Hex(b)
  {
    if Unhex(s) == Some(b) {
      UnhexThenLower(s, b);
    }
    if Lower(s) == Hex(b) {
      LowerThenUnhex(s, b);
    }
  }

  lemma LowerTwo(s: string)
    requires |s| >= 2
    ensures Lower(s) == [LowerChar(s[0]), LowerChar(s[1])] + Lower(s[2..])
  {
  }

  lemma {:induction false} UnhexThenLower(s: string, b: seq<Byte>)
    requires Unhex(s) == Some(b)
    ensures Lower(s) == Hex(b)
  {
    if s != [] {
      var h, l := HexValue(s[0]).value, HexValue(s[1]).value;
      assert b[0] == 16 * h + l && b[1..] == Unhex(s[2..]).value;
      UnhexThenLower(s[2..], b[1..]);
      HexDigitExactly(s[0], h);
      HexDigitExactly(s[1], l);
      assert b[0] / 16 == h && b[0] % 16 == l;
      LowerTwo(s);
    }
  }

  lemma {:induction false} LowerThenUnhex(s: string, b: seq<Byte>)
    requires Lower(s) == Hex(b)
    ensures Unhex(s) == Some(b)
  {
    if b != [] {
      LowerTwo(s);
      assert Hex(b) == [HexDigit(b[0] / 16), HexDigit(b[0] % 16)] + Hex(b[1..]);
      assert LowerChar(s[0]) == Hex(b)[0] && LowerChar(s[1]) == Hex(b)[1];
      assert Lower(s[2..]) == Lower(s)[2..] == Hex(b)[2..] == Hex(b[1..]);
      LowerThenUnhex(s[2..], b[1..]);
      HexDigitExactly(s[0], b[0] / 16);
      HexDigitExactly(s[1], b[0] % 16);
      assert b == [b[0]] + b[1..];
    }
  }

  lemma HexDigitExactly(c: char, d: nat)
    requires d < 16
    ensures HexValue(c) == Some(d) <==> LowerChar(c) == HexDigit(d)
  {
  }

  lemma {:induction false} LowerOfHex(b: seq<Byte>)
    ensures Lower(Hex(b)) == Hex(b)
  {
    var s := Hex(b);
    assert forall i | 0 <= i < |s| :: LowerChar(s[i]) == s[i];
  }

  lemma HexInjective(a: seq<Byte>, b: seq<Byte>)
    requires Hex(a) == Hex(b)
    ensures a == b
  {
    LowerOfHex(a);
    UnhexExactly(Hex(a), a);
    UnhexExactly(Hex(a), b);
  }
}
