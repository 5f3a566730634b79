/** Small shared vocabulary: optional and failing results, and the parts of
    Java's 32-bit integer arithmetic and text conversion the model needs. */
module JavaBase {

  datatype Option<+T> = None | Some(value: T)

  datatype Result<+T, +E> = Ok(value: T) | Err(error: E)

  /** Minecraft's six block faces (`EnumFacing`). */
  datatype Facing = Down | Up | North | South | West | East

  const TWO_32: int := 0x1_0000_0000
  const TWO_31: int := 0x8000_0000

  /** A Java `int` read as its unsigned 32-bit pattern (so -1 is 0xFFFF_FFFF). */
  type u32 = x: int | 0 <= x < 0x1_0000_0000

  /** Java `int` values. */
  predicate IsInt32(x: int) {
    -TWO_31 <= x < TWO_31
  }

  /** Two's-complement wrap-around of an arbitrary integer into the `int` range. */
  function Wrap32(x: int): (r: int)
    ensures IsInt32(r)
    ensures (r - x) % TWO_32 == 0
  {
    (x + TWO_31) % TWO_32 - TWO_31
  }

  /** 256 to the power k, for the four byte lanes of an `int`. */
  function LanePow(k: nat): (p: nat)
    requires k < 4
    ensures p > 0
  {
    if k == 0 then 1 else if k == 1 then 0x100 else if k == 2 then 0x1_0000 else 0x100_0000
  }

  /** `(c >> (8 * k)) & 0xFF`: byte lane k of a 32-bit pattern. */
  function ByteOf(c: u32, k: nat): (b: int)
    requires k < 4
    ensures 0 <= b < 256
  {
    (c / LanePow(k)) % 256
  }

  /** `c & 0xFFFFFF`: the colour bits of an ARGB pixel, without alpha. */
  function Low24(c: u32): (r: int)
    ensures 0 <= r < 0x100_0000
  {
    c % 0x100_0000
  }

  /** The pattern whose four byte lanes are b0 (lowest) to b3. */
  function FromBytes(b0: int, b1: int, b2: int, b3: int): (c: u32)
    requires 0 <= b0 < 256 && 0 <= b1 < 256 && 0 <= b2 < 256 && 0 <= b3 < 256
  {
    b0 + 0x100 * b1 + 0x1_0000 * b2 + 0x100_0000 * b3
  }

  lemma {:induction false} FromBytesLanes(b0: int, b1: int, b2: int, b3: int)
    requires 0 <= b0 < 256 && 0 <= b1 < 256 && 0 <= b2 < 256 && 0 <= b3 < 256
    ensures ByteOf(FromBytes(b0, b1, b2, b3), 0) == b0
    ensures ByteOf(FromBytes(b0, b1, b2, b3), 1) == b1
    ensures ByteOf(FromBytes(b0, b1, b2, b3), 2) == b2
    ensures ByteOf(FromBytes(b0, b1, b2, b3), 3) == b3
  {
    var c := FromBytes(b0, b1, b2, b3);
    assert c / 0x100 == b1 + 0x100 * b2 + 0x1_0000 * b3;
    assert c / 0x1_0000 == b2 + 0x100 * b3;
    assert c / 0x100_0000 == b3;
  }

  /** A pattern is determined by its four byte lanes. */
  lemma {:induction false} LanesDetermine(c: u32)
    ensures c == FromBytes(ByteOf(c, 0), ByteOf(c, 1), ByteOf(c, 2), ByteOf(c, 3))
  {
    var q1 := c / 0x100;
    var q2 := c / 0x1_0000;
    var q3 := c / 0x100_0000;
    assert q2 == q1 / 0x100;
    assert q3 == q2 / 0x100;
    assert c == c % 256 + 0x100 * q1;
    assert q1 == q1 % 256 + 0x100 * q2;
    assert q2 == q2 % 256 + 0x100 * q3;
    assert q3 < 256;
  }

  /** Integer division by a positive divisor brackets the quotient. */
  lemma DivBrackets(s: int, n: int)
    requires n > 0 && s >= 0
    ensures (s / n) * n <= s < (s / n + 1) * n
  {
  }

  lemma DivBelow(s: int, n: int, bound: int)
    requires n > 0 && 0 <= s <= bound * n
    ensures s / n <= bound
  {
  }

  lemma MulAtLeast(n: int, a: int)
    requires n > 0 && a >= 1
    ensures n * a >= n
  {
  }

  lemma MulSucc(n: int, b: int)
    ensures n * b + b == (n + 1) * b
  {
  }

  lemma MulLe(a: int, b: int, n: int)
    requires a <= b && n >= 0
    ensures a * n <= b * n
  {
    assert b * n - a * n == (b - a) * n;
  }

  lemma MulLt(a: int, b: int, n: int)
    requires a < b && n > 0
    ensures a * n < b * n
  {
    assert b * n - a * n == (b - a) * n;
  }

  /** A quotient of something below `m * n` by n is below m. */
  lemma QuotientBelow(x: int, n: int, m: int)
    requires n > 0 && 0 <= x < m * n
    ensures 0 <= x / n < m
  {
    var q := x / n;
    DivLower(x, n);
    if q >= m {
      MulLe(m, q, n);
      assert false;
    }
  }

  lemma DivLower(x: int, n: int)
    requires n > 0 && 0 <= x
    ensures 0 <= x / n && (x / n) * n <= x
  {
  }

  /** Row j of a grid `width` cells wide, with `height` rows, starts at
      `j * width` and ends inside the grid. */
  lemma RowBound(j: int, width: int, height: int)
    requires 0 <= j < height && width >= 0
    ensures 0 <= j * width && j * width + width <= height * width
  {
    MulLe(0, j, width);
    MulLe(j + 1, height, width);
    MulSucc(j, width);
  }

  /** Dividing a multiple of n by n gives the factor back. */
  lemma DivExact(b: int, n: int)
    requires n > 0
    ensures n * b / n == b
  {
    var q := n * b / n;
    var r := n * b % n;
    assert n * b == n * q + r;
    assert n * (b - q) == r;
    if b - q >= 1 {
      MulAtLeast(n, b - q);
    } else if b - q <= -1 {
      MulAtLeast(n, q - b);
    }
  }

  /** Decimal text of a natural number, as Java's string concatenation writes an `int`. */
  function NatToString(n: nat): (s: string)
    ensures |s| > 0
    ensures forall k :: 0 <= k < |s| ==> '0' <= s[k] <= '9'
    decreases n
  {
    if n < 10 then [DigitChar(n)] else NatToString(n / 10) + [DigitChar(n % 10)]
  }

  function DigitChar(d: nat): (c: char)
    requires d < 10
    ensures '0' <= c <= '9'
  {
    ['0', '1', '2', '3', '4', '5', '6', '7', '8', '9'][d]
  }

  function DecimalValue(s: string): (v: nat)
    requires forall k :: 0 <= k < |s| ==> '0' <= s[k] <= '9'
  {
    if s == [] then 0 else 10 * DecimalValue(s[..|s| - 1]) + (s[|s| - 1] as int - '0' as int)
  }

  /** Reading the decimal text back gives the number: the text determines it. */
  lemma {:induction false} NatToStringRoundTrip(n: nat)
    ensures DecimalValue(NatToString(n)) == n
    decreases n
  {
    if n >= 10 {
      NatToStringRoundTrip(n / 10);
      var s := NatToString(n);
      assert s[..|s| - 1] == NatToString(n / 10);
    }
  }

  lemma NatToStringInjective(m: nat, n: nat)
    requires NatToString(m) == NatToString(n)
    ensures m == n
  {
    NatToStringRoundTrip(m);
    NatToStringRoundTrip(n);
  }

  /** Value of one hexadecimal digit as `Character.digit(ch, 16)` gives it for ASCII. */
  function HexDigit(ch: char): (d: Option<nat>)
    ensures d.Some? ==> d.value < 16
  {
    if '0' <= ch <= '9' then Some(ch as int - '0' as int)
    else if 'a' <= ch <= 'f' then Some(ch as int - 'a' as int + 10)
    else if 'A' <= ch <= 'F' then Some(ch as int - 'A' as int + 10)
    else None
  }

  function HexValue(s: string): (v: Option<nat>)
    ensures v.Some? ==> v.value < Pow16(|s|)
  {
    if s == [] then Some(0)
    else match (HexValue(s[..|s| - 1]), HexDigit(s[|s| - 1]))
      case (Some(hi), Some(lo)) => Some(16 * hi + lo)
      case _ => None
  }

  function Pow16(n: nat): (p: nat)
    ensures p > 0
  {
    if n == 0 then 1 else 16 * Pow16(n - 1)
  }

  /** `Integer.parseInt(s, 16)`: an optional sign, at least one hex digit, and a
      value in the `int` range; anything else is a NumberFormatException (None). */
  function ParseHexInt(s: string): (r: Option<int>)
    ensures r.Some? ==> IsInt32(r.value)
  {
    if s == [] then None
    else
      var negative := s[0] == '-';
      var digits := if s[0] == '-' || s[0] == '+' then s[1..] else s;
      if digits == [] then None
      else match HexValue(digits)
        case None => None
        case Some(v) =>
          var r: int := if negative then 0 - (v as int) else v as int;
          if IsInt32(r) then Some(r) else None
  }

  /** The lower-case hexadecimal digit of a value below 16. */
  function HexChar(d: nat): (c: char)
    requires d < 16
  {
    if d < 10 then ('0' as int + d) as char else ('a' as int + d - 10) as char
  }

  /** Reading a digit back gives its value. */
  lemma HexDigitOfHexChar(d: nat)
    requires d < 16
    ensures HexDigit(HexChar(d)) == Some(d)
  {
  }

  /** Lower-case hexadecimal text, as `Integer.toHexString` writes a non-negative value. */
  function NatToHex(n: nat): (s: string)
    ensures |s| > 0
    decreases n
  {
    if n < 16 then [HexChar(n)] else NatToHex(n / 16) + [HexChar(n % 16)]
  }

  lemma {:induction false} HexValueOfNatToHex(n: nat)
    ensures HexValue(NatToHex(n)) == Some(n)
    decreases n
  {
    if n >= 16 {
      HexValueOfNatToHex(n / 16);
      var s := NatToHex(n);
      assert s[..|s| - 1] == NatToHex(n / 16);
      HexDigitOfHexChar(n % 16);
    } else {
      var s := NatToHex(n);
      assert s[..0] == [];
      HexDigitOfHexChar(n);
    }
  }

  /** Parsing the hex text of any non-negative `int` colour gives the colour back. */
  lemma ParseHexRoundTrip(n: nat)
    requires n < TWO_31
    ensures ParseHexInt(NatToHex(n)) == Some(n)
  {
    HexValueOfNatToHex(n);
    var s := NatToHex(n);
    assert s[0] != '-' && s[0] != '+' by {
      HexFirstChar(n);
    }
  }

  lemma {:induction false} HexFirstChar(n: nat)
    ensures NatToHex(n)[0] in "0123456789abcdef"
    decreases n
  {
    if n >= 16 {
      HexFirstChar(n / 16);
    }
  }
}
