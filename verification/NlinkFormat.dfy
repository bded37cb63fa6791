/** The trusted.overlay.nlink xattr: a count kept as a signed difference to the link count of the lower ('L') or
    the upper ('U') inode, written "U%+i" or "L%+i". */
module NlinkFormat {
  import opened Paths

  const BUF_SIZE: nat := 13
  const TWO_31: int := 0x8000_0000
  const TWO_32: int := 0x1_0000_0000

  /** Conversion to int. */
  function AsInt(x: int): (r: int)
    ensures -TWO_31 <= r < TWO_31
    ensures -TWO_31 <= x < TWO_31 ==> r == x
  {
    if x % TWO_32 >= TWO_31 then x % TWO_32 - TWO_32 else x % TWO_32
  }

  function Digit(n: nat): char
    requires n < 10
  {
    ['0', '1', '2', '3', '4', '5', '6', '7', '8', '9'][n]
  }

  function Decimal(n: nat): (s: string)
    ensures s != ""
  {
    if n < 10 then [Digit(n)] else Decimal(n / 10) + [Digit(n % 10)]
  }

  function DigitValue(c: char): Option<nat> {
    if '0' <= c <= '9' then Some((c - '0') as nat) else None
  }

  function ParseDecimal(s: string): Option<nat> {
    if s == "" || DigitValue(s[|s| - 1]).None? then None
    else
      var last := DigitValue(s[|s| - 1]).value;
      if |s| == 1 then Some(last)
      else
        match ParseDecimal(s[..|s| - 1])
        case None => None
        case Some(n) => Some(10 * n + last)
  }

  /** kstrtoint, base 10, of a text that starts with its sign. */
  function ParseInt(s: string): Option<int>
    requires s != "" && (s[0] == '+' || s[0] == '-')
  {
    match ParseDecimal(s[1..])
    case None => None
    case Some(n) =>
      var magnitude: int := n;
      var i := if s[0] == '-' then 0 - magnitude else magnitude;
      if -TWO_31 <= i < TWO_31 then Some(i) else None
  }

  function FormatInt(i: int): string {
    if i < 0 then "-" + Decimal(-i) else "+" + Decimal(i)
  }

  datatype Base = Lower | Upper

  datatype Stored = Stored(base: Base, diff: int)

  function FormatNlink(v: Stored): string {
    [if v.base.Lower? then 'L' else 'U'] + FormatInt(v.diff)
  }

  /** How ovl_get_nlink reads the xattr; none where it gives up. The buffer takes BUF_SIZE - 1 characters. */
  function ParseNlink(buf: string): Option<Stored> {
    if |buf| > BUF_SIZE - 1 || |buf| < 2 || (buf[0] != 'L' && buf[0] != 'U') || (buf[1] != '+' && buf[1] != '-') then None
    else
      match ParseInt(buf[1..])
      case None => None
      case Some(diff) => Some(Stored(if buf[0] == 'L' then Lower else Upper, diff))
  }

  function Pow10(k: nat): nat {
    if k == 0 then 1 else 10 * Pow10(k - 1)
  }

  lemma {:induction false} DecimalLength(n: nat, k: nat)
    requires 0 < k && n < Pow10(k)
    ensures |Decimal(n)| <= k
  {
    if n >= 10 {
      assert n / 10 < Pow10(k - 1);
      DecimalLength(n / 10, k - 1);
    }
  }

  lemma {:induction false} DecimalRoundTrip(n: nat)
    ensures ParseDecimal(Decimal(n)) == Some(n)
  {
    if n >= 10 {
      DecimalRoundTrip(n / 10);
      var s := Decimal(n);
      assert s[..|s| - 1] == Decimal(n / 10);
    }
  }

  lemma IntRoundTrip(i: int)
    requires -TWO_31 <= i < TWO_31
    ensures ParseInt(FormatInt(i)) == Some(i)
  {
    var n: nat := if i < 0 then -i else i;
    assert FormatInt(i)[1..] == Decimal(n);
    DecimalRoundTrip(n);
  }

  lemma IntLength(i: int)
    requires -TWO_31 <= i < TWO_31
    ensures 2 <= |FormatInt(i)| <= 11
  {
    assert Pow10(10) == 10_000_000_000 by {
      assert Pow10(4) == 10_000;
      assert Pow10(8) == 100_000_000;
    }
    DecimalLength(if i < 0 then -i else i, 10);
  }

  /** Every int fits the 13 bytes and is read back, with its base. */
  lemma RoundTrip(v: Stored)
    requires -TWO_31 <= v.diff < TWO_31
    ensures |FormatNlink(v)| < BUF_SIZE
    ensures ParseNlink(FormatNlink(v)) == Some(v)
  {
    IntLength(v.diff);
    IntRoundTrip(v.diff);
    assert FormatNlink(v)[1..] == FormatInt(v.diff);
    assert FormatNlink(v)[1] == FormatInt(v.diff)[0];
  }
}
