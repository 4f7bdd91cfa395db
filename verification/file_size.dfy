/**
The converter's human-readable file sizes: the raw byte count below 1 KB,
otherwise the size divided by the largest of KB, MB, GB (powers of 1024)
that it reaches. The two-decimal rendering of that quotient is floating
point and is kept here as the exact quotient.
*/
module FileSize {

  type u64 = x: int | 0 <= x < 0x1_0000_0000_0000_0000

  const KIB: nat := 1024
  const MIB: nat := KIB * 1024
  const GIB: nat := MIB * 1024

  datatype SizeUnit = Bytes | Kilobytes | Megabytes | Gigabytes

  /** Bytes per unit. */
  function Factor(u: SizeUnit): nat {
    match u
    case Bytes => 1
    case Kilobytes => KIB
    case Megabytes => MIB
    case Gigabytes => GIB
  }

  function Suffix(u: SizeUnit): string {
    match u
    case Bytes => "B"
    case Kilobytes => "KB"
    case Megabytes => "MB"
    case Gigabytes => "GB"
  }

  /** The next unit up. */
  function Larger(u: SizeUnit): SizeUnit
    requires u != Gigabytes
  {
    match u
    case Bytes => Kilobytes
    case Kilobytes => Megabytes
    case Megabytes => Gigabytes
  }

  /** The unit a size is shown in: the largest one whose factor the size reaches. */
  function SelectUnit(size: u64): (u: SizeUnit)
    ensures u == Bytes || Factor(u) <= size
    ensures u != Gigabytes ==> size < Factor(Larger(u))
  {
    if size >= GIB then Gigabytes
    else if size >= MIB then Megabytes
    else if size >= KIB then Kilobytes
    else Bytes
  }

  /** The thresholds: B below 1024, GB from 1024^3, MB from 1024^2, KB in between; exactly one applies. */
  lemma UnitThresholds(size: u64)
    ensures SelectUnit(size) == Bytes <==> size < 1024
    ensures SelectUnit(size) == Gigabytes <==> size >= 1024 * 1024 * 1024
    ensures SelectUnit(size) == Megabytes <==> 1024 * 1024 <= size < 1024 * 1024 * 1024
    ensures SelectUnit(size) == Kilobytes <==> 1024 <= size < 1024 * 1024
  {
  }

  /** The number shown: the byte count itself, or the quotient by the unit. */
  datatype Amount = Whole(count: nat) | Scaled(quotient: real)

  datatype SizeText = SizeText(amount: Amount, unit: SizeUnit)

  /** The size as shown: whole bytes below 1 KB, otherwise a quotient of at least one unit. */
  function FormatFileSize(size: u64): (t: SizeText)
    ensures t.unit == SelectUnit(size)
    ensures t.unit == Bytes <==> t.amount.Whole?
    ensures t.amount.Whole? ==> t.amount.count == size
    ensures t.amount.Scaled? ==> t.amount.quotient * Factor(t.unit) as real == size as real
    ensures t.amount.Scaled? ==> 1.0 <= t.amount.quotient
    ensures t.amount.Scaled? && t.unit != Gigabytes ==> t.amount.quotient < 1024.0
  {
    var u := SelectUnit(size);
    if u == Bytes then SizeText(Whole(size), Bytes)
    else SizeText(Scaled(size as real / Factor(u) as real), u)
  }

  function DigitChar(d: nat): (c: char)
    requires d < 10
    ensures '0' <= c <= '9'
  {
    ('0' as int + d) as char
  }

  function DigitValue(c: char): nat {
    if '0' <= c <= '9' then c as int - '0' as int else 0
  }

  /** Rust's `{}` rendering of an unsigned integer: decimal digits without leading zeros. */
  function DecimalString(n: nat): (s: string)
    ensures |s| > 0
    ensures forall k :: 0 <= k < |s| ==> '0' <= s[k] <= '9'
    ensures s[0] == '0' ==> n == 0
  {
    if n < 10 then [DigitChar(n)]
    else DecimalString(n / 10) + [DigitChar(n % 10)]
  }

  /** The value of a string of decimal digits. */
  function ParseDecimal(s: string): nat
    decreases |s|
  {
    if s == [] then 0
    else ParseDecimal(s[..|s| - 1]) * 10 + DigitValue(s[|s| - 1])
  }

  /** The decimal rendering reads back as the number. */
  lemma {:induction false} ParseDecimalString(n: nat)
    ensures ParseDecimal(DecimalString(n)) == n
    decreases n
  {
    if n >= 10 {
      var s := DecimalString(n);
      assert s[..|s| - 1] == DecimalString(n / 10);
      ParseDecimalString(n / 10);
    }
  }

  /** The text of a whole-byte size: its decimal count, a space, and the unit suffix. */
  function WholeText(t: SizeText): (s: string)
    requires t.amount.Whole?
  {
    DecimalString(t.amount.count) + " " + Suffix(t.unit)
  }

  /** Below 1 KB the text is the byte count in decimal followed by `" B"`, and reads back as the size. */
  lemma BytesText(size: u64)
    requires size < 1024
    ensures FormatFileSize(size).amount.Whole?
    ensures var s := WholeText(FormatFileSize(size));
      && |s| >= 3
      && s[|s| - 2..] == " B"
      && s[..|s| - 2] == DecimalString(size)
      && (forall k :: 0 <= k < |s| - 2 ==> '0' <= s[k] <= '9')
      && (s[0] == '0' ==> size == 0)
      && ParseDecimal(s[..|s| - 2]) == size
  {
    var s := WholeText(FormatFileSize(size));
    assert s[..|s| - 2] == DecimalString(size);
    ParseDecimalString(size);
  }
}
