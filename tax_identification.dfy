/** The display and text forms of the German tax identification number
    (Steuerliche Identifikationsnummer) of package `taxidentificationnumber`:
    a `uint64` shown either in plain decimal or, when it has eleven digits,
    grouped as "XX XXX XXX XXX". */
module TaxIdentification {
  import opened GoBytes

  type TaxIdentificationNumber = uint64

  /** The smallest and largest eleven-digit numbers: the range `String`
      groups. */
  const SmallestGrouped: int := 10_000_000_000
  const LargestGrouped: int := 99_999_999_999

  /** The number a string of decimal digits spells. */
  function DecimalValue(s: seq<uint8>): nat
    requires AllDigits(s)
  {
    if s == [] then 0 else 10 * DecimalValue(s[..|s| - 1]) + (s[|s| - 1] - Digit0)
  }

  /** A canonical decimal numeral: at least one digit, all digits, and no
      leading zero unless it is "0" itself. */
  predicate IsCanonicalDecimal(s: seq<uint8>) {
    |s| >= 1 && AllDigits(s) && (s[0] == Digit0 ==> |s| == 1)
  }

  /** `strconv.FormatUint(n, 10)`: the canonical decimal numeral of `n`. */
  function FormatDecimal(n: nat): (r: seq<uint8>)
    ensures IsCanonicalDecimal(r)
    ensures DecimalValue(r) == n
    decreases n
  {
    if n < 10 then [DigitByte(n)]
    else
      var prefix := FormatDecimal(n / 10);
      var r := prefix + [DigitByte(n % 10)];
      assert r[..|r| - 1] == prefix;
      r
  }

  /** A canonical numeral with a non-zero leading digit spells a positive
      number. */
  lemma {:induction false} LeadingDigitPositive(s: seq<uint8>)
    requires IsCanonicalDecimal(s) && s[0] != Digit0
    ensures DecimalValue(s) >= 1
  {
    if |s| > 1 {
      var prefix := s[..|s| - 1];
      assert prefix[0] == s[0];
      LeadingDigitPositive(prefix);
    }
  }

  /** `FormatDecimal` is the only canonical numeral of its number: formatting
      the number a canonical numeral spells gives that numeral back. */
  lemma {:induction false} FormatDecimalOfValue(s: seq<uint8>)
    requires IsCanonicalDecimal(s)
    ensures FormatDecimal(DecimalValue(s)) == s
  {
    var n := DecimalValue(s);
    if |s| == 1 {
      assert s[..0] == [];
      assert s == [DigitByte(n)];
    } else {
      var prefix := s[..|s| - 1];
      assert prefix[0] == s[0];
      LeadingDigitPositive(prefix);
      FormatDecimalOfValue(prefix);
      assert n / 10 == DecimalValue(prefix) && n % 10 == s[|s| - 1] - Digit0;
      assert s == prefix + [s[|s| - 1]];
    }
  }

  /** A number in [10^(k-1), 10^k) has `k` decimal digits. */
  lemma {:induction false} FormatDecimalLength(n: nat, k: nat)
    requires k >= 1 && Pow10(k - 1) <= n < Pow10(k)
    ensures |FormatDecimal(n)| == k
  {
    if n >= 10 {
      assert k >= 2;
      assert Pow10(k - 1) == 10 * Pow10(k - 2);
      FormatDecimalLength(n / 10, k - 1);
    }
  }

  /** `Compact`: the number in plain decimal. */
  function Compact(id: TaxIdentificationNumber): (r: seq<uint8>)
    ensures IsCanonicalDecimal(r) && DecimalValue(r) == id
  {
    FormatDecimal(id)
  }

  /** An eleven-digit number has an eleven-byte compact form. */
  lemma CompactLengthEleven(id: TaxIdentificationNumber)
    requires SmallestGrouped <= id <= LargestGrouped
    ensures |Compact(id)| == 11
  {
    assert Pow10(10) == SmallestGrouped && Pow10(11) == LargestGrouped + 1;
    FormatDecimalLength(id, 11);
  }

  /** `String`: an eleven-digit number grouped as "XX XXX XXX XXX", with
      single spaces at positions 2, 6 and 10 and digits everywhere else;
      any other number in plain decimal. */
  function String(id: TaxIdentificationNumber): (r: seq<uint8>)
    ensures (id < SmallestGrouped || id > LargestGrouped) ==> r == Compact(id)
    ensures SmallestGrouped <= id <= LargestGrouped ==>
      && |r| == 14
      && r[2] == Space && r[6] == Space && r[10] == Space
      && forall i :: 0 <= i < 14 && i != 2 && i != 6 && i != 10 ==> IsDigit(r[i])
  {
    if id < SmallestGrouped || id > LargestGrouped then
      FormatDecimal(id)
    else
      var s := FormatDecimal(id);
      CompactLengthEleven(id);
      s[..2] + [Space] + s[2..5] + [Space] + s[5..8] + [Space] + s[8..]
  }

  /** Deleting the spaces from `String` gives `Compact`, for every number. */
  lemma StringWithoutSpacesIsCompact(id: TaxIdentificationNumber)
    ensures RemoveAll(String(id), Space) == Compact(id)
  {
    var s := Compact(id);
    if SmallestGrouped <= id <= LargestGrouped {
      CompactLengthEleven(id);
      var a, b, c, d := s[..2], s[2..5], s[5..8], s[8..];
      assert Space !in a && Space !in b && Space !in c && Space !in d;
      var ab := a + [Space] + b;
      var abc := ab + [Space] + c;
      assert String(id) == abc + [Space] + d;
      calc {
        RemoveAll(abc + [Space] + d, Space);
        { RemoveAllAround(abc, Space, d); }
        RemoveAll(abc, Space) + d;
        { RemoveAllAround(ab, Space, c); }
        RemoveAll(ab, Space) + c + d;
        { RemoveAllAround(a, Space, b); }
        a + b + c + d;
        { assert a + b + c + d == s; }
        s;
      }
    } else {
      assert Space !in s;
    }
  }

  /** The error a text marshaller may report (Go's `error`). */
  datatype MarshalError = MarshalError

  /** `MarshalText`: the bytes of `Compact`, and never an error. */
  function MarshalText(id: TaxIdentificationNumber): (r: (seq<uint8>, Option<MarshalError>))
    ensures r.1 == None
    ensures IsCanonicalDecimal(r.0) && DecimalValue(r.0) == id
  {
    (Compact(id), None)
  }
}
