/** Go's fixed-width integers and byte strings, as both packages use them.
    A Go `string` is modelled as the sequence of its bytes, which is what
    `len(s)` and `s[i]` see. */
module GoBytes {

  /** Go's `uint8` (and `byte`). */
  type uint8 = x: int | 0 <= x < 0x100

  /** Go's `uint64`. */
  type uint64 = x: int | 0 <= x < 0x1_0000_0000_0000_0000

  /** Go's `rune` (a signed 32-bit integer). */
  type rune = x: int | -0x8000_0000 <= x < 0x8000_0000

  datatype Option<T> = None | Some(value: T)

  /** The low eight bits of `x`: the result of Go's `uint8` arithmetic and of a
      conversion `uint8(x)` from a wider integer type. */
  function Wrap8(x: int): (r: uint8)
    ensures 0 <= x < 0x100 ==> r == x
    ensures (x - r) % 0x100 == 0
  {
    x % 0x100
  }

  const Space: uint8 := ' ' as int
  const Slash: uint8 := '/' as int
  const Digit0: uint8 := '0' as int
  const Digit9: uint8 := '9' as int
  const UpperA: uint8 := 'A' as int
  const UpperZ: uint8 := 'Z' as int
  const LowerA: uint8 := 'a' as int
  const LowerZ: uint8 := 'z' as int

  predicate IsDigit(b: uint8) {
    Digit0 <= b <= Digit9
  }

  predicate AllDigits(s: seq<uint8>) {
    forall i :: 0 <= i < |s| ==> IsDigit(s[i])
  }

  /** The ASCII byte that spells the decimal digit `d`. */
  function DigitByte(d: int): (b: uint8)
    requires 0 <= d <= 9
    ensures IsDigit(b) && b - Digit0 == d
  {
    Digit0 + d
  }

  function Pow10(k: nat): (r: nat)
    ensures r >= 1
  {
    if k == 0 then 1 else 10 * Pow10(k - 1)
  }

  /** `strings.ReplaceAll(s, string(b), "")` for a one-byte pattern `b`:
      `s` with every occurrence of `b` deleted, the other bytes kept in order. */
  function RemoveAll(s: seq<uint8>, b: uint8): (r: seq<uint8>)
    ensures b !in r
    ensures |r| <= |s|
    ensures forall x :: x in r ==> x in s
    ensures b !in s ==> r == s
  {
    if s == [] then []
    else if s[0] == b then RemoveAll(s[1..], b)
    else [s[0]] + RemoveAll(s[1..], b)
  }

  /** `RemoveAll` keeps every other byte as often as it occurs. */
  lemma {:induction false} RemoveAllCounts(s: seq<uint8>, b: uint8)
    ensures multiset(RemoveAll(s, b)) == multiset(s)[b := 0]
  {
    if s != [] {
      assert s == [s[0]] + s[1..];
      RemoveAllCounts(s[1..], b);
    }
  }

  /** Deleting `b` around one occurrence of `b`. */
  lemma RemoveAllAround(x: seq<uint8>, b: uint8, y: seq<uint8>)
    ensures RemoveAll(x + [b] + y, b) == RemoveAll(x, b) + RemoveAll(y, b)
  {
    RemoveAllConcat(x + [b], y, b);
    RemoveAllConcat(x, [b], b);
    assert RemoveAll([b], b) == [] by {
      assert [b][1..] == [];
    }
  }

  /** Deleting a byte commutes with concatenation, so it can be done piecewise. */
  lemma {:induction false} RemoveAllConcat(s: seq<uint8>, t: seq<uint8>, b: uint8)
    ensures RemoveAll(s + t, b) == RemoveAll(s, b) + RemoveAll(t, b)
  {
    if s == [] {
      assert s + t == t;
    } else {
      assert (s + t)[1..] == s[1..] + t;
      RemoveAllConcat(s[1..], t, b);
    }
  }
}
