/** The German pension insurance number (Versicherungsnummer) parser of package
    `pensioninsurancenumber`: twelve bytes once spaces and '/' are removed,
    laid out as area code (2 digits), birth day (2), birth month (2), birth
    year (2), the first letter of the last name, serial number (2) and a check
    digit computed from all the other fields. */
module PensionInsurance {
  import opened GoBytes

  /** The package's sentinel errors, as a closed enumeration. A wrong check
      digit is reported as `ErrCheckDigit`, the same error as a non-digit in
      that position. */
  datatype ParseError =
    | ErrLength
    | ErrAreaCode
    | ErrBirthDay
    | ErrBirthMonth
    | ErrBirthYear
    | ErrLastNameLetter
    | ErrSerialNumber
    | ErrCheckDigit

  /** The parsed number (Go's struct `PensionInsuranceNumber`). */
  datatype PensionInsuranceNumber = PensionInsuranceNumber(
    areaCode: uint8,
    birthDay: uint8,
    birthMonth: uint8,
    birthYear: uint8,
    lastNameLetter: rune,
    serialNumber: uint8,
    checkDigit: uint8)

  /** Go's zero value `PensionInsuranceNumber{}`, returned with every error. */
  const ZeroValue := PensionInsuranceNumber(0, 0, 0, 0, 0, 0, 0)

  /** The table behind `AreaCode.IsValid`: an area code is valid iff it is in
      the set. The table itself is not part of this model. */
  type AreaCodeTable = set<uint8>

  // ---------------------------------------------------------------------------
  // Digits

  /** `parseDigit`: the value of one ASCII decimal digit. */
  function ParseDigit(digit: uint8): (r: (uint8, bool))
    ensures r.1 <==> IsDigit(digit)
    ensures r.1 ==> r.0 <= 9 && DigitByte(r.0) == digit
    ensures !r.1 ==> r.0 == 0
  {
    if digit < Digit0 || digit > Digit9 then (0, false) else (digit - Digit0, true)
  }

  /** `parseOneDigit`: the value of the first byte of `s` as a digit. */
  function ParseOneDigit(s: seq<uint8>): (r: (uint8, bool))
    requires |s| >= 1
    ensures r.1 <==> IsDigit(s[0])
    ensures r.1 ==> r.0 <= 9 && DigitByte(r.0) == s[0]
    ensures !r.1 ==> r.0 == 0
  {
    ParseDigit(s[0])
  }

  /** `parseTwoDigits`: the value of the first two bytes of `s` read as a
      two-digit decimal number; `digit1*10 + digit2` is `uint8` arithmetic. */
  function ParseTwoDigits(s: seq<uint8>): (r: (uint8, bool))
    requires |s| >= 2
    ensures r.1 <==> IsDigit(s[0]) && IsDigit(s[1])
    ensures r.1 ==> r.0 <= 99 && s[0] == DigitByte(r.0 / 10) && s[1] == DigitByte(r.0 % 10)
    ensures r.1 ==> r.0 == 10 * (s[0] - Digit0) + (s[1] - Digit0)
    ensures !r.1 ==> r.0 == 0
  {
    var (digit1, ok1) := ParseDigit(s[0]);
    if !ok1 then (0, false)
    else
      var (digit2, ok2) := ParseDigit(s[1]);
      if !ok2 then (0, false)
      else (Wrap8(Wrap8(digit1 * 10) + digit2), true)
  }

  /** The two ASCII digits that spell `n`, a number below 100. */
  function TwoDigitBytes(n: uint8): (r: seq<uint8>)
    requires n <= 99
    ensures |r| == 2 && AllDigits(r)
  {
    [DigitByte(n / 10), DigitByte(n % 10)]
  }

  /** Reading back the two digits that spell `n` gives `n`. */
  lemma TwoDigitsRoundTrip(n: uint8)
    requires n <= 99
    ensures ParseTwoDigits(TwoDigitBytes(n)) == (n, true)
  {
  }

  /** Spelling out what `ParseTwoDigits` read gives the bytes back. */
  lemma TwoDigitsRoundTripBytes(s: seq<uint8>)
    requires |s| == 2 && ParseTwoDigits(s).1
    ensures TwoDigitBytes(ParseTwoDigits(s).0) == s
  {
  }

  /** `nthDigit`: the `n`th decimal digit of `num`, counting the rightmost as 1.
      The source divides by `uint8(math.Pow10(n-1))`; that conversion is exact
      exactly for n in 1..3, where the exact integer power is used here. */
  function NthDigit(num: uint8, n: int): (r: uint8)
    requires 1 <= n <= 3
    ensures r <= 9
  {
    (num / Pow10(n - 1)) % 10
  }

  /** The three digits `NthDigit` extracts rebuild the number; below 100 the
      third is zero, so the first two are its tens and units digit. */
  lemma NthDigitsRebuild(num: uint8)
    ensures num == 100 * NthDigit(num, 3) + 10 * NthDigit(num, 2) + NthDigit(num, 1)
    ensures num <= 99 ==> NthDigit(num, 3) == 0 && num == 10 * NthDigit(num, 2) + NthDigit(num, 1)
  {
    assert Pow10(1) == 10 && Pow10(2) == 100;
  }

  /** The first two digits `NthDigit` extracts are the units and the tens digit. */
  lemma LowDigits(num: uint8)
    ensures NthDigit(num, 1) == num % 10 && NthDigit(num, 2) == num / 10 % 10
  {
    assert Pow10(0) == 1 && Pow10(1) == 10;
  }

  /** The decimal digit sum (Quersumme) of `n`. */
  function DigitSum(n: nat): nat
  {
    if n < 10 then n else DigitSum(n / 10) + n % 10
  }

  /** `twoDigitDigitSum`: the digit sum of a number below 100. */
  function TwoDigitDigitSum(n: uint8): (r: uint8)
    ensures n <= 99 ==> r == DigitSum(n)
  {
    n / 10 + n % 10
  }

  // ---------------------------------------------------------------------------
  // Check digit

  /** The numeric value of the last-name letter, A = 1 ... Z = 26: the source's
      `uint8(pin.LastNameLetter - 'A' + 1)`, whose `rune` arithmetic may wrap
      but whose low eight bits are those of the exact difference. */
  function NumericLetter(letter: rune): (r: uint8)
    ensures UpperA <= letter <= UpperZ ==> 1 <= r <= 26 && letter == UpperA - 1 + r
  {
    Wrap8(letter - UpperA + 1)
  }

  /** The twelve digits the check digit covers, in input order: the tens and
      units digit of area code, birth day, birth month, birth year, the
      letter's number and the serial number. */
  function ChecksumDigits(pin: PensionInsuranceNumber): (r: seq<int>)
    ensures |r| == 12
    ensures forall i :: 0 <= i < 12 ==> 0 <= r[i] <= 9
  {
    var letter := NumericLetter(pin.lastNameLetter);
    [ pin.areaCode / 10 % 10, pin.areaCode % 10,
      pin.birthDay / 10 % 10, pin.birthDay % 10,
      pin.birthMonth / 10 % 10, pin.birthMonth % 10,
      pin.birthYear / 10 % 10, pin.birthYear % 10,
      letter / 10 % 10, letter % 10,
      pin.serialNumber / 10 % 10, pin.serialNumber % 10 ]
  }

  /** The fixed weight of each of the twelve positions. */
  const Weights: seq<int> := [2, 1, 2, 5, 7, 1, 2, 1, 2, 1, 2, 1]

  /** The sum, over the positions from `from` on, of the digit sum of weight
      times digit. */
  function WeightedDigitSum(digits: seq<int>, weights: seq<int>, from: nat): nat
    requires |digits| == |weights| && from <= |digits|
    requires forall i :: 0 <= i < |digits| ==> digits[i] >= 0 && weights[i] >= 0
    decreases |digits| - from
  {
    if from == |digits| then 0
    else DigitSum(weights[from] * digits[from]) + WeightedDigitSum(digits, weights, from + 1)
  }

  /** The check digit a number must carry: the weighted digit sum modulo 10. */
  function ExpectedCheckDigit(pin: PensionInsuranceNumber): (r: uint8)
    ensures r <= 9
  {
    WeightedDigitSum(ChecksumDigits(pin), Weights, 0) % 10
  }

  /** A digit's contribution as the source computes it: the `uint8` product
      of a weight and a digit never wraps and stays below 100, so
      `twoDigitDigitSum` of it is its digit sum. */
  lemma ProductContribution(w: int, d: uint8)
    requires 1 <= w <= 9 && d <= 9
    ensures w * d < 100
    ensures TwoDigitDigitSum(Wrap8(w * d)) == DigitSum(w * d)
  {
    assert w * d <= 9 * 9;
  }

  /** `calcCheckDigit`: accumulates twelve contributions into `sum`, with the
      source's `uint8` products, and keeps the last decimal digit. Every
      product of a digit by 2, 5 or 7 stays below 256, so no wrap-around
      happens and the result is the weighted digit sum modulo 10. */
  method CalcCheckDigit(pin: PensionInsuranceNumber) returns (r: uint8)
    ensures r == ExpectedCheckDigit(pin)
    ensures r <= 9
  {
    ghost var digits := ChecksumDigits(pin);
    var numericLetter := NumericLetter(pin.lastNameLetter);
    LowDigits(pin.areaCode);
    LowDigits(pin.birthDay);
    LowDigits(pin.birthMonth);
    LowDigits(pin.birthYear);
    LowDigits(numericLetter);
    LowDigits(pin.serialNumber);

    ghost var total := WeightedDigitSum(digits, Weights, 0);
    var sum: int := 0;
    sum := sum + TwoDigitDigitSum(Wrap8(2 * NthDigit(pin.areaCode, 2)));
    assert sum + WeightedDigitSum(digits, Weights, 1) == total by {
      ProductContribution(2, NthDigit(pin.areaCode, 2));
    }
    sum := sum + NthDigit(pin.areaCode, 1);
    assert sum + WeightedDigitSum(digits, Weights, 2) == total by {
      assert DigitSum(1 * NthDigit(pin.areaCode, 1)) == NthDigit(pin.areaCode, 1);
    }
    sum := sum + TwoDigitDigitSum(Wrap8(2 * NthDigit(pin.birthDay, 2)));
    assert sum + WeightedDigitSum(digits, Weights, 3) == total by {
      ProductContribution(2, NthDigit(pin.birthDay, 2));
    }
    sum := sum + TwoDigitDigitSum(Wrap8(5 * NthDigit(pin.birthDay, 1)));
    assert sum + WeightedDigitSum(digits, Weights, 4) == total by {
      ProductContribution(5, NthDigit(pin.birthDay, 1));
    }
    sum := sum + TwoDigitDigitSum(Wrap8(7 * NthDigit(pin.birthMonth, 2)));
    assert sum + WeightedDigitSum(digits, Weights, 5) == total by {
      ProductContribution(7, NthDigit(pin.birthMonth, 2));
    }
    sum := sum + NthDigit(pin.birthMonth, 1);
    assert sum + WeightedDigitSum(digits, Weights, 6) == total by {
      assert DigitSum(1 * NthDigit(pin.birthMonth, 1)) == NthDigit(pin.birthMonth, 1);
    }
    sum := sum + TwoDigitDigitSum(Wrap8(2 * NthDigit(pin.birthYear, 2)));
    assert sum + WeightedDigitSum(digits, Weights, 7) == total by {
      ProductContribution(2, NthDigit(pin.birthYear, 2));
    }
    sum := sum + NthDigit(pin.birthYear, 1);
    assert sum + WeightedDigitSum(digits, Weights, 8) == total by {
      assert DigitSum(1 * NthDigit(pin.birthYear, 1)) == NthDigit(pin.birthYear, 1);
    }

    sum := sum + TwoDigitDigitSum(Wrap8(2 * NthDigit(numericLetter, 2)));
    assert sum + WeightedDigitSum(digits, Weights, 9) == total by {
      ProductContribution(2, NthDigit(numericLetter, 2));
    }
    sum := sum + NthDigit(numericLetter, 1);
    assert sum + WeightedDigitSum(digits, Weights, 10) == total by {
      assert DigitSum(1 * NthDigit(numericLetter, 1)) == NthDigit(numericLetter, 1);
    }

    sum := sum + TwoDigitDigitSum(Wrap8(2 * NthDigit(pin.serialNumber, 2)));
    assert sum + WeightedDigitSum(digits, Weights, 11) == total by {
      ProductContribution(2, NthDigit(pin.serialNumber, 2));
    }
    sum := sum + NthDigit(pin.serialNumber, 1);
    assert sum + WeightedDigitSum(digits, Weights, 12) == total by {
      assert DigitSum(1 * NthDigit(pin.serialNumber, 1)) == NthDigit(pin.serialNumber, 1);
    }
    assert sum == total;
    r := sum % 10;
  }

  // ---------------------------------------------------------------------------
  // Parsing

  /** The input with every space and every '/' removed (the two
      `strings.ReplaceAll` calls at the start of `Parse`). */
  function Clean(s: seq<uint8>): (c: seq<uint8>)
    ensures Space !in c && Slash !in c
    ensures |c| <= |s|
  {
    RemoveAll(RemoveAll(s, Space), Slash)
  }

  predicate IsLowerLetter(b: int) {
    LowerA <= b <= LowerZ
  }

  predicate IsUpperLetter(b: int) {
    UpperA <= b <= UpperZ
  }

  /** ASCII case folding to upper case; every other byte is left alone. */
  function FoldUpper(b: uint8): (r: uint8)
    ensures IsLowerLetter(b) ==> IsUpperLetter(r) && r + (LowerA - UpperA) == b
    ensures !IsLowerLetter(b) ==> r == b
  {
    if IsLowerLetter(b) then b - (LowerA - UpperA) else b
  }

  /** The fields in the order `Parse` checks them, each named by the error its
      rejection reports. */
  const FieldOrder: seq<ParseError> :=
    [ErrAreaCode, ErrBirthDay, ErrBirthMonth, ErrBirthYear, ErrLastNameLetter, ErrSerialNumber, ErrCheckDigit]

  /** The record the twelve cleaned bytes `c` spell, each field read from its
      fixed position (bytes 0-1, 2-3, 4-5, 6-7, 8, 9-10 and 11), the letter
      folded to upper case. */
  function Decode(c: seq<uint8>): (r: PensionInsuranceNumber)
    requires |c| == 12
    ensures IsDigit(c[0]) && IsDigit(c[1]) ==> r.areaCode == 10 * (c[0] - Digit0) + (c[1] - Digit0)
    ensures IsDigit(c[2]) && IsDigit(c[3]) ==> r.birthDay == 10 * (c[2] - Digit0) + (c[3] - Digit0)
    ensures IsDigit(c[4]) && IsDigit(c[5]) ==> r.birthMonth == 10 * (c[4] - Digit0) + (c[5] - Digit0)
    ensures IsDigit(c[6]) && IsDigit(c[7]) ==> r.birthYear == 10 * (c[6] - Digit0) + (c[7] - Digit0)
    ensures IsLowerLetter(c[8]) || IsUpperLetter(c[8]) ==>
      IsUpperLetter(r.lastNameLetter) && (r.lastNameLetter == c[8] || r.lastNameLetter + (LowerA - UpperA) == c[8])
    ensures IsDigit(c[9]) && IsDigit(c[10]) ==> r.serialNumber == 10 * (c[9] - Digit0) + (c[10] - Digit0)
    ensures IsDigit(c[11]) ==> r.checkDigit <= 9 && c[11] == DigitByte(r.checkDigit)
  {
    PensionInsuranceNumber(
      areaCode := ParseTwoDigits(c[0..2]).0,
      birthDay := ParseTwoDigits(c[2..4]).0,
      birthMonth := ParseTwoDigits(c[4..6]).0,
      birthYear := ParseTwoDigits(c[6..8]).0,
      lastNameLetter := FoldUpper(c[8]),
      serialNumber := ParseTwoDigits(c[9..11]).0,
      checkDigit := ParseDigit(c[11]).0)
  }

  /** Whether the field named `field` passes its check on the cleaned bytes
      `c`: two digits (plus a valid area code, a month in 1..12), an ASCII
      letter, and a check digit equal to the one computed from the record. */
  function FieldAccepted(areas: AreaCodeTable, c: seq<uint8>, field: ParseError): (r: bool)
    requires |c| == 12
    ensures field == ErrLength ==> r
    ensures field == ErrAreaCode ==>
      (r <==> IsDigit(c[0]) && IsDigit(c[1]) && 10 * (c[0] - Digit0) + (c[1] - Digit0) in areas)
    ensures field == ErrBirthDay ==> (r <==> IsDigit(c[2]) && IsDigit(c[3]))
    ensures field == ErrBirthMonth ==>
      (r <==> IsDigit(c[4]) && IsDigit(c[5]) && 1 <= 10 * (c[4] - Digit0) + (c[5] - Digit0) <= 12)
    ensures field == ErrBirthYear ==> (r <==> IsDigit(c[6]) && IsDigit(c[7]))
    ensures field == ErrLastNameLetter ==> (r <==> IsUpperLetter(FoldUpper(c[8])))
    ensures field == ErrSerialNumber ==> (r <==> IsDigit(c[9]) && IsDigit(c[10]))
    ensures field == ErrCheckDigit ==> (r <==> c[11] == DigitByte(ExpectedCheckDigit(Decode(c))))
  {
    match field
    case ErrLength => true
    case ErrAreaCode => ParseTwoDigits(c[0..2]).1 && ParseTwoDigits(c[0..2]).0 in areas
    case ErrBirthDay => ParseTwoDigits(c[2..4]).1
    case ErrBirthMonth => ParseTwoDigits(c[4..6]).1 && 1 <= ParseTwoDigits(c[4..6]).0 <= 12
    case ErrBirthYear => ParseTwoDigits(c[6..8]).1
    case ErrLastNameLetter => IsLowerLetter(c[8]) || IsUpperLetter(c[8])
    case ErrSerialNumber => ParseTwoDigits(c[9..11]).1
    case ErrCheckDigit => ParseDigit(c[11]).1 && ParseDigit(c[11]).0 == ExpectedCheckDigit(Decode(c))
  }

  /** The first field of `fields` whose check fails, if any. */
  function FirstRejected(areas: AreaCodeTable, c: seq<uint8>, fields: seq<ParseError>): (r: Option<ParseError>)
    requires |c| == 12
    ensures r.None? <==> forall f :: f in fields ==> FieldAccepted(areas, c, f)
    ensures r.Some? ==> r.value in fields && !FieldAccepted(areas, c, r.value)
  {
    if fields == [] then None
    else if !FieldAccepted(areas, c, fields[0]) then Some(fields[0])
    else FirstRejected(areas, c, fields[1..])
  }

  /** `FirstRejected` over `FieldOrder`, written out as the cascade of checks
      it amounts to. */
  lemma FieldOrderCascade(areas: AreaCodeTable, c: seq<uint8>)
    requires |c| == 12
    ensures FirstRejected(areas, c, FieldOrder) ==
      if !FieldAccepted(areas, c, ErrAreaCode) then Some(ErrAreaCode)
      else if !FieldAccepted(areas, c, ErrBirthDay) then Some(ErrBirthDay)
      else if !FieldAccepted(areas, c, ErrBirthMonth) then Some(ErrBirthMonth)
      else if !FieldAccepted(areas, c, ErrBirthYear) then Some(ErrBirthYear)
      else if !FieldAccepted(areas, c, ErrLastNameLetter) then Some(ErrLastNameLetter)
      else if !FieldAccepted(areas, c, ErrSerialNumber) then Some(ErrSerialNumber)
      else if !FieldAccepted(areas, c, ErrCheckDigit) then Some(ErrCheckDigit)
      else None
  {
    var fields := FieldOrder;
    assert fields[7..] == [];
    assert FirstRejected(areas, c, fields[6..]) ==
      if !FieldAccepted(areas, c, ErrCheckDigit) then Some(ErrCheckDigit) else None
    by { assert fields[6..][1..] == fields[7..]; }
    assert FirstRejected(areas, c, fields[5..]) ==
      if !FieldAccepted(areas, c, ErrSerialNumber) then Some(ErrSerialNumber)
      else FirstRejected(areas, c, fields[6..])
    by { assert fields[5..][1..] == fields[6..]; }
    assert FirstRejected(areas, c, fields[4..]) ==
      if !FieldAccepted(areas, c, ErrLastNameLetter) then Some(ErrLastNameLetter)
      else FirstRejected(areas, c, fields[5..])
    by { assert fields[4..][1..] == fields[5..]; }
    assert FirstRejected(areas, c, fields[3..]) ==
      if !FieldAccepted(areas, c, ErrBirthYear) then Some(ErrBirthYear)
      else FirstRejected(areas, c, fields[4..])
    by { assert fields[3..][1..] == fields[4..]; }
    assert FirstRejected(areas, c, fields[2..]) ==
      if !FieldAccepted(areas, c, ErrBirthMonth) then Some(ErrBirthMonth)
      else FirstRejected(areas, c, fields[3..])
    by { assert fields[2..][1..] == fields[3..]; }
    assert FirstRejected(areas, c, fields[1..]) ==
      if !FieldAccepted(areas, c, ErrBirthDay) then Some(ErrBirthDay)
      else FirstRejected(areas, c, fields[2..])
    by { assert fields[1..][1..] == fields[2..]; }
  }

  /** What `Parse` returns, stated declaratively: a length error unless the
      cleaned input has twelve bytes, else the error of the first field, in
      the fixed order, whose check fails, else the record the bytes spell.
      Every error comes with the zero value.
      The cascade is the same check sequence as `FirstRejected` over
      `FieldOrder` (see `OutcomeIsFirstRejected`), not a second definition of
      the order: it is spelled out only because the verifier handles it more
      cheaply in `Parse`. */
  function ParseOutcome(areas: AreaCodeTable, s: seq<uint8>): (r: (PensionInsuranceNumber, Option<ParseError>))
    ensures r.1.Some? ==> r.0 == ZeroValue
  {
    var c := Clean(s);
    if |c| != 12 then (ZeroValue, Some(ErrLength))
    else if !FieldAccepted(areas, c, ErrAreaCode) then (ZeroValue, Some(ErrAreaCode))
    else if !FieldAccepted(areas, c, ErrBirthDay) then (ZeroValue, Some(ErrBirthDay))
    else if !FieldAccepted(areas, c, ErrBirthMonth) then (ZeroValue, Some(ErrBirthMonth))
    else if !FieldAccepted(areas, c, ErrBirthYear) then (ZeroValue, Some(ErrBirthYear))
    else if !FieldAccepted(areas, c, ErrLastNameLetter) then (ZeroValue, Some(ErrLastNameLetter))
    else if !FieldAccepted(areas, c, ErrSerialNumber) then (ZeroValue, Some(ErrSerialNumber))
    else if !FieldAccepted(areas, c, ErrCheckDigit) then (ZeroValue, Some(ErrCheckDigit))
    else (Decode(c), None)
  }

  /** The checks of `ParseOutcome` are those of `FieldOrder`, in that order:
      on a twelve-byte cleaned input the error is the first field of
      `FieldOrder` that is rejected. */
  lemma OutcomeIsFirstRejected(areas: AreaCodeTable, s: seq<uint8>)
    ensures |Clean(s)| == 12 ==>
      ParseOutcome(areas, s) ==
        match FirstRejected(areas, Clean(s), FieldOrder)
        case Some(e) => (ZeroValue, Some(e))
        case None => (Decode(Clean(s)), None)
  {
    if |Clean(s)| == 12 {
      FieldOrderCascade(areas, Clean(s));
    }
  }

  /** `Parse`: removes spaces and '/', checks the length, then reads and checks
      the fields one after another into `pin`, returning at the first failure
      with the zero value and that field's error. */
  method Parse(areas: AreaCodeTable, s: seq<uint8>) returns (pin: PensionInsuranceNumber, err: Option<ParseError>)
    ensures (pin, err) == ParseOutcome(areas, s)
  {
    var c := RemoveAll(s, Space);
    c := RemoveAll(c, Slash);

    assert c == Clean(s);
    if |c| != 12 {
      return ZeroValue, Some(ErrLength);
    }

    pin := ZeroValue;

    var areaCode := ParseTwoDigits(c[..2]);
    if !areaCode.1 {
      assert !FieldAccepted(areas, c, ErrAreaCode);
      return ZeroValue, Some(ErrAreaCode);
    }

    pin := pin.(areaCode := areaCode.0);
    if pin.areaCode !in areas {
      assert !FieldAccepted(areas, c, ErrAreaCode);
      return ZeroValue, Some(ErrAreaCode);
    }
    assert FieldAccepted(areas, c, ErrAreaCode);

    // any value 0..99 is accepted as the birth day
    var birthDay := ParseTwoDigits(c[2..4]);
    pin := pin.(birthDay := birthDay.0);
    if !birthDay.1 {
      assert !FieldAccepted(areas, c, ErrBirthDay);
      return ZeroValue, Some(ErrBirthDay);
    }
    assert FieldAccepted(areas, c, ErrBirthDay);

    var birthMonth := ParseTwoDigits(c[4..6]);
    pin := pin.(birthMonth := birthMonth.0);
    if !birthMonth.1 || pin.birthMonth < 1 || pin.birthMonth > 12 {
      assert !FieldAccepted(areas, c, ErrBirthMonth);
      return ZeroValue, Some(ErrBirthMonth);
    }
    assert FieldAccepted(areas, c, ErrBirthMonth);

    var birthYear := ParseTwoDigits(c[6..8]);
    pin := pin.(birthYear := birthYear.0);
    if !birthYear.1 {
      assert !FieldAccepted(areas, c, ErrBirthYear);
      return ZeroValue, Some(ErrBirthYear);
    }
    assert FieldAccepted(areas, c, ErrBirthYear);

    pin := pin.(lastNameLetter := c[8]);
    if pin.lastNameLetter >= LowerA && pin.lastNameLetter <= LowerZ {
      pin := pin.(lastNameLetter := pin.lastNameLetter - (LowerA - UpperA));
    } else if pin.lastNameLetter < UpperA || pin.lastNameLetter > UpperZ {
      assert !FieldAccepted(areas, c, ErrLastNameLetter);
      return ZeroValue, Some(ErrLastNameLetter);
    }
    assert FieldAccepted(areas, c, ErrLastNameLetter);

    var serialNumber := ParseTwoDigits(c[9..11]);
    pin := pin.(serialNumber := serialNumber.0);
    if !serialNumber.1 {
      assert !FieldAccepted(areas, c, ErrSerialNumber);
      return ZeroValue, Some(ErrSerialNumber);
    }
    assert FieldAccepted(areas, c, ErrSerialNumber);

    var checkDigit := ParseOneDigit(c[11..]);
    pin := pin.(checkDigit := checkDigit.0);
    assert c[11..][0] == c[11];
    if !checkDigit.1 {
      assert !FieldAccepted(areas, c, ErrCheckDigit);
      return ZeroValue, Some(ErrCheckDigit);
    }

    assert pin == Decode(c);
    var expected := CalcCheckDigit(pin);
    if pin.checkDigit != expected {
      assert !FieldAccepted(areas, c, ErrCheckDigit);
      return ZeroValue, Some(ErrCheckDigit);
    }
    assert FieldAccepted(areas, c, ErrCheckDigit);

    return pin, None;
  }

  /** `IsValid`: whether `Parse` accepts `s`, that is, whether the cleaned
      input has twelve bytes and every field passes its check. */
  function IsValid(areas: AreaCodeTable, s: seq<uint8>): (r: bool)
    ensures r <==> |Clean(s)| == 12 && forall f :: f in FieldOrder ==> FieldAccepted(areas, Clean(s), f)
  {
    OutcomeIsFirstRejected(areas, s);
    ParseOutcome(areas, s).1.None?
  }

  // ---------------------------------------------------------------------------
  // Properties of Parse

  /** The length is checked before any field: `ErrLength` is reported exactly
      when the cleaned input does not have twelve bytes. */
  lemma LengthCheckedFirst(areas: AreaCodeTable, s: seq<uint8>)
    ensures ParseOutcome(areas, s).1 == Some(ErrLength) <==> |Clean(s)| != 12
    ensures |Clean(s)| != 12 ==> ParseOutcome(areas, s).0 == ZeroValue
  {
  }

  /** A field that is rejected after all the fields before it were accepted
      is the one `FirstRejected` reports. */
  lemma {:induction false} FirstRejectedAt(areas: AreaCodeTable, c: seq<uint8>, fields: seq<ParseError>, i: nat)
    requires |c| == 12 && i < |fields|
    requires !FieldAccepted(areas, c, fields[i])
    requires forall j :: 0 <= j < i ==> FieldAccepted(areas, c, fields[j])
    ensures FirstRejected(areas, c, fields) == Some(fields[i])
  {
    if i > 0 {
      assert FieldAccepted(areas, c, fields[0]);
      assert forall j :: 0 <= j < i - 1 ==> fields[1..][j] == fields[j + 1];
      FirstRejectedAt(areas, c, fields[1..], i - 1);
    }
  }

  /** The field `FirstRejected` reports sits at some position `i`, and every
      field before it was accepted. */
  lemma {:induction false} FirstRejectedPosition(areas: AreaCodeTable, c: seq<uint8>, fields: seq<ParseError>) returns (i: nat)
    requires |c| == 12 && FirstRejected(areas, c, fields).Some?
    ensures i < |fields| && fields[i] == FirstRejected(areas, c, fields).value
    ensures !FieldAccepted(areas, c, fields[i])
    ensures forall j :: 0 <= j < i ==> FieldAccepted(areas, c, fields[j])
  {
    if !FieldAccepted(areas, c, fields[0]) {
      i := 0;
    } else {
      var k := FirstRejectedPosition(areas, c, fields[1..]);
      i := k + 1;
      forall j | 0 <= j < i
        ensures FieldAccepted(areas, c, fields[j])
      {
        if j > 0 {
          assert fields[j] == fields[1..][j - 1];
        }
      }
    }
  }

  /** Error precedence: on a twelve-byte cleaned input, the error of the
      field at position `i` of `FieldOrder` is reported exactly when that
      field is rejected and every field before it is accepted, whatever
      the fields after it hold. */
  lemma ErrorPrecedence(areas: AreaCodeTable, s: seq<uint8>, i: nat)
    requires |Clean(s)| == 12 && i < |FieldOrder|
    ensures ParseOutcome(areas, s).1 == Some(FieldOrder[i])
        <==> !FieldAccepted(areas, Clean(s), FieldOrder[i])
             && forall j :: 0 <= j < i ==> FieldAccepted(areas, Clean(s), FieldOrder[j])
  {
    var c := Clean(s);
    OutcomeIsFirstRejected(areas, s);
    if !FieldAccepted(areas, c, FieldOrder[i]) && forall j :: 0 <= j < i ==> FieldAccepted(areas, c, FieldOrder[j]) {
      FirstRejectedAt(areas, c, FieldOrder, i);
    }
    if ParseOutcome(areas, s).1 == Some(FieldOrder[i]) {
      var k := FirstRejectedPosition(areas, c, FieldOrder);
      assert FieldOrder[k] == FieldOrder[i];
      assert k == i;
    }
  }

  /** An invalid area code is reported as such whatever else is wrong with
      the input, for instance an invalid birth month as well. */
  lemma AreaCodeReportedFirst(areas: AreaCodeTable, s: seq<uint8>)
    requires |Clean(s)| == 12
    requires !ParseTwoDigits(Clean(s)[0..2]).1 || ParseTwoDigits(Clean(s)[0..2]).0 !in areas
    ensures ParseOutcome(areas, s) == (ZeroValue, Some(ErrAreaCode))
  {
    ErrorPrecedence(areas, s, 0);
  }

  /** Every field in its domain: two-digit fields below 100, a month in
      1..12, an upper-case letter and a single check digit. */
  predicate InDomain(pin: PensionInsuranceNumber) {
    && pin.areaCode <= 99 && pin.birthDay <= 99 && 1 <= pin.birthMonth <= 12 && pin.birthYear <= 99
    && IsUpperLetter(pin.lastNameLetter) && pin.serialNumber <= 99 && pin.checkDigit <= 9
  }

  /** Every field of a parsed record is in its domain: two-digit fields below
      100, a valid area code, a month in 1..12, an upper-case letter whose
      number is in 1..26, and a check digit equal to the one computed from
      the record. The record is what the cleaned bytes spell. */
  lemma ParsedRecordInDomain(areas: AreaCodeTable, s: seq<uint8>)
    requires ParseOutcome(areas, s).1.None?
    ensures var pin := ParseOutcome(areas, s).0;
      && |Clean(s)| == 12 && pin == Decode(Clean(s))
      && pin.areaCode in areas && pin.areaCode <= 99
      && pin.birthDay <= 99
      && 1 <= pin.birthMonth <= 12
      && pin.birthYear <= 99
      && IsUpperLetter(pin.lastNameLetter) && 1 <= NumericLetter(pin.lastNameLetter) <= 26
      && pin.serialNumber <= 99
      && pin.checkDigit <= 9 && pin.checkDigit == ExpectedCheckDigit(pin)
      && InDomain(pin)
  {
    var c := Clean(s);
    OutcomeIsFirstRejected(areas, s);
    assert forall i :: 0 <= i < |FieldOrder| ==> FieldOrder[i] in FieldOrder;
    assert FieldAccepted(areas, c, FieldOrder[0]) && FieldAccepted(areas, c, FieldOrder[1]);
    assert FieldAccepted(areas, c, FieldOrder[2]) && FieldAccepted(areas, c, FieldOrder[3]);
    assert FieldAccepted(areas, c, FieldOrder[4]) && FieldAccepted(areas, c, FieldOrder[5]);
    assert FieldAccepted(areas, c, FieldOrder[6]);
  }

  /** With every field before it accepted, exactly one of the ten digits is
      accepted as the check digit: the one computed from the other fields.
      Every other digit is rejected with `ErrCheckDigit`, the same error a
      non-digit gets. */
  lemma ExactlyOneCheckDigit(areas: AreaCodeTable, c: seq<uint8>, d: uint8)
    requires |c| == 12
    requires FieldAccepted(areas, c, ErrAreaCode) && FieldAccepted(areas, c, ErrBirthDay)
    requires FieldAccepted(areas, c, ErrBirthMonth) && FieldAccepted(areas, c, ErrBirthYear)
    requires FieldAccepted(areas, c, ErrLastNameLetter) && FieldAccepted(areas, c, ErrSerialNumber)
    requires d <= 9
    ensures var r := ParseOutcome(areas, c[11 := DigitByte(d)]);
      && (r.1.None? <==> d == ExpectedCheckDigit(Decode(c)))
      && (d != ExpectedCheckDigit(Decode(c)) ==> r == (ZeroValue, Some(ErrCheckDigit)))
  {
    var c' := c[11 := DigitByte(d)];
    assert c[0..2][0] == c[0] && c[0..2][1] == c[1];
    assert c[2..4][0] == c[2] && c[2..4][1] == c[3];
    assert c[4..6][0] == c[4] && c[4..6][1] == c[5];
    assert c[6..8][0] == c[6] && c[6..8][1] == c[7];
    assert c[9..11][0] == c[9] && c[9..11][1] == c[10];
    assert forall i :: 0 <= i < 12 ==> c'[i] != Space && c'[i] != Slash;
    assert Clean(c') == c';
    assert c'[0..2] == c[0..2] && c'[2..4] == c[2..4] && c'[4..6] == c[4..6];
    assert c'[6..8] == c[6..8] && c'[9..11] == c[9..11] && c'[8] == c[8];
    assert Decode(c') == Decode(c).(checkDigit := d);
    assert ChecksumDigits(Decode(c')) == ChecksumDigits(Decode(c));
  }

  /** The case of the letter does not matter: two inputs whose cleaned forms
      agree except for the case of the letter byte parse alike. */
  lemma LetterCaseIgnored(areas: AreaCodeTable, s1: seq<uint8>, s2: seq<uint8>)
    requires |Clean(s1)| == 12 && |Clean(s2)| == 12
    requires forall i :: 0 <= i < 12 && i != 8 ==> Clean(s1)[i] == Clean(s2)[i]
    requires FoldUpper(Clean(s1)[8]) == FoldUpper(Clean(s2)[8])
    ensures ParseOutcome(areas, s1) == ParseOutcome(areas, s2)
  {
    var c1, c2 := Clean(s1), Clean(s2);
    assert c1[0..2] == c2[0..2] && c1[2..4] == c2[2..4] && c1[4..6] == c2[4..6];
    assert c1[6..8] == c2[6..8] && c1[9..11] == c2[9..11] && c1[11] == c2[11];
    assert Decode(c1) == Decode(c2);
  }

  /** Removing separators can be done piece by piece. */
  lemma CleanConcat(x: seq<uint8>, y: seq<uint8>)
    ensures Clean(x + y) == Clean(x) + Clean(y)
  {
    RemoveAllConcat(x, y, Space);
    RemoveAllConcat(RemoveAll(x, Space), RemoveAll(y, Space), Slash);
  }

  /** Inserting a space or a '/' anywhere does not change the cleaned
      input. */
  lemma CleanIgnoresInsertedSeparator(s: seq<uint8>, i: nat, b: uint8)
    requires i <= |s| && (b == Space || b == Slash)
    ensures Clean(s[..i] + [b] + s[i..]) == Clean(s)
  {
    assert Clean([b]) == [] by {
      assert [b][1..] == [];
      if b == Space {
        assert RemoveAll([b], Space) == [];
      } else {
        assert RemoveAll([b], Space) == [b];
      }
    }
    calc {
      Clean(s[..i] + [b] + s[i..]);
      { CleanConcat(s[..i] + [b], s[i..]); }
      Clean(s[..i] + [b]) + Clean(s[i..]);
      { CleanConcat(s[..i], [b]); }
      Clean(s[..i]) + Clean([b]) + Clean(s[i..]);
      Clean(s[..i]) + Clean(s[i..]);
      { CleanConcat(s[..i], s[i..]); }
      Clean(s[..i] + s[i..]);
      { assert s[..i] + s[i..] == s; }
      Clean(s);
    }
  }

  /** Inserting a space or a '/' anywhere does not change what `Parse`
      returns. */
  lemma SeparatorInsertionIgnored(areas: AreaCodeTable, s: seq<uint8>, i: nat, b: uint8)
    requires i <= |s| && (b == Space || b == Slash)
    ensures ParseOutcome(areas, s[..i] + [b] + s[i..]) == ParseOutcome(areas, s)
  {
    var t := s[..i] + [b] + s[i..];
    CleanIgnoresInsertedSeparator(s, i, b);
    assert ParseOutcome(areas, t) == ParseOutcome(areas, s) by {
      assert Clean(t) == Clean(s);
    }
  }

  /** The compact form of a record in its domain: its fields spelled out in
      their positions, without separators. */
  function CompactForm(pin: PensionInsuranceNumber): (r: seq<uint8>)
    requires InDomain(pin)
    ensures |r| == 12 && Space !in r && Slash !in r
  {
    TwoDigitBytes(pin.areaCode) + TwoDigitBytes(pin.birthDay) + TwoDigitBytes(pin.birthMonth)
      + TwoDigitBytes(pin.birthYear) + [pin.lastNameLetter] + TwoDigitBytes(pin.serialNumber)
      + [DigitByte(pin.checkDigit)]
  }

  /** `Parse` loses nothing but separators and the case of the letter: the
      compact form of what it returns is the cleaned input with the letter
      in upper case, and parsing that compact form gives the same record. */
  lemma ParseRoundTrip(areas: AreaCodeTable, s: seq<uint8>)
    requires ParseOutcome(areas, s).1.None?
    ensures var pin := ParseOutcome(areas, s).0;
      && InDomain(pin)
      && CompactForm(pin) == Clean(s)[8 := FoldUpper(Clean(s)[8])]
      && ParseOutcome(areas, CompactForm(pin)) == (pin, None)
  {
    var c := Clean(s);
    var pin := ParseOutcome(areas, s).0;
    ParsedRecordInDomain(areas, s);
    TwoDigitsRoundTripBytes(c[0..2]);
    TwoDigitsRoundTripBytes(c[2..4]);
    TwoDigitsRoundTripBytes(c[4..6]);
    TwoDigitsRoundTripBytes(c[6..8]);
    TwoDigitsRoundTripBytes(c[9..11]);
    var compact := CompactForm(pin);
    assert compact == c[8 := FoldUpper(c[8])];
    assert Clean(compact) == compact;
    LetterCaseIgnored(areas, s, compact);
  }
}
