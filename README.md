# German pension insurance and tax identification numbers in Dafny

This project models two parts of the Go package collection `miscnums`.

**The pension insurance number parser** (`de/pensioninsurancenumber`). `Parse` does the following, in order:

1. It deletes every space and `/` from the input.
2. It requires exactly twelve bytes.
3. It reads the fixed-position fields in a fixed order: area code, birth day, birth month, birth year, last-name letter, serial number and check digit. The first field that fails decides the error, and every error comes with the zero-value record.
4. It recomputes the check digit as a weighted digit sum modulo 10 and compares it with the parsed one.

In the model:

- `Parse` is an imperative method. It builds its record field by field and returns early at each failed check, as the Go code does. It is proved equal to the declarative `ParseOutcome`.
- `calcCheckDigit` is a straight-line method that accumulates twelve contributions with Go's `uint8` products. It is proved equal to the reference definition `ExpectedCheckDigit`, which uses a weight vector and decimal digit sums.
- `IsValid` is defined as "`Parse` returns no error" and characterised by the field checks.

**The display forms of the tax identification number** (`de/taxidentificationnumber`):

- `Compact` and `MarshalText` give the plain decimal form.
- `String` groups an eleven-digit number as `XX XXX XXX XXX`.
- `strconv.FormatUint` is modelled as `FormatDecimal`. Its partner `DecimalValue` reads a numeral back, and round trips are proved in both directions.

Go strings are modelled as byte sequences (`seq<uint8>`). Go's `uint8` arithmetic wraps explicitly through `Wrap8`.

Behaviour of the code that the model follows:

- A checksum mismatch is reported as `ErrCheckDigit`, the same error as a non-digit check character. There is no separate checksum error.
- The birth day accepts every two-digit value 0..99 on purpose, as the comment at parse.go:50 says. Only the birth month is range-checked.

## Model

| member | source | states |
|---|---|---|
| GoBytes.Wrap8 | de/pensioninsurancenumber/parse.go:106 | The result of `uint8` arithmetic is congruent to the exact value modulo 256, and equals it when that value fits in a byte. |
| GoBytes.DigitByte | de/pensioninsurancenumber/parse.go:109-115 | The ASCII byte of a decimal digit is a digit byte and lies exactly `d` above '0'. |
| GoBytes.RemoveAll | de/pensioninsurancenumber/parse.go:31-32 | Deleting every occurrence of a byte leaves none of it. It never lengthens the input, keeps only bytes of the input, and is the identity on inputs without that byte. |
| GoBytes.RemoveAllCounts | de/pensioninsurancenumber/parse.go:31-32 | Deletion keeps every other byte exactly as often as it occurs (equality of multisets). |
| GoBytes.RemoveAllConcat | de/pensioninsurancenumber/parse.go:31-32 | Deletion distributes over concatenation. |
| GoBytes.RemoveAllAround | de/taxidentificationnumber/tax_identification_number.go:31 | Deleting a separator around one of its occurrences joins the two cleaned halves. |
| PensionInsurance.ParseDigit | de/pensioninsurancenumber/parse.go:109-115 | Succeeds iff the byte is in '0'..'9'. On success the value is at most 9 and spells that byte back. On failure it is 0. |
| PensionInsurance.ParseOneDigit | de/pensioninsurancenumber/parse.go:91-93 | The first byte read as a digit, with the same success condition and value. |
| PensionInsurance.ParseTwoDigits | de/pensioninsurancenumber/parse.go:95-107 | Succeeds iff both bytes are digits. The value is 10·d1 + d2, at most 99, and its tens and units digits are exactly the two bytes; the `uint8` arithmetic never wraps. On failure it is 0. |
| PensionInsurance.TwoDigitsRoundTrip | de/pensioninsurancenumber/parse.go:95-107 | Reading the two digits that spell a number below 100 gives that number back. |
| PensionInsurance.TwoDigitsRoundTripBytes | de/pensioninsurancenumber/parse.go:95-107 | Spelling the value read from two digit bytes gives back those bytes. |
| PensionInsurance.NthDigit | de/pensioninsurancenumber/parse.go:144-146 | The extracted digit is at most 9. |
| PensionInsurance.NthDigitsRebuild | de/pensioninsurancenumber/parse.go:142-146 | The third, second and first digits rebuild the number. Below 100 the third digit is 0. |
| PensionInsurance.LowDigits | de/pensioninsurancenumber/parse.go:142-146 | Digit 1 is `num % 10` and digit 2 is `num / 10 % 10`. |
| PensionInsurance.TwoDigitDigitSum | de/pensioninsurancenumber/parse.go:148-150 | For numbers below 100 the result is the decimal digit sum. |
| PensionInsurance.NumericLetter | de/pensioninsurancenumber/parse.go:132 | For a letter in 'A'..'Z' the numeric value is in 1..26, and 'A' - 1 plus it gives the letter back. |
| PensionInsurance.ChecksumDigits | de/pensioninsurancenumber/parse.go:123-137 | There are twelve covered digits, each in 0..9. |
| PensionInsurance.ExpectedCheckDigit | de/pensioninsurancenumber/parse.go:117-140 | The check digit defined by the weight vector is a single digit 0..9. |
| PensionInsurance.ProductContribution | de/pensioninsurancenumber/parse.go:123-136 | The product of a weight (2, 5 or 7) and a digit stays below 100, so the `uint8` product does not wrap and `twoDigitDigitSum` of it is its digit sum. |
| PensionInsurance.CalcCheckDigit | de/pensioninsurancenumber/parse.go:117-140 | The twelve accumulated contributions modulo 10 equal the reference check digit, which is below 10. |
| PensionInsurance.Clean | de/pensioninsurancenumber/parse.go:31-32 | The cleaned input contains no space and no '/', and is no longer than the input. |
| PensionInsurance.FoldUpper | de/pensioninsurancenumber/parse.go:66-68 | A lower-case letter becomes the upper-case letter 'a' - 'A' below it. Every other byte is unchanged. |
| PensionInsurance.Decode | de/pensioninsurancenumber/parse.go:40-81 | The record read from twelve cleaned bytes. The area code, birth day, birth month, birth year and serial number are the two-digit values 10·d1 + d2 at bytes 0-1, 2-3, 4-5, 6-7 and 9-10. An ASCII letter at byte 8 becomes its upper-case form. The check digit is the digit at byte 11. |
| PensionInsurance.FieldAccepted | de/pensioninsurancenumber/parse.go:41-85 | The rule of each field. The area code is two digits whose value is a known area code. The birth month is two digits whose value is in 1..12. Birth day, birth year and serial number accept any two digits (0..99). The letter is accepted iff it folds to 'A'..'Z'. The check digit is accepted iff it is the digit computed from the record. |
| PensionInsurance.FirstRejected | de/pensioninsurancenumber/parse.go:40-85 | No field is reported iff every field is accepted. A reported field is one of those given and is rejected. |
| PensionInsurance.FieldOrderCascade | de/pensioninsurancenumber/parse.go:40-85 | The first rejected field in the fixed order is the cascade of checks area code, day, month, year, letter, serial, check digit. |
| PensionInsurance.ParseOutcome | de/pensioninsurancenumber/parse.go:35-87 | Every error outcome carries the zero-value record. |
| PensionInsurance.OutcomeIsFirstRejected | de/pensioninsurancenumber/parse.go:34-87 | On twelve cleaned bytes, the outcome is the error of the first rejected field in the fixed order, else the record the bytes spell. |
| PensionInsurance.Parse | de/pensioninsurancenumber/parse.go:30-88 | The imperative parser, with early returns and the letter folded in place, returns exactly `ParseOutcome`. |
| PensionInsurance.IsValid | de/pensioninsurancenumber/parse.go:152-155 | Holds iff the cleaned input has twelve bytes and every field check passes. Its body is "the parse has no error", so both directions hold. |
| PensionInsurance.LengthCheckedFirst | de/pensioninsurancenumber/parse.go:31-36 | `ErrLength` is reported iff the cleaned length is not 12, and then with the zero value. |
| PensionInsurance.FirstRejectedAt | de/pensioninsurancenumber/parse.go:40-85 | A rejected field whose predecessors are all accepted is the one reported. |
| PensionInsurance.FirstRejectedPosition | de/pensioninsurancenumber/parse.go:40-85 | The reported field has a position, and every field before it is accepted. |
| PensionInsurance.ErrorPrecedence | de/pensioninsurancenumber/parse.go:40-85 | The error of the i-th field is reported iff that field is rejected and all earlier fields are accepted, whatever the later fields hold. |
| PensionInsurance.AreaCodeReportedFirst | de/pensioninsurancenumber/parse.go:40-48 | A non-digit or unknown area code is reported as `ErrAreaCode` with the zero value, even when other fields are also wrong. |
| PensionInsurance.ParsedRecordInDomain | de/pensioninsurancenumber/parse.go:40-87 | A successful parse returns the record the cleaned bytes spell. Its area code is known and below 100. Day, year and serial are at most 99. The month is in 1..12. The letter is in 'A'..'Z' with numeric value 1..26. The check digit equals the one computed from the record. |
| PensionInsurance.ExactlyOneCheckDigit | de/pensioninsurancenumber/parse.go:78-85 | With the other fields accepted, a digit in the last position is accepted iff it is the computed check digit. Any other digit gives `ErrCheckDigit` with the zero value. |
| PensionInsurance.LetterCaseIgnored | de/pensioninsurancenumber/parse.go:66-71 | Inputs that differ only in the case of the letter parse alike. |
| PensionInsurance.CleanConcat | de/pensioninsurancenumber/parse.go:31-32 | Removing separators distributes over concatenation. |
| PensionInsurance.CleanIgnoresInsertedSeparator | de/pensioninsurancenumber/parse.go:31-32 | Inserting a space or '/' anywhere leaves the cleaned input unchanged. |
| PensionInsurance.SeparatorInsertionIgnored | de/pensioninsurancenumber/parse.go:31-32 | Inserting a space or '/' anywhere leaves the parse result unchanged. |
| PensionInsurance.CompactForm | de/pensioninsurancenumber/parse.go:40-81 | A record in its field domains spells twelve bytes without separators. |
| PensionInsurance.ParseRoundTrip | de/pensioninsurancenumber/parse.go:30-88 | The compact form of a parsed record is the cleaned input with the letter upper-cased, and parsing it gives the same record again. |
| TaxIdentification.FormatDecimal | de/taxidentificationnumber/tax_identification_number.go:36-38 | The base-10 form is canonical (digits only, no leading zero except "0"), and reading it back gives the number. |
| TaxIdentification.LeadingDigitPositive | de/taxidentificationnumber/tax_identification_number.go:36-38 | A canonical numeral with a non-zero first digit spells a positive number. |
| TaxIdentification.FormatDecimalOfValue | de/taxidentificationnumber/tax_identification_number.go:36-38 | Formatting the value of a canonical numeral gives that numeral back, so the canonical form is unique. |
| TaxIdentification.FormatDecimalLength | de/taxidentificationnumber/tax_identification_number.go:26-30 | A number in [10^(k-1), 10^k) has exactly k digits. |
| TaxIdentification.Compact | de/taxidentificationnumber/tax_identification_number.go:36-38 | The compact form is the canonical decimal numeral of the number. |
| TaxIdentification.CompactLengthEleven | de/taxidentificationnumber/tax_identification_number.go:26-30 | Every number in 10_000_000_000..99_999_999_999 has an eleven-digit compact form. |
| TaxIdentification.String | de/taxidentificationnumber/tax_identification_number.go:25-32 | Outside 10_000_000_000..99_999_999_999 the result is the compact form. Inside, it has 14 bytes, spaces at 2, 6 and 10, and digits everywhere else. |
| TaxIdentification.StringWithoutSpacesIsCompact | de/taxidentificationnumber/tax_identification_number.go:25-38 | Deleting the spaces from `String` gives `Compact`, for every number. |
| TaxIdentification.MarshalText | de/taxidentificationnumber/tax_identification_number.go:40-42 | Never an error. The bytes are the canonical decimal numeral of the number. |

## Left out

- `AreaCode.IsValid` and its table of regional codes are not part of this model. Every member that needs them takes the valid codes as a parameter `areas: AreaCodeTable`.
- PensionInsurance.NthDigit: `math.Pow10(n-1)` is replaced by the exact integer power. The float conversion `uint8(math.Pow10(n-1))` is not modelled, and `n` is restricted to 1..3, where that conversion is exact. The code only uses n = 1 and n = 2.
- `UnmarshalText` (tax_identification_number.go:46-54) delegates to the tax identification `Parse`, which is not part of this model. The round trip the comment at lines 23-24 promises therefore depends on code outside this model.
- The texts of the error messages are left out. The sentinels are the closed enumeration `ParseError`, and errors compare by identity.
- The `encoding.TextMarshaler` and `TextUnmarshaler` interface assertions are left out; they have no behaviour.
- Unicode is left out. Strings are byte sequences, as Go's `len(s)` and `s[i]` see them.
- iban/parse_test.go is a test table for an IBAN parser whose code is not part of this model.
