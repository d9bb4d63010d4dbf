/**
 * `GenerateInvoiceCode` (internal/utils/invoice.go): "INV-" + the current date
 * as yyyymmdd + "-" + a random number below 9999 printed with `%04d`.
 * The clock and the random draw are inputs: `today` is the date of
 * `time.Now()` and `draw` the value `rand.Intn(9999)` returned.
 */
module Invoice {
  import opened Wrappers
  import opened Strconv
  import opened Dates

  /** `rand.Intn(9999)` draws from 0..9998: 9999 itself is excluded. */
  const RandomBound: int := 9999

  datatype Decoded = Decoded(date: Date, draw: int)

  function GenerateInvoiceCode(today: Date, draw: int): (code: string)
    requires Valid(today) && 0 <= draw < RandomBound
    ensures |code| == 17
  {
    "INV-" + FormatCompact(today) + "-" + Pad4(draw)
  }

  /** The pattern `INV-\d{8}-\d{4}`. */
  predicate InvoiceShape(code: string) {
    |code| == 17 && code[..4] == "INV-" && AllDigits(code[4..12]) && code[12] == '-' && AllDigits(code[13..])
  }

  /** Reads the date and the number back out of a code of the right shape. */
  function DecodeInvoice(code: string): Option<Decoded> {
    if !InvoiceShape(code) then None
    else
      var digits := code[4..12];
      assert forall i :: 0 <= i < 4 ==> digits[..4][i] == digits[i];
      Some(Decoded(Date(Value4(digits[..4]), Value2(digits[4], digits[5]), Value2(digits[6], digits[7])),
                   Value4(code[13..])))
  }

  /** Every generated code has the shape `INV-\d{8}-\d{4}` and 17 characters. */
  lemma InvoiceHasShape(today: Date, draw: int)
    requires Valid(today) && 0 <= draw < RandomBound
    ensures InvoiceShape(GenerateInvoiceCode(today, draw))
  {
    var code := GenerateInvoiceCode(today, draw);
    assert code[4..12] == FormatCompact(today);
    assert code[13..] == Pad4(draw);
  }

  /** The code carries the call date as yyyymmdd and the drawn number zero-padded to four digits, both recoverable. */
  lemma InvoiceRoundTrip(today: Date, draw: int)
    requires Valid(today) && 0 <= draw < RandomBound
    ensures DecodeInvoice(GenerateInvoiceCode(today, draw)) == Some(Decoded(today, draw))
  {
    var code := GenerateInvoiceCode(today, draw);
    InvoiceHasShape(today, draw);
    var digits := code[4..12];
    assert digits == Pad4(today.year) + Pad2(today.month) + Pad2(today.day);
    assert digits[..4] == Pad4(today.year);
    assert code[13..] == Pad4(draw);
    Pad4Value(today.year);
    Pad2Value(today.month);
    Pad2Value(today.day);
    Pad4Value(draw);
  }

  /** The four-digit part never reads 9999. */
  lemma RandomPartBelowBound(today: Date, draw: int)
    requires Valid(today) && 0 <= draw < RandomBound
    ensures var code := GenerateInvoiceCode(today, draw);
            AllDigits(code[13..]) && |code[13..]| == 4 && 0 <= Value4(code[13..]) <= 9998
  {
    InvoiceRoundTrip(today, draw);
  }
}
