/** Decimal text of unsigned integers: `to_string` on an unsigned integer and
    `str::parse::<u32>` (Rust's `u32::from_str`, radix 10), with the three kinds of
    `ParseIntError` it can report. */
module Decimal {
  import opened Outcomes

  const U32_LIMIT: nat := 0x1_0000_0000

  predicate IsDigit(c: char) { '0' <= c <= '9' }

  function DigitValue(c: char): nat
    requires IsDigit(c)
  {
    (c as int) - ('0' as int)
  }

  function DigitChar(d: nat): (c: char)
    requires d < 10
    ensures IsDigit(c) && DigitValue(c) == d
  {
    ('0' as int + d) as char
  }

  predicate AllDigits(s: string) {
    forall i :: 0 <= i < |s| ==> IsDigit(s[i])
  }

  /** `n.to_string()`: shortest decimal numeral, no sign, no leading zero. */
  function DecimalString(n: nat): (s: string)
    ensures |s| >= 1 && AllDigits(s)
    ensures |s| > 1 ==> s[0] != '0'
  {
    if n < 10 then [DigitChar(n)] else DecimalString(n / 10) + [DigitChar(n % 10)]
  }

  /** The value of a numeral read left to right, starting from `acc`. */
  function FoldDigits(ds: string, acc: nat): nat
    requires AllDigits(ds)
  {
    if ds == [] then acc else FoldDigits(ds[1..], acc * 10 + DigitValue(ds[0]))
  }

  lemma {:induction false} FoldDigitsSnoc(ds: string, c: char, acc: nat)
    requires AllDigits(ds) && IsDigit(c)
    ensures AllDigits(ds + [c])
    ensures FoldDigits(ds + [c], acc) == FoldDigits(ds, acc) * 10 + DigitValue(c)
  {
    assert AllDigits(ds + [c]) by {
      forall i | 0 <= i < |ds + [c]| ensures IsDigit((ds + [c])[i]) {
        if i < |ds| { assert (ds + [c])[i] == ds[i]; }
      }
    }
    if ds != [] {
      assert (ds + [c])[0] == ds[0] && (ds + [c])[1..] == ds[1..] + [c];
      FoldDigitsSnoc(ds[1..], c, acc * 10 + DigitValue(ds[0]));
    } else {
      assert (ds + [c])[1..] == [];
    }
  }

  lemma {:induction false} FoldDigitsGrows(ds: string, acc: nat)
    requires AllDigits(ds)
    ensures FoldDigits(ds, acc) >= acc
    ensures ds != [] ==> FoldDigits(ds, acc) >= acc * 10 + DigitValue(ds[0])
  {
    if ds != [] {
      FoldDigitsGrows(ds[1..], acc * 10 + DigitValue(ds[0]));
    }
  }

  /** Reading back the numeral `to_string` writes gives the number: the round trip
      that makes positional ids decodable. */
  lemma {:induction false} FoldDecimalString(n: nat)
    ensures FoldDigits(DecimalString(n), 0) == n
  {
    if n >= 10 {
      FoldDecimalString(n / 10);
      FoldDigitsSnoc(DecimalString(n / 10), DigitChar(n % 10), 0);
    }
  }

  /** Distinct numbers have distinct numerals. */
  lemma DecimalStringInjective(a: nat, b: nat)
    requires DecimalString(a) == DecimalString(b)
    ensures a == b
  {
    FoldDecimalString(a);
    FoldDecimalString(b);
  }

  /** The kinds of `core::num::ParseIntError` that an unsigned parse can report. */
  datatype IntErrorKind = Empty | InvalidDigit | PosOverflow

  /** The `Display` text of a `ParseIntError`. */
  function IntErrorMessage(k: IntErrorKind): string
  {
    match k
    case Empty => "cannot parse integer from empty string"
    case InvalidDigit => "invalid digit found in string"
    case PosOverflow => "number too large to fit in target type"
  }

  /** The digit loop of `from_str_radix`: for each character, left to right, a
      non-digit is reported before the overflow of multiplying in that character. */
  function AccumulateU32(ds: string, acc: nat): (r: Result<nat, IntErrorKind>)
    requires acc < U32_LIMIT
    ensures r != Err(Empty)
    ensures r.Ok? ==> r.value < U32_LIMIT
    ensures r.Ok? <==> AllDigits(ds) && FoldDigits(ds, acc) < U32_LIMIT
    ensures r.Ok? ==> r.value == FoldDigits(ds, acc)
    decreases |ds|
  {
    if ds == [] then Ok(acc)
    else if !IsDigit(ds[0]) then
      Err(InvalidDigit)
    else if acc * 10 + DigitValue(ds[0]) >= U32_LIMIT then
      assert AllDigits(ds) ==> FoldDigits(ds, acc) >= U32_LIMIT by {
        if AllDigits(ds) { FoldDigitsGrows(ds, acc); }
      }
      Err(PosOverflow)
    else
      assert AllDigits(ds) <==> AllDigits(ds[1..]) by {
        if AllDigits(ds[1..]) {
          forall i | 0 <= i < |ds| ensures IsDigit(ds[i]) {
            if i > 0 { assert ds[i] == ds[1..][i - 1]; }
          }
        }
      }
      AccumulateU32(ds[1..], acc * 10 + DigitValue(ds[0]))
  }

  /** `s.parse::<u32>()`: an optional leading `+`, then one or more ASCII digits whose
      value fits in 32 bits. No whitespace is skipped; a lone sign is an invalid digit. */
  function ParseU32(s: string): (r: Result<nat, IntErrorKind>)
    ensures r.Ok? ==> r.value < U32_LIMIT
    // the value is that of the digits after the optional `+`, leading zeros included
    ensures r.Ok? ==>
              && s != []
              && var ds := if s[0] == '+' then s[1..] else s;
                 ds != [] && AllDigits(ds) && r.value == FoldDigits(ds, 0)
    ensures r == Err(Empty) <==> s == []
  {
    if s == [] then Err(Empty)
    else if (s[0] == '+' || s[0] == '-') && |s| == 1 then Err(InvalidDigit)
    else
      var ds := if s[0] == '+' then s[1..] else s;
      AccumulateU32(ds, 0)
  }

  /** Every `u32` survives `to_string` followed by `parse`. */
  lemma ParseDecimalString(n: nat)
    requires n < U32_LIMIT
    ensures ParseU32(DecimalString(n)) == Ok(n)
  {
    FoldDecimalString(n);
  }

  /** What `parse` accepts is exactly a sign-less or `+`-signed numeral of a number below 2^32. */
  lemma ParseU32Accepts(s: string)
    ensures ParseU32(s).Ok? <==>
      (exists ds :: (s == ds || s == "+" + ds) && ds != [] && AllDigits(ds) && FoldDigits(ds, 0) < U32_LIMIT)
  {
    if ParseU32(s).Ok? {
      var ds := if s[0] == '+' then s[1..] else s;
      assert s == ds || s == "+" + ds;
    }
  }
}
