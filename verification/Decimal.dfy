/** Decimal numerals: `u64::to_string` and `str::parse::<u64>`. */
module Decimal {
  import opened Wrappers
  import opened JsonValues

  predicate IsDigit(c: char) {
    '0' <= c <= '9'
  }

  function DigitChar(d: nat): (c: char)
    requires d < 10
    ensures IsDigit(c) && DigitValue(c) == d
  {
    '0' + d as char
  }

  function DigitValue(c: char): nat
    requires IsDigit(c)
  {
    (c - '0') as nat
  }

  function Show(n: nat): (s: string) {
    if n < 10 then [DigitChar(n)] else Show(n / 10) + [DigitChar(n % 10)]
  }

  // The value of a string of digits, whatever its leading zeros.
  function Value(s: string): nat
    requires forall c :: c in s ==> IsDigit(c)
  {
    if s == [] then 0 else 10 * Value(s[..|s| - 1]) + DigitValue(s[|s| - 1])
  }

  // Rust accepts one leading plus sign and any number of leading zeros.
  function ParseU64(s: string): Option<nat> {
    var digits := if |s| > 0 && s[0] == '+' then s[1..] else s;
    if digits == [] || exists c :: c in digits && !IsDigit(c) then None
    else if Value(digits) >= U64_LIMIT then None
    else Some(Value(digits))
  }

  lemma {:induction false} ShowIsNumeral(n: nat)
    ensures Show(n) != []
    ensures forall c :: c in Show(n) ==> IsDigit(c)
    ensures Value(Show(n)) == n
  {
    if n >= 10 {
      ShowIsNumeral(n / 10);
      var s := Show(n);
      assert s[..|s| - 1] == Show(n / 10);
    } else {
      assert Show(n)[..0] == [];
    }
  }

  /** Parsing undoes printing for every 64-bit value, and takes no greater one. */
  lemma ParseShow(n: nat)
    ensures ParseU64(Show(n)) == if n < U64_LIMIT then Some(n) else None
  {
    ShowIsNumeral(n);
    assert IsDigit(Show(n)[0]);
  }

  lemma ParseBounded(s: string)
    ensures ParseU64(s).Some? ==> ParseU64(s).value < U64_LIMIT
  {
  }

  // The number of characters of a numeral.
  function Width(n: nat): (w: nat)
    ensures w >= 1
  {
    if n < 10 then 1 else 1 + Width(n / 10)
  }

  lemma {:induction false} ShowWidth(n: nat)
    ensures |Show(n)| == Width(n)
  {
    if n >= 10 {
      ShowWidth(n / 10);
    }
  }
}
