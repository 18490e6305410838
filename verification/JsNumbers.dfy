/** Non-negative JavaScript numbers as text: `${n}` and what `Number(...)` must read back. */
module JsNumbers {
  import opened Wrappers

  /** What `Number(text)` keeps after the integer and sign tests; `None` for the rest. */
  type IdReader = string -> Option<nat>

  /** Largest integer a JavaScript number holds exactly. */
  const MAX_SAFE_INTEGER: nat := 0x1F_FFFF_FFFF_FFFF

  function Digit(d: nat): char
    requires d < 10
  {
    ('0' as int + d) as char
  }

  predicate IsDigit(c: char) {
    '0' <= c <= '9'
  }

  /** `${n}` for an exact non-negative integer. */
  function Decimal(n: nat): string {
    if n < 10 then [Digit(n)] else Decimal(n / 10) + [Digit(n % 10)]
  }

  /** What the round trips need of `Number`: it reads back the exact integers. */
  ghost predicate ReadsDecimals(num: IdReader) {
    forall n: nat | n <= MAX_SAFE_INTEGER :: num(Decimal(n)) == Some(n)
  }

  /** A reader that meets `ReadsDecimals`: digits only, most significant first. */
  function ReadDecimal(s: string): Option<nat> {
    if s == "" || !IsDigit(s[|s| - 1]) then None
    else
      var last := s[|s| - 1] as int - '0' as int;
      if |s| == 1 then Some(last)
      else
        var high := ReadDecimal(s[..|s| - 1]);
        if high.None? then None else Some(10 * high.value + last)
  }

  lemma {:induction false} DecimalsReadBack(n: nat)
    ensures Decimal(n) != "" && ReadDecimal(Decimal(n)) == Some(n)
  {
    if n >= 10 {
      DecimalsReadBack(n / 10);
      assert Decimal(n)[..|Decimal(n)| - 1] == Decimal(n / 10);
    }
  }

  lemma SomeReaderReadsDecimals()
    ensures ReadsDecimals(ReadDecimal)
  {
    forall n: nat ensures ReadDecimal(Decimal(n)) == Some(n) {
      DecimalsReadBack(n);
    }
  }

  /** Ten digits, and each further one on the right stands for a tenth of what the one before it does. */
  lemma DecimalIs(q: nat, d: nat)
    requires d < 10
    ensures Decimal(10 * q + d) == (if q == 0 then "" else Decimal(q)) + ["0123456789"[d]]
  {
    assert (10 * q + d) / 10 == q && (10 * q + d) % 10 == d;
  }
}
