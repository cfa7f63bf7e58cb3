/** Decimal text: utils_parse_u64_range of src/utils.c, and what "%llu" and "%u" print. */
module Decimal {
  import opened Bytes

  const ZERO: byte := 48
  const NINE: byte := 57
  const U64_MAX: nat := 0xFFFF_FFFF_FFFF_FFFF
  const U32_MAX: nat := 0xFFFF_FFFF

  predicate AllDigits(s: Bytes) {
    forall i :: 0 <= i < |s| ==> ZERO <= s[i] <= NINE
  }

  /** The mathematical value of a digit string. */
  function Value(s: Bytes): nat
    requires AllDigits(s)
  {
    if s == [] then 0 else 10 * Value(s[..|s| - 1]) + (s[|s| - 1] - ZERO)
  }

  /** What a parse of s must answer. */
  function ParseU64(s: Bytes): Option<u64> {
    if s != [] && AllDigits(s) && Value(s) <= U64_MAX then Some(Value(s)) else None
  }

  lemma {:induction false} ValueOfPrefix(s: Bytes, k: nat)
    requires AllDigits(s) && k <= |s|
    ensures Value(s[..k]) <= Value(s)
    decreases |s|
  {
    if k < |s| {
      ValueOfPrefix(s[..|s| - 1], k);
      assert s[..|s| - 1][..k] == s[..k];
    } else {
      assert s[..k] == s;
    }
  }

  /** The accumulating loop, with its two early exits, decides exactly ParseU64. */
  method ParseU64Range(text: Bytes, start: nat, end: nat) returns (r: Option<u64>)
    requires start <= end <= |text|
    ensures r.Some? <==> start < end && AllDigits(text[start..end]) && Value(text[start..end]) <= U64_MAX
    ensures r.Some? ==> r.value == Value(text[start..end])
    ensures r == ParseU64(text[start..end])
  {
    if start == end {
      return None;
    }
    ghost var s := text[start..end];
    var v: u64 := 0;
    var p := start;
    while p < end
      invariant start <= p <= end
      invariant AllDigits(s[..p - start]) && v == Value(s[..p - start])
    {
      if text[p] < ZERO || text[p] > NINE {
        assert s[p - start] == text[p];
        return None;
      }
      var digit: int := text[p] - ZERO;
      assert s[..p + 1 - start] == s[..p - start] + [text[p]];
      assert s[..p + 1 - start][..p - start] == s[..p - start];
      if v > (U64_MAX - digit) / 10 {
        if AllDigits(s) {
          ValueOfPrefix(s, p + 1 - start);
        }
        return None;
      }
      v := v * 10 + digit;
      p := p + 1;
    }
    assert s[..end - start] == s;
    return Some(v);
  }

  /** What printf writes for an unsigned number. */
  function Digits(n: nat): (s: Bytes)
    ensures s != []
  {
    if n < 10 then [ZERO + n] else Digits(n / 10) + [ZERO + n % 10]
  }

  lemma {:induction false} DigitsValue(n: nat)
    ensures AllDigits(Digits(n)) && Value(Digits(n)) == n
  {
    var s := Digits(n);
    if n < 10 {
      assert s[..0] == [];
    } else {
      DigitsValue(n / 10);
      assert s[..|s| - 1] == Digits(n / 10);
    }
  }

  /** Printing a u64 and parsing it back is the identity. */
  lemma PrintThenParse(n: u64)
    ensures ParseU64(Digits(n)) == Some(n)
    ensures NulFree(Digits(n))
  {
    DigitsValue(n);
  }

  lemma DigitsInjective(m: nat, n: nat)
    requires Digits(m) == Digits(n)
    ensures m == n
  {
    DigitsValue(m);
    DigitsValue(n);
  }

  /** A number below 10^k prints in at most k digits. */
  lemma {:induction false} DigitsLength(n: nat, k: nat)
    requires k >= 1 && n < Pow10(k)
    ensures |Digits(n)| <= k
  {
    if n >= 10 {
      assert Pow10(k) == 10 * Pow10(k - 1);
      DigitsLength(n / 10, k - 1);
    }
  }

  function Pow10(k: nat): (p: nat)
    ensures p >= 1
  {
    if k == 0 then 1 else 10 * Pow10(k - 1)
  }
}
