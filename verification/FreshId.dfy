/** The numbered-suffix search that gives a brain an unused id. */
module FreshId {

  function Digit(d: nat): char
    requires d < 10
  {
    "0123456789"[d]
  }

  /** Decimal rendering of a natural number, most significant digit first. */
  function Decimal(n: nat): string {
    if n < 10 then [Digit(n)] else Decimal(n / 10) + [Digit(n % 10)]
  }

  /** What a string of decimal digits says. */
  function Reads(digits: string): int {
    if digits == "" then 0 else 10 * Reads(digits[..|digits| - 1]) + digits[|digits| - 1] as int - '0' as int
  }

  /** The rendering reads back, and is made of digits without a leading zero. */
  lemma {:induction false} DecimalReads(n: nat)
    ensures Reads(Decimal(n)) == n
    ensures forall i :: 0 <= i < |Decimal(n)| ==> '0' <= Decimal(n)[i] <= '9'
    ensures Decimal(n) != "" && (n > 0 ==> Decimal(n)[0] != '0')
  {
    if n < 10 {
      assert Decimal(n) == [Digit(n)] && [Digit(n)][..0] == "";
    } else {
      DecimalReads(n / 10);
      assert Decimal(n)[..|Decimal(n)| - 1] == Decimal(n / 10);
    }
  }

  /** `base_n`, the id tried for suffix `n`. */
  function Suffixed(base: string, n: nat): string {
    base + "_" + Decimal(n)
  }

  lemma {:induction false} DecimalInjective(m: nat, n: nat)
    requires Decimal(m) == Decimal(n)
    ensures m == n
  {
    var dm, dn := Decimal(m), Decimal(n);
    assert dm[|dm| - 1] == Digit(m % 10) && dn[|dn| - 1] == Digit(n % 10);
    if m >= 10 && n >= 10 {
      assert Decimal(m / 10) == dm[..|dm| - 1] == dn[..|dn| - 1] == Decimal(n / 10);
      DecimalInjective(m / 10, n / 10);
    } else {
      assert |dm| > 1 <==> m >= 10 by { DecimalNonEmpty(m / 10); }
      assert |dn| > 1 <==> n >= 10 by { DecimalNonEmpty(n / 10); }
    }
  }

  lemma {:induction false} DecimalNonEmpty(n: nat)
    ensures |Decimal(n)| > 0
  {
  }

  lemma {:induction false} SuffixedInjective(base: string, m: nat, n: nat)
    requires Suffixed(base, m) == Suffixed(base, n)
    ensures m == n
  {
    var k := |base| + 1;
    assert Decimal(m) == Suffixed(base, m)[k..];
    assert Decimal(n) == Suffixed(base, n)[k..];
    DecimalInjective(m, n);
  }

  /** The least suffix from `n` up whose id is unused. It exists because the set of
      used ids is finite and different suffixes render differently: each miss uses up
      one used id for good. */
  function FirstFree(base: string, used: set<string>, n: nat): (m: nat)
    ensures n <= m <= n + |used| && Suffixed(base, m) !in used
    ensures forall k :: n <= k < m ==> Suffixed(base, k) in used
    decreases |used|
  {
    var here := Suffixed(base, n);
    if here !in used then n
    else
      var m := FirstFree(base, used - {here}, n + 1);
      assert Suffixed(base, m) != here by {
        if Suffixed(base, m) == here { SuffixedInjective(base, m, n); }
      }
      m
  }

  function UniqueId(base: string, used: set<string>): (id: string)
    ensures id !in used
    ensures base !in used ==> id == base
    ensures base != "" ==> id != ""
  {
    if base !in used then base else Suffixed(base, FirstFree(base, used, 2))
  }

  /** The counting loop of the program; it stops at the least free suffix. */
  method UniqueBrainId(base: string, used: set<string>) returns (id: string)
    ensures id == UniqueId(base, used)
    ensures id !in used
    ensures base in used ==> exists n :: n >= 2 && id == Suffixed(base, n) && forall k :: 2 <= k < n ==>
        Suffixed(base, k) in used
  {
    if base !in used {
      return base;
    }
    var suffix := 2;
    while Suffixed(base, suffix) in used
      invariant 2 <= suffix <= FirstFree(base, used, 2)
      decreases FirstFree(base, used, 2) - suffix
    {
      suffix := suffix + 1;
    }
    id := Suffixed(base, suffix);
  }
}
