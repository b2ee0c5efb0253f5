/** Remainders by a variable modulus, for counters that wrap around. */
module Residue {

  /** The remainder by repeated subtraction. */
  function Res(m: nat, x: nat): nat
    requires m > 0
  {
    if x < m then x else Res(m, x - m)
  }

  lemma MulAtLeast(m: nat, d: int)
    requires d >= 1
    ensures m * d >= m
  {
  }

  lemma {:induction false} ResIsQuotientRemainder(m: nat, x: nat) returns (q: nat)
    requires m > 0
    ensures x == m * q + Res(m, x) && Res(m, x) < m
    decreases x
  {
    if x < m {
      q := 0;
    } else {
      var p := ResIsQuotientRemainder(m, x - m);
      q := p + 1;
      assert m * q == m * p + m;
    }
  }

  lemma UniqueRemainder(m: nat, q: int, r: nat, q': int, r': nat)
    requires r < m && r' < m && m * q + r == m * q' + r'
    ensures r == r'
  {
    assert m * (q - q') == m * q - m * q' && m * (q' - q) == m * q' - m * q;
    if q > q' { MulAtLeast(m, q - q'); }
    if q < q' { MulAtLeast(m, q' - q); }
  }

  lemma ResIsMod(m: nat, x: nat)
    requires m > 0
    ensures Res(m, x) == x % m
  {
    var q := ResIsQuotientRemainder(m, x);
    UniqueRemainder(m, q, Res(m, x), x / m, x % m);
  }

  lemma {:induction false} ResStep(m: nat, x: nat)
    requires m > 0
    ensures Res(m, x + 1) == if Res(m, x) + 1 == m then 0 else Res(m, x) + 1
    decreases x
  {
    if x + 1 > m { ResStep(m, x - m); }
  }

  /** Incrementing a wrapping counter. */
  lemma NextResidue(m: nat, x: nat)
    requires m > 0
    ensures (x % m + 1) % m == (x + 1) % m
    ensures x % m < m
  {
    ResIsMod(m, x);
    ResIsMod(m, x + 1);
    ResIsMod(m, x % m + 1);
    ResStep(m, x);
    var q := ResIsQuotientRemainder(m, x);
  }

  lemma {:induction false} SameRes(m: nat, x: nat, y: nat)
    requires m > 0 && x <= y < x + m && Res(m, x) == Res(m, y)
    ensures x == y
    decreases x
  {
    if x >= m { SameRes(m, x - m, y - m); }
  }

  /** Two numbers less than `m` apart with the same remainder are equal. */
  lemma SameResidue(m: nat, x: nat, y: nat)
    requires m > 0 && x <= y < x + m && x % m == y % m
    ensures x == y
  {
    ResIsMod(m, x);
    ResIsMod(m, y);
    SameRes(m, x, y);
  }

  lemma {:induction false} ResAdd(m: nat, a: nat, b: nat)
    requires m > 0
    ensures Res(m, Res(m, a) + b) == Res(m, a + b)
    decreases a
  {
    if a >= m { ResAdd(m, a - m, b); }
  }

  /** A remainder may be taken before or after adding. */
  lemma AddResidue(m: nat, a: nat, b: nat)
    requires m > 0
    ensures (a % m + b) % m == (a + b) % m
  {
    ResIsMod(m, a);
    ResIsMod(m, a % m + b);
    ResIsMod(m, a + b);
    ResAdd(m, a, b);
  }

  lemma ModBound(m: nat, a: nat)
    requires m > 0
    ensures 0 <= a % m < m
  {}
}
