/** Quotients and remainders one step apart: what going round in a circle needs. */
module Division {

  lemma NextQuotient(x: nat, p: nat)
    requires 0 < p
    ensures (x + 1) % p == (if x % p == p - 1 then 0 else x % p + 1)
    ensures (x + 1) / p == x / p + (if x % p == p - 1 then 1 else 0)
  {
    var d, r := x / p, x % p;
    assert x == d * p + r;
    if r == p - 1 {
      assert x + 1 == (d + 1) * p;
      Quotient(x + 1, p, d + 1, 0);
    } else {
      Quotient(x + 1, p, d, r + 1);
    }
  }

  lemma Quotient(x: nat, p: nat, d: nat, r: nat)
    requires 0 < p && r < p && x == d * p + r
    ensures x / p == d && x % p == r
  {
    var e := x / p - d;
    assert e * p == r - x % p;
    if e != 0 {
      AtLeastOne(e, p);
    }
  }

  lemma AtLeastOne(e: int, p: int)
    requires e != 0 && 0 <= p
    ensures e * p >= p || e * p <= -p
  {
    if 0 < e {
      assert (e - 1) * p >= 0;
    } else {
      assert (-1 - e) * p >= 0;
    }
  }

  /** Among m numbers in a row each residue occurs once. */
  lemma ResidueOnce(from: nat, c: nat, m: nat) returns (k: nat)
    requires c < m
    ensures from <= k < from + m && k % m == c
    ensures forall x: nat :: from <= x < from + m && x % m == c ==> x == k
  {
    var q, r := from / m, from % m;
    assert from == q * m + r;
    if r <= c {
      k := from + (c - r);
      Quotient(k, m, q, c);
    } else {
      k := from + (m - r) + c;
      assert k == (q + 1) * m + c;
      Quotient(k, m, q + 1, c);
    }
    forall x: nat | from <= x < from + m && x % m == c
      ensures x == k
    {
      SameResidue(x, k, m);
    }
  }

  lemma SameResidue(x: nat, k: nat, m: nat)
    requires 0 < m && x % m == k % m && x < k + m && k < x + m
    ensures x == k
  {
    var e := x / m - k / m;
    assert e * m == x - k;
    if e != 0 {
      AtLeastOne(e, m);
    }
  }

  /** A point first in the window of size p at i, moved by d windows, stays in the m windows from i on
      exactly if 0 <= d < m. */
  lemma Window(i: int, first: int, p: int, d: int, m: int)
    requires i <= first < i + p
    ensures i <= first + d * p < i + m * p <==> 0 <= d < m
  {
    if d < 0 {
      NonNegative(-1 - d, p);
      assert (-1 - d) * p == -p - d * p;
    } else if d < m {
      NonNegative(d, p);
      NonNegative(m - 1 - d, p);
      assert (m - 1 - d) * p == m * p - p - d * p;
    } else {
      NonNegative(d - m, p);
      assert (d - m) * p == d * p - m * p;
    }
  }

  lemma WindowAt(i: int, w: int, p: int, a: int, k: int, m: int)
    requires i <= w + a * p < i + p
    ensures i <= w + k * p < i + m * p <==> a <= k < a + m
  {
    var first := w + a * p;
    var product := (k - a) * p;
    assert w + k * p == first + product;
    Window(i, first, p, k - a, m);
  }

  lemma NonNegative(a: int, b: int)
    requires 0 <= a && 0 <= b
    ensures 0 <= a * b
  {
  }
}
