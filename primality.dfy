/**
  Trial-division primality test of the prime worker (`isPrime`) and the
  mathematical notions it is checked against.
*/
module Primality {

  /** d is a (non-zero) divisor of n. */
  predicate Divides(d: int, n: int)
  {
    d != 0 && n % d == 0
  }

  /** No d with lo <= d < hi divides n. */
  ghost predicate NoDivisorIn(n: int, lo: int, hi: int)
  {
    forall d :: lo <= d < hi ==> !Divides(d, n)
  }

  /** The mathematical definition: n >= 2 and n has no divisor strictly between 1 and n. */
  ghost predicate IsPrimeNumber(n: int)
  {
    n >= 2 && NoDivisorIn(n, 2, n)
  }

  /** The primes p with 2 <= p < max, in the order a scan upwards from 2 meets them. */
  ghost function PrimesBelow(max: int): seq<int>
    decreases max
  {
    if max <= 2 then []
    else PrimesBelow(max - 1) + (if IsPrimeNumber(max - 1) then [max - 1] else [])
  }

  /** A non-zero multiple of a positive k is at least k in absolute value. */
  lemma MultipleMagnitude(k: int, x: int)
    requires k > 0
    ensures x >= 1 ==> k * x >= k
    ensures x <= -1 ==> k * x <= -k
  {
  }

  /** Products of non-negative factors grow with their factors. */
  lemma ProductMonotone(a: int, b: int, c: int, e: int)
    requires 0 <= a && 0 <= c
    ensures a <= b && c <= e ==> a * c <= b * e
  {
  }

  /** A multiple of a positive k leaves no remainder modulo k. */
  lemma MultipleDivides(k: int, m: int)
    requires k > 0
    ensures Divides(k, k * m)
  {
    var q, r := (k * m) / k, (k * m) % k;
    assert k * m == k * q + r && 0 <= r < k;
    assert k * (m - q) == r;
    MultipleMagnitude(k, m - q);
  }

  /** Divisibility is transitive (for positive divisors). */
  lemma DividesTransitive(k: int, d: int, n: int)
    requires k > 0 && d > 0
    requires Divides(k, d) && Divides(d, n)
    ensures Divides(k, n)
  {
    var a, b := d / k, n / d;
    assert d == k * a;
    assert n == d * b;
    assert n == k * (a * b);
    MultipleDivides(k, a * b);
  }

  /**
    One round of the trial-division loop: when n is odd, not a multiple of 3,
    and neither i nor i + 2 divides it (i = 5 mod 6), the divisor-free range
    [2, i) extends to [2, i + 6). The other candidates i+1, i+3, i+4 and i+5
    are multiples of 2 or 3.
  */
  lemma {:induction false} RoundExtendsRange(n: int, i: int)
    requires i >= 5 && i % 6 == 5
    requires !Divides(2, n) && !Divides(3, n)
    requires !Divides(i, n) && !Divides(i + 2, n)
    requires NoDivisorIn(n, 2, i)
    ensures NoDivisorIn(n, 2, i + 6)
  {
    forall d | 2 <= d < i + 6
      ensures !Divides(d, n)
    {
      if i <= d && d != i && d != i + 2 && Divides(d, n) {
        if d == i + 1 || d == i + 3 || d == i + 5 {
          assert Divides(2, d);
          DividesTransitive(2, d, n);
        } else {
          assert d == i + 4 && Divides(3, d);
          DividesTransitive(3, d, n);
        }
      }
    }
  }

  /**
    A divisor d >= i of n, where i * i > n, has a cofactor n / d that is
    itself a divisor of n lying in [2, i).
  */
  lemma CofactorIsSmall(n: int, d: int, i: int)
    requires n >= 2 && 2 <= d < n && Divides(d, n)
    requires i >= 2 && i * i > n && i <= d
    ensures 2 <= n / d < i && Divides(n / d, n)
  {
    var q := n / d;
    assert n == d * q;
    MultipleMagnitude(d, q - 1);
    ProductMonotone(i, d, i, q);
    MultipleDivides(q, d);
    assert d * q == q * d;
  }

  /**
    Once i * i exceeds n, a divisor-free range [2, i) means n is prime: a
    divisor d >= i would have a cofactor below i.
  */
  lemma {:induction false} SquareBoundSuffices(n: int, i: int)
    requires n >= 2 && i >= 2 && i * i > n
    requires NoDivisorIn(n, 2, i)
    ensures IsPrimeNumber(n)
  {
    forall d | 2 <= d < n
      ensures !Divides(d, n)
    {
      if i <= d && Divides(d, n) {
        CofactorIsSmall(n, d, i);
        assert false;
      }
    }
  }

  /**
    isPrime(n): rejects n <= 1, accepts 2 and 3, rejects multiples of 2 and 3,
    then tries the divisors i and i + 2 for i = 5, 11, 17, ... while i * i <= n.
  */
  method IsPrime(n: int) returns (b: bool)
    ensures b <==> IsPrimeNumber(n)
  {
    if n <= 1 {
      return false;
    }
    if n <= 3 {
      assert NoDivisorIn(n, 2, n) by {
        forall d | 2 <= d < n ensures !Divides(d, n) {
          assert d == 2 && n == 3;
        }
      }
      return true;
    }
    if n % 2 == 0 || n % 3 == 0 {
      assert Divides(2, n) || Divides(3, n);
      return false;
    }
    var i := 5;
    assert NoDivisorIn(n, 2, 5) by {
      forall d | 2 <= d < 5 ensures !Divides(d, n) {
        if d == 4 && Divides(4, n) {
          DividesTransitive(2, 4, n);
        }
      }
    }
    while i * i <= n
      invariant i >= 5 && i % 6 == 5
      invariant NoDivisorIn(n, 2, i)
      decreases n - i * i
    {
      assert i < 5 * i <= i * i <= n;
      if n % i == 0 || n % (i + 2) == 0 {
        assert Divides(i, n) || Divides(i + 2, n);
        return false;
      }
      RoundExtendsRange(n, i);
      assert (i + 6) * (i + 6) == i * i + 12 * i + 36;
      i := i + 6;
    }
    SquareBoundSuffices(n, i);
    return true;
  }

  /** Every element of PrimesBelow(max) is a prime below max, and every such prime occurs in it. */
  lemma {:induction false} PrimesBelowMembers(max: int)
    ensures forall p :: p in PrimesBelow(max) <==> 2 <= p < max && IsPrimeNumber(p)
    decreases max
  {
    if max > 2 {
      PrimesBelowMembers(max - 1);
    }
  }

  /** PrimesBelow(max) is strictly ascending, hence free of duplicates. */
  lemma {:induction false} PrimesBelowAscending(max: int)
    ensures forall j, k :: 0 <= j < k < |PrimesBelow(max)| ==> PrimesBelow(max)[j] < PrimesBelow(max)[k]
    decreases max
  {
    if max > 2 {
      PrimesBelowAscending(max - 1);
      PrimesBelowMembers(max - 1);
      var s := PrimesBelow(max - 1);
      assert forall j :: 0 <= j < |s| ==> s[j] in s;
    }
  }

  /** No bound of 2 or less admits a prime. */
  lemma SmallBoundHasNoPrimes(max: int)
    requires max <= 2
    ensures PrimesBelow(max) == []
  {
  }

  /** The primes below 10 are 2, 3, 5 and 7. */
  lemma PrimesBelowTen()
    ensures PrimesBelow(10) == [2, 3, 5, 7]
  {
    assert Divides(2, 4) && Divides(2, 6) && Divides(2, 8) && Divides(3, 9);
    forall n, d | n in {2, 3, 5, 7} && 2 <= d < n
      ensures !Divides(d, n)
    {
      assert d in {2, 3, 4, 5, 6};
    }
    assert IsPrimeNumber(2) && IsPrimeNumber(3) && IsPrimeNumber(5) && IsPrimeNumber(7);
  }
}
