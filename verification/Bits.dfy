/** Bitwise arithmetic on unsigned integers of any width, and the masks the firmware builds on. */
module Bits {

  /** Bitwise and. */
  function And(x: nat, y: nat): (r: nat)
    ensures r <= x && r <= y
  {
    if x == 0 || y == 0 then 0
    else 2 * And(x / 2, y / 2) + (if x % 2 == 1 && y % 2 == 1 then 1 else 0)
  }

  function Power2(k: nat): (p: nat)
    ensures p >= 1
  {
    if k == 0 then 1 else 2 * Power2(k - 1)
  }

  /** A negative 32-bit difference seen as the unsigned number with the same bits. */
  function Unsigned32(d: int): (u: nat) { d % 0x1_0000_0000 }

  ghost predicate IsPower2(c: nat) { exists k: nat :: c == Power2(k) }

  lemma AndOfOdd(x: nat, y: nat)
    ensures And(x, 2 * y + 1) == 2 * And(x / 2, y) + x % 2
  {
    assert (2 * y + 1) / 2 == y;
  }

  /** Masking with a power of two less one is the remainder. */
  lemma {:induction false} MaskIsRemainder(x: nat, k: nat)
    ensures And(x, Power2(k) - 1) == x % Power2(k)
  {
    if k == 0 {
    } else {
      var half := Power2(k - 1);
      MaskIsRemainder(x / 2, k - 1);
      HalfRemainder(x, half);
      AndOfOdd(x, half - 1);
    }
  }

  lemma MaskedAs(x: nat, k: nat, r: nat)
    requires x % Power2(k) == r
    ensures And(x, Power2(k) - 1) == r
  {
    MaskIsRemainder(x, k);
  }

  lemma RemainderOfSmall(x: nat, c: nat)
    requires x < c
    ensures x % c == x
  {
  }

  lemma HalfRemainder(x: nat, c: nat)
    requires c >= 1
    ensures x % (2 * c) == 2 * ((x / 2) % c) + x % 2
  {
    var q, r := (x / 2) / c, (x / 2) % c;
    assert x / 2 == q * c + r;
    assert x == q * (2 * c) + (2 * r + x % 2);
    QuotientIsUnique(x, 2 * c, q, 2 * r + x % 2);
  }

  lemma MultipleGrows(m: int, c: int)
    requires m >= 1 && c >= 0
    ensures m * c >= c
  {
    assert m * c == (m - 1) * c + c;
  }

  /** The only multiple of `c` closer to zero than `c` is zero. */
  lemma SmallMultiple(m: int, c: int)
    requires c >= 0 && -c < m * c < c
    ensures m == 0
  {
    if m >= 1 {
      MultipleGrows(m, c);
    } else if m <= -1 {
      MultipleGrows(-m, c);
    }
  }

  lemma Distribute(a: int, b: int, c: int)
    ensures (a - b) * c == a * c - b * c
    ensures (a + b) * c == a * c + b * c
  {
  }

  lemma QuotientIsUnique(x: nat, c: nat, q: int, r: nat)
    requires r < c && x == q * c + r
    ensures x % c == r && x / c == q
  {
    var q1, r1 := x / c, x % c;
    assert x == q1 * c + r1;
    Distribute(q1, q, c);
    SmallMultiple(q1 - q, c);
  }

  /** The test the firmware makes of a capacity holds exactly for the powers of two. */
  lemma {:induction false} PowerOfTwoTest(c: nat)
    requires c >= 1
    ensures And(c, c - 1) == 0 <==> IsPower2(c)
  {
    if c == 1 {
      assert c == Power2(0);
    } else if c % 2 == 1 {
      assert (c - 1) / 2 == c / 2;
      AndItself(c / 2);
      forall k: nat
        ensures c != Power2(k)
      {
      }
    } else {
      assert (c - 1) / 2 == c / 2 - 1;
      PowerOfTwoTest(c / 2);
      if k: nat :| c / 2 == Power2(k) {
        assert c == Power2(k + 1);
      }
      if k: nat :| c == Power2(k) {
        assert k > 0 && c / 2 == Power2(k - 1);
      }
    }
  }

  lemma {:induction false} AndItself(x: nat)
    ensures And(x, x) == x
  {
    if x == 0 {
    } else {
      AndItself(x / 2);
    }
  }

  // ---------------------------------------------------------------------------
  // Positions in a circular buffer

  /** The position after `n` is the next slot, wrapping at the capacity. */
  lemma NextPosition(n: nat, c: nat)
    requires c >= 1
    ensures (n + 1) % c == if n % c + 1 == c then 0 else n % c + 1
    ensures (n % c + 1) % c == (n + 1) % c
  {
    var q, r := n / c, n % c;
    assert n == q * c + r;
    if r + 1 == c {
      assert (q + 1) * c == q * c + c;
      QuotientIsUnique(n + 1, c, q + 1, 0);
      QuotientIsUnique(r + 1, c, 1, 0);
    } else {
      QuotientIsUnique(n + 1, c, q, r + 1);
      RemainderOfSmall(r + 1, c);
    }
  }

  /** A whole turn later it is the same slot. */
  lemma TurnedPosition(n: nat, c: nat)
    requires c >= 1
    ensures (n + c) % c == n % c
  {
    var q, r := n / c, n % c;
    assert n == q * c + r;
    Distribute(q, -1, c);
    QuotientIsUnique(n + c, c, q + 1, r);
  }

  /** Positions less than a capacity apart are different slots. */
  lemma DistinctPositions(a: nat, b: nat, c: nat)
    requires a < b < a + c
    ensures a % c != b % c
  {
    if a % c == b % c {
      var p, q := a / c, b / c;
      assert a == p * c + a % c && b == q * c + b % c;
      Distribute(q, p, c);
      SmallMultiple(q - p, c);
    }
  }

  /** The masked difference of two positions is their distance. */
  lemma DistanceOfPositions(a: nat, b: nat, k: nat)
    requires a <= b < a + Power2(k) && k <= 32
    ensures And(Unsigned32(b % Power2(k) - a % Power2(k)), Power2(k) - 1) == b - a
  {
    PowerDividesTheWidth(a, b, k);
    MaskedAs(Unsigned32(b % Power2(k) - a % Power2(k)), k, b - a);
  }

  lemma PowerDividesTheWidth(a: nat, b: nat, k: nat)
    requires a <= b < a + Power2(k) && k <= 32
    ensures Unsigned32(b % Power2(k) - a % Power2(k)) % Power2(k) == b - a
  {
    PowerDivides(k, 32);
    Power32();
    var m: nat :| Power2(32) == m * Power2(k);
    WrappedDistance(a, b, Power2(k), m);
  }

  lemma WrappedDistance(a: nat, b: nat, c: nat, m: nat)
    requires a <= b < a + c && m * c == 0x1_0000_0000
    ensures Unsigned32(b % c - a % c) % c == b - a
  {
    var p, q := a / c, b / c;
    var ra, rb := a % c, b % c;
    assert a == p * c + ra && b == q * c + rb;
    if m >= 1 {
      MultipleGrows(m, c);
    }
    var t := if rb < ra then 1 else 0;
    WrappedDifference(rb - ra);
    Regroup(p, q, t, m, c);
    CongruentSmall(Unsigned32(rb - ra), b - a, q - p - t * m, c);
  }

  lemma Regroup(p: int, q: int, t: int, m: int, c: int)
    ensures (q - p - t * m) * c == q * c - p * c - t * (m * c)
  {
    Distribute(q, p, c);
    Distribute(q - p, t * m, c);
  }

  lemma WrappedDifference(d: int)
    requires -0x1_0000_0000 < d < 0x1_0000_0000
    ensures Unsigned32(d) == if d < 0 then d + 0x1_0000_0000 else d
  {
  }

  lemma CongruentSmall(x: nat, y: nat, s: int, c: nat)
    requires y < c && y == s * c + x
    ensures x % c == y
  {
    assert x == (-s) * c + y by {
      Distribute(0, s, c);
    }
    QuotientIsUnique(x, c, -s, y);
  }

  lemma {:induction false} PowerDivides(k: nat, n: nat)
    requires k <= n
    ensures exists m: nat :: Power2(n) == m * Power2(k)
  {
    if k == n {
      assert Power2(n) == 1 * Power2(k);
    } else {
      PowerDivides(k, n - 1);
      var m: nat :| Power2(n - 1) == m * Power2(k);
      assert Power2(n) == (2 * m) * Power2(k);
    }
  }

  lemma Power32()
    ensures Power2(32) == 0x1_0000_0000
  {
    assert Power2(8) == 256;
    assert Power2(16) == 65536;
    assert Power2(24) == 0x100_0000;
  }
}
