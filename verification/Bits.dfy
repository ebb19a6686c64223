/** Bit operations on unbounded naturals: powers of two, `&` and `^`, and the
    facts that let `counter & (Capacity - 1)` be read as a remainder. */
module Bits {

  function Pow2(k: nat): (r: nat)
    ensures r >= 1
  {
    if k == 0 then 1 else 2 * Pow2(k - 1)
  }

  function And(x: nat, y: nat): nat {
    if x == 0 || y == 0 then 0 else (x % 2) * (y % 2) + 2 * And(x / 2, y / 2)
  }

  function Xor(x: nat, y: nat): nat
    decreases x + y
  {
    if x == 0 && y == 0 then 0 else (x % 2 + y % 2) % 2 + 2 * Xor(x / 2, y / 2)
  }

  /** A non-zero multiple of `n` is at least `n` away from zero. */
  lemma Multiple(d: int, n: int)
    requires n > 0
    ensures d >= 1 ==> d * n >= n
    ensures d <= -1 ==> d * n <= -n
  {
    if d >= 1 {
      assert d * n == (d - 1) * n + n;
    } else if d <= -1 {
      assert d * n == (d + 1) * n - n;
      assert (d + 1) * n <= 0;
    }
  }

  lemma ModUnique(x: int, n: int, q: int, r: int)
    requires 0 <= r < n && x == q * n + r
    ensures x % n == r && x / n == q
  {
    var d := x / n - q;
    var x0 := x % n;
    assert d * n == r - x0 by {
      assert x == n * (x / n) + x0;
      assert d * n == n * (x / n) - q * n;
    }
    Multiple(d, n);
  }

  /** A remainder modulo a multiple of `n` determines the remainder modulo `n`. */
  lemma ModMod(x: int, n: int, f: int)
    requires n > 0 && f > 0
    ensures n * f > 0
    ensures (x % (n * f)) % n == x % n
  {
    var m := n * f;
    var q, r := x / m, x % m;
    assert x == q * m + r;
    assert q * m == (q * f) * n by {
      assert q * m == q * (n * f) == q * (f * n) == (q * f) * n;
    }
    var a, b := r / n, r % n;
    assert x == (q * f + a) * n + b by {
      assert (q * f + a) * n == (q * f) * n + a * n;
    }
    ModUnique(x, n, q * f + a, b);
  }

  /** Distinct positions less than `n` apart have distinct remainders. */
  lemma ModDistinct(i: int, j: int, n: int)
    requires n > 0 && i % n == j % n
    requires -n < i - j < n
    ensures i == j
  {
    var d := i / n - j / n;
    assert i - j == d * n;
    Multiple(d, n);
  }

  /** Adding one full turn does not change the remainder. */
  lemma ModTurn(i: int, n: int)
    requires n > 0
    ensures (i + n) % n == i % n
  {
    assert i + n == (i / n + 1) * n + i % n;
    ModUnique(i + n, n, i / n + 1, i % n);
  }

  /** Adding to a reduced counter agrees with reducing the sum. */
  lemma ModSum(m: int, j: int, n: int)
    requires n > 0
    ensures (m % n + j) % n == (m + j) % n
  {
    var a := m / n;
    var q, r := (m % n + j) / n, (m % n + j) % n;
    assert m == a * n + m % n;
    assert m + j == (a + q) * n + r by {
      assert (a + q) * n == a * n + q * n;
    }
    ModUnique(m + j, n, a + q, r);
  }

  /** Reducing the difference of two reduced counters gives their distance. */
  lemma ModDistance(m: nat, d: nat, n: nat)
    requires d < n
    ensures ((m + d) % n - m % n) % n == d
    ensures (m + d) % n == m % n <==> d == 0
  {
    var a, b := (m + d) / n, m / n;
    assert (m + d) % n == m + d - a * n;
    assert m % n == m - b * n;
    assert (m + d) % n - m % n == (b - a) * n + d by {
      assert (b - a) * n == b * n - a * n;
    }
    ModUnique((m + d) % n - m % n, n, b - a, d);
    if (m + d) % n == m % n {
      ModDistinct(m + d, m, n);
    }
  }

  /** Reducing before a subtraction does not change the reduced difference. */
  lemma ModDifference(a: int, b: int, n: int)
    requires n > 0
    ensures (a % n - b % n) % n == (a - b) % n
  {
    ModSum(a, -(b % n), n);
    var q, d, r := b / n, (a - b) / n, (a - b) % n;
    assert a - b % n == (d + q) * n + r by {
      assert b == q * n + b % n && a - b == d * n + r;
      assert (d + q) * n == d * n + q * n;
    }
    ModUnique(a - b % n, n, d + q, r);
  }

  /** A number less than one turn from zero that is reduced to zero is zero. */
  lemma SmallMultiple(x: int, n: int)
    requires n > 0 && -n < x < n
    ensures x % n == 0 <==> x == 0
  {
    if x % n == 0 {
      ModDistinct(x, 0, n);
    }
  }

  /** What the reduced difference and the equality of two reduced counters tell about the
      counters. */
  lemma Differences(a: int, b: int, n: int)
    requires n > 0
    ensures (a % n - b % n) % n == (a - b) % n
    ensures (a % n - b % n) % n == a - b <==> 0 <= a - b < n
    ensures a % n == b % n <==> (a - b) % n == 0
  {
    ModDifference(a, b, n);
    FromRemainders(a % n, b % n, a - b, n);
  }

  lemma FromRemainders(x: nat, y: nat, d: int, n: nat)
    requires x < n && y < n && (x - y) % n == d % n
    ensures (x - y) % n == d <==> 0 <= d < n
    ensures x == y <==> d % n == 0
  {
    SmallMultiple(x - y, n);
  }

  /** The place `j` steps after `m` on a circle of `n` places. */
  function Place(n: nat, m: nat, j: nat): (r: nat)
    requires n > 0
    ensures r < n
  {
    (m + j) % n
  }

  lemma PlaceSuccessor(n: nat, m: nat, j: nat)
    requires n > 0
    ensures Place(n, Place(n, m, j), 1) == Place(n, m, j + 1)
  {
    ModSum(m + j, 1, n);
  }

  /** Writing one place of a circle leaves the others alone. */
  lemma OnePlace<T>(n: nat, m: nat, slots: seq<T>, i: nat, value: T)
    requires |slots| == n && i < n
    ensures forall j: nat {:trigger Place(n, m, j)} | j < n ::
              slots[Place(n, m, i) := value][Place(n, m, j)] == if j == i then value else slots[Place(n, m, j)]
  {
    forall j: nat {:trigger Place(n, m, j)} | j < n
      ensures slots[Place(n, m, i) := value][Place(n, m, j)] == if j == i then value else slots[Place(n, m, j)]
    {
      if j != i && Place(n, m, j) == Place(n, m, i) {
        ModDistinct(m + j, m + i, n);
      }
    }
  }

  /** The circle seen from the next place: what was first is now last. */
  lemma TurnPlace(n: nat, m: nat, j: nat)
    requires j < n
    ensures Place(n, m + 1, j) == if j + 1 < n then Place(n, m, j + 1) else Place(n, m, 0)
  {
    if j + 1 == n {
      ModTurn(m, n);
    }
  }

  lemma Halve(a: int, b: int)
    requires 0 <= b < 2
    ensures (2 * a + b) / 2 == a && (2 * a + b) % 2 == b
  {
  }

  lemma ModDouble(x: nat, n: nat)
    requires n > 0
    ensures x % (2 * n) == x % 2 + 2 * ((x / 2) % n)
  {
    var h := x / 2;
    var q, r := h / n, h % n;
    assert h == q * n + r;
    assert q * (2 * n) == 2 * (q * n);
    ModUnique(x, 2 * n, q, 2 * r + x % 2);
  }

  lemma {:induction false} MaskIsMod(x: nat, k: nat)
    ensures And(x, Pow2(k) - 1) == x % Pow2(k)
    decreases k
  {
    if k == 0 || x == 0 {
    } else {
      var n := Pow2(k - 1);
      var mask := Pow2(k) - 1;
      Halve(n - 1, 1);
      assert mask / 2 == n - 1 && mask % 2 == 1;
      MaskIsMod(x / 2, k - 1);
      ModDouble(x, n);
      assert And(x, mask) == (x % 2) * (mask % 2) + 2 * And(x / 2, mask / 2);
    }
  }

  lemma {:induction false} Pow2Add(a: nat, b: nat)
    ensures Pow2(a + b) == Pow2(a) * Pow2(b)
  {
    if a == 0 {
    } else {
      Pow2Add(a - 1, b);
      assert 2 * (Pow2(a - 1) * Pow2(b)) == (2 * Pow2(a - 1)) * Pow2(b);
    }
  }

  /** `^` works bit by bit: on the last bit and on the rest. */
  lemma XorParts(x: nat, y: nat)
    ensures Xor(x, y) % 2 == (x % 2 + y % 2) % 2
    ensures Xor(x, y) / 2 == Xor(x / 2, y / 2)
  {
    if x != 0 || y != 0 {
      Halve(Xor(x / 2, y / 2), (x % 2 + y % 2) % 2);
    }
  }

  lemma FromParts(x: nat, y: nat, z: nat, v: nat)
    requires z % 2 == (x % 2 + y % 2) % 2
    requires v % 2 == (z % 2 + y % 2) % 2 && v / 2 == x / 2
    ensures v == x
  {
  }

  /** `^` undoes itself. */
  lemma {:induction false} XorInvolutive(x: nat, y: nat)
    ensures Xor(Xor(x, y), y) == x
    decreases x + y
  {
    if x == 0 && y == 0 {
    } else {
      XorInvolutive(x / 2, y / 2);
      XorParts(x, y);
      XorParts(Xor(x, y), y);
      FromParts(x, y, Xor(x, y), Xor(Xor(x, y), y));
    }
  }

  lemma {:induction false} XorComm(x: nat, y: nat)
    ensures Xor(x, y) == Xor(y, x)
    decreases x + y
  {
    if x == 0 && y == 0 {
    } else {
      XorComm(x / 2, y / 2);
    }
  }

  lemma {:induction false} XorBounded(x: nat, y: nat, k: nat)
    requires x < Pow2(k) && y < Pow2(k)
    ensures Xor(x, y) < Pow2(k)
    decreases k
  {
    if k == 0 || (x == 0 && y == 0) {
    } else {
      XorBounded(x / 2, y / 2, k - 1);
    }
  }
}
