/** Unsigned machine words of a given width: wrap-around, masks and alignment. */
module Words {
  function Pow2(n: nat): (p: nat)
    ensures p > 0
  {
    if n == 0 then 1 else 2 * Pow2(n - 1)
  }

  /** Bitwise and. */
  function And(x: nat, y: nat): nat {
    if x == 0 || y == 0 then 0 else 2 * And(x / 2, y / 2) + (x % 2) * (y % 2)
  }

  /** Bitwise complement in words of n bits. */
  function Not(n: nat, x: nat): nat
    requires x < Pow2(n)
  {
    Pow2(n) - 1 - x
  }

  /** The bit trick for powers of two. */
  predicate IsPowerOfTwo(x: nat) {
    x != 0 && And(x, x - 1) == 0
  }

  /** The least multiple of a that is at least x. */
  function RoundUp(x: nat, a: nat): (y: nat)
    requires a > 0
    ensures x <= y < x + a && y % a == 0
  {
    RoundUpMultiple(x, a);
    if x % a == 0 then x else x - x % a + a
  }

  lemma RoundUpMultiple(x: nat, a: nat)
    requires a > 0
    ensures x >= x % a && (x - x % a) % a == 0 && (x - x % a + a) % a == 0
  {
    var q := x / a;
    assert x - x % a == q * a;
    MultipleMod(q, a);
    MultipleMod(q + 1, a);
    assert q * a + a == (q + 1) * a;
  }

  lemma MultipleMod(q: nat, a: nat)
    requires a > 0
    ensures (q * a) % a == 0 && (q * a) / a == q
  {
    DivisionUnique(q * a, a, q, 0);
  }

  /** Quotient and remainder are unique. */
  lemma DivisionUnique(x: int, a: int, q: int, r: int)
    requires a > 0 && x == q * a + r && 0 <= r < a
    ensures x / a == q && x % a == r
  {
    var d := x / a - q;
    assert x == (x / a) * a + x % a;
    assert d * a == r - x % a;
    SmallMultiple(d, a);
  }

  lemma SmallMultiple(d: int, a: int)
    requires a > 0 && -a < d * a < a
    ensures d == 0
  {
    PositiveMultiple(d, a);
    PositiveMultiple(-d, a);
    assert (-d) * a == -(d * a);
  }

  lemma RoundUpLeast(x: nat, a: nat, y: nat)
    requires a > 0 && x <= y && y % a == 0
    ensures RoundUp(x, a) <= y
  {
    var z := RoundUp(x, a);
    assert y == (y / a) * a && z == (z / a) * a;
    var d := z / a - y / a;
    assert d * a == z - y;
    if d > 0 {
      PositiveMultiple(d, a);
    }
    NonPositiveMultiple(d, a);
  }

  lemma PositiveMultiple(d: int, a: int)
    requires a > 0
    ensures d > 0 ==> d * a >= a
  {
  }

  lemma NonPositiveMultiple(d: int, a: int)
    requires a > 0
    ensures d <= 0 ==> d * a <= 0
  {
  }

  // ---------------------------------------------------------------- powers of two

  lemma {:induction false} AndSelf(x: nat)
    ensures And(x, x) == x
  {
    if x > 0 {
      AndSelf(x / 2);
    }
  }

  /** The bit trick holds exactly of the powers of two. */
  lemma {:induction false} PowersOfTwo(x: nat)
    ensures IsPowerOfTwo(x) <==> exists k: nat :: x == Pow2(k)
  {
    if x == 0 {
    } else if x % 2 == 1 {
      assert x / 2 == (x - 1) / 2;
      AndSelf(x / 2);
      if x == 1 {
        assert x == Pow2(0);
      } else {
        forall k: nat ensures x != Pow2(k) {
          assert k > 0 ==> Pow2(k) == 2 * Pow2(k - 1);
        }
      }
    } else {
      PowersOfTwo(x / 2);
      assert (x - 1) / 2 == x / 2 - 1 && (x - 1) % 2 == 1;
      assert And(x, x - 1) == 2 * And(x / 2, x / 2 - 1);
      if IsPowerOfTwo(x) {
        var k: nat :| x / 2 == Pow2(k);
        assert x == Pow2(k + 1);
      }
      if k: nat :| x == Pow2(k) {
        var j: nat := k - 1;
        assert x / 2 == Pow2(j);
        assert exists i: nat :: x / 2 == Pow2(i);
      }
    }
  }

  lemma {:induction false} Pow2Monotone(k: nat, n: nat)
    requires k <= n
    ensures Pow2(k) <= Pow2(n)
  {
    if k < n {
      Pow2Monotone(k, n - 1);
    }
  }

  lemma {:induction false} Pow2Divides(k: nat, n: nat)
    requires k <= n
    ensures Pow2(n) % Pow2(k) == 0
  {
    if k == n {
      MultipleMod(1, Pow2(k));
    } else {
      Pow2Divides(k, n - 1);
      var q := Pow2(n - 1) / Pow2(k);
      assert Pow2(n) == (2 * q) * Pow2(k);
      MultipleMod(2 * q, Pow2(k));
    }
  }

  lemma {:induction false} AndOnes(n: nat, x: nat)
    requires x < Pow2(n)
    ensures And(x, Pow2(n) - 1) == x
  {
    if n > 0 && x > 0 {
      AndOnes(n - 1, x / 2);
      assert (Pow2(n) - 1) / 2 == Pow2(n - 1) - 1 && (Pow2(n) - 1) % 2 == 1;
    }
  }

  lemma ModOfDouble(x: nat, p: nat)
    requires p > 0
    ensures x % (2 * p) == 2 * ((x / 2) % p) + x % 2
  {
    var q, r := (x / 2) / p, (x / 2) % p;
    assert x == (2 * p) * q + (2 * r + x % 2) by {
      assert x / 2 == q * p + r;
      assert x == 2 * (x / 2) + x % 2;
      assert 2 * (q * p) == (2 * p) * q;
    }
    assert (2 * p) * q == q * (2 * p);
    DivisionUnique(x, 2 * p, q, 2 * r + x % 2);
  }

  /** Clearing the low k bits rounds down to a multiple of 2 to the k. */
  lemma {:induction false} MaskRounds(n: nat, k: nat, x: nat)
    requires k <= n && x < Pow2(n)
    ensures Pow2(k) - 1 < Pow2(n) && And(x, Not(n, Pow2(k) - 1)) == x - x % Pow2(k)
  {
    Pow2Monotone(k, n);
    var m := Not(n, Pow2(k) - 1);
    assert m == Pow2(n) - Pow2(k);
    if k == 0 {
      AndOnes(n, x);
    } else {
      Pow2Monotone(k - 1, n - 1);
      MaskRounds(n - 1, k - 1, x / 2);
      assert m == 2 * (Pow2(n - 1) - Pow2(k - 1));
      ModOfDouble(x, Pow2(k - 1));
      assert m / 2 == Not(n - 1, Pow2(k - 1) - 1) && m % 2 == 0;
      if x > 0 && m > 0 {
        assert And(x, m) == 2 * And(x / 2, m / 2);
      } else {
        assert And(x / 2, m / 2) == 0;
      }
    }
  }

  /** Mask alignment of a word: the least multiple above it, or 0 when that does not fit in a word. */
  function AlignUp(n: nat, v: nat, a: nat): nat
    requires 0 < a <= Pow2(n) && v < Pow2(n)
  {
    And((v + (a - 1)) % Pow2(n), Not(n, a - 1))
  }

  lemma AlignUpIs(n: nat, v: nat, a: nat)
    requires a < Pow2(n) && v < Pow2(n) && IsPowerOfTwo(a)
    ensures RoundUp(v, a) <= Pow2(n)
    ensures AlignUp(n, v, a) == if RoundUp(v, a) < Pow2(n) then RoundUp(v, a) else 0
  {
    hide And, RoundUp, Pow2, Not, IsPowerOfTwo;
    PowersOfTwo(a);
    var k: nat :| a == Pow2(k);
    Pow2Strict(k, n);
    Pow2Divides(k, n);
    RoundUpLeast(v, a, Pow2(n));
    if v + a - 1 < Pow2(n) {
      AlignFits(n, k, v);
    } else {
      AlignWraps(n, k, v);
    }
  }

  lemma Pow2Strict(k: nat, n: nat)
    requires Pow2(k) < Pow2(n)
    ensures k < n
  {
    if k >= n {
      Pow2Monotone(n, k);
    }
  }

  lemma AlignFits(n: nat, k: nat, v: nat)
    requires k < n && v + Pow2(k) - 1 < Pow2(n) && Pow2(k) <= Pow2(n)
    ensures RoundUp(v, Pow2(k)) < Pow2(n) && AlignUp(n, v, Pow2(k)) == RoundUp(v, Pow2(k))
  {
    hide And, RoundUp, Pow2, Not;
    var x := v + Pow2(k) - 1;
    SmallMod(x, Pow2(n));
    MaskRounds(n, k, x);
    RoundDown(v, Pow2(k));
  }

  lemma SmallMod(x: nat, w: nat)
    requires x < w
    ensures x % w == x
  {
  }

  /** The sum wraps, and masking clears what is left. */
  lemma AlignWraps(n: nat, k: nat, v: nat)
    requires k < n && v < Pow2(n) <= v + Pow2(k) - 1 && Pow2(k) <= Pow2(n)
    requires Pow2(n) % Pow2(k) == 0 && RoundUp(v, Pow2(k)) <= Pow2(n)
    ensures RoundUp(v, Pow2(k)) == Pow2(n) && AlignUp(n, v, Pow2(k)) == 0
  {
    hide And, Pow2, Not;
    var w, a := Pow2(n), Pow2(k);
    var x := v + a - 1 - w;
    DivisionUnique(v + a - 1, w, 1, x);
    MaskRounds(n, k, x);
    SmallMod(x, a);
    NextMultiple(RoundUp(v, a), w, a);
  }

  /** Rounding up is rounding down after adding all but one. */
  lemma RoundDown(v: nat, a: nat)
    requires a > 0
    ensures (v + a - 1) - (v + a - 1) % a == RoundUp(v, a)
  {
    var t := RoundUp(v, a);
    assert t == (t / a) * a;
    DivisionUnique(v + a - 1, a, t / a, v + a - 1 - t);
  }

  /** A multiple within one step below a multiple is that multiple. */
  lemma NextMultiple(t: nat, w: nat, a: nat)
    requires a > 0 && t % a == 0 && w % a == 0 && t <= w < t + a
    ensures t == w
  {
    assert t == (t / a) * a && w == (w / a) * a;
    var d := w / a - t / a;
    assert d * a == w - t;
    SmallMultiple(d, a);
  }
}
