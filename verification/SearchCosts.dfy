/**
 How many optimization steps a search for a candidate set can take, and a whole linearization
 (bounds asserted at src/test/fuzz/cluster_linearize.cpp:653-657 and :872-880).
 */
module SearchCosts {
  import opened Numbers

  /**
   Splits that a work item with n undecided transactions can still give rise to: when something is
   included already; when nothing is, and no single transaction beats the best set; otherwise.
   */
  function Share(seeded: bool, started: bool, n: nat): nat {
    if n == 0 then 0
    else if started then Pow2(n - 1) - 1
    else if seeded then Pow2(n) / 3
    else Pow2(n - 1)
  }

  lemma ShareMono(seeded: bool, started: bool, m: nat, n: nat)
    requires m <= n
    ensures Share(seeded, started, m) <= Share(seeded, started, n)
  {
    Pow2Mono(m, n);
    if m > 0 {
      Pow2Mono(m - 1, n - 1);
    }
  }

  /** What both halves of a split may still take, and the split itself, fit in the item's share. */
  lemma SplitShare(seeded: bool, started: bool, n: nat, excluded: nat, included: nat)
    requires excluded < n && included < n
    requires started || seeded ==> n > 1
    requires seeded && !started ==> excluded + 2 <= n || included + 2 <= n
    ensures Share(seeded, started, excluded) + Share(seeded, true, included) + 1 <= Share(seeded, started, n)
  {
    if n > 1 {
      var p := Pow2(n - 2);
      assert Pow2(n) == 4 * p && Pow2(n - 1) == 2 * p;
      ShareMono(seeded, started, excluded, n - 1);
      ShareMono(seeded, true, included, n - 1);
      if seeded && !started {
        if excluded + 2 <= n {
          ShareMono(seeded, started, excluded, n - 2);
        } else {
          ShareMono(seeded, true, included, n - 2);
          if n > 2 {
            assert p == 2 * Pow2(n - 3);
          }
        }
      }
    }
  }

  /** Unrelated parts are searched separately. */
  lemma PartsShare(seeded: bool, a: nat, b: nat)
    requires b > 0
    ensures Share(seeded, false, a) + Share(seeded, false, b) <= Share(seeded, false, a + b)
  {
    if a > 0 {
      var x, y := Pow2(a - 1), Pow2(b - 1);
      Pow2Add(a - 1, b);
      Pow2Add(a, b);
      assert Pow2(a) == 2 * x && Pow2(b) == 2 * y;
      SumBelowProduct(x, y);
      assert Pow2(a + b - 1) == x * (2 * y);
      assert Pow2(a + b) == (2 * x) * (2 * y);
      Regroup(x, y);
    }
  }

  lemma SumBelowProduct(x: nat, y: nat)
    requires x > 0 && y > 0
    ensures x + y <= 2 * (x * y)
  {
    MulMono(1, y, x);
    MulMono(1, x, y);
    Commute(x, y);
  }

  lemma Regroup(x: nat, y: nat)
    ensures x * (2 * y) == 2 * (x * y) && (2 * x) * (2 * y) == 4 * (x * y)
  {
  }

  // ---------------------------------------------------------------- a whole linearization

  /** Most that the rounds with k and fewer transactions left can cost, all searches completed. */
  function RoundCosts(k: nat): nat {
    if k == 0 then 0 else RoundCosts(k - 1) + Pow2(k) / 3 + (k + 3) / 4
  }

  lemma {:induction false} RoundCostsMono(j: nat, k: nat)
    requires j <= k
    ensures RoundCosts(j) <= RoundCosts(k)
  {
    if j < k {
      RoundCostsMono(j, k - 1);
    }
  }

  lemma {:induction false} EarlierRoundsSuffice(k: nat)
    requires k > 0
    ensures RoundCosts(k - 1) >= Pow2(k) / 3
  {
    if k > 1 {
      EarlierRoundsSuffice(k - 1);
    }
  }

  /** Half of what is left after the cost of a round is more than its search can use. */
  lemma RoundAffordable(k: nat, left: nat)
    requires k > 0 && left > RoundCosts(k)
    ensures left > (k + 3) / 4 && (left - (k + 3) / 4 + 1) / 2 > Pow2(k) / 3
    ensures left - (k + 3) / 4 - Pow2(k) / 3 > RoundCosts(k - 1)
  {
    EarlierRoundsSuffice(k);
  }

  lemma {:induction false} PowerLarge(n: nat)
    requires n >= 4
    ensures Pow2(n) >= 4 * n
  {
    if n > 4 {
      PowerLarge(n - 1);
    } else {
      assert Pow2(2) == 4;
    }
  }

  lemma Square(n: nat)
    ensures (n + 1) * (n + 1) == n * n + 2 * n + 1
  {
  }

  /** All rounds together with the start of the search cost no more than 2^n. */
  lemma {:induction false} CostsBelowPower(n: nat)
    requires n > 0
    ensures RoundCosts(n) + (n * n + 63) / 64 <= Pow2(n)
  {
    if n <= 4 {
      assert Pow2(2) == 4 && RoundCosts(2) == 3;
      assert Pow2(3) == 8 && RoundCosts(3) == 6;
      assert n == 1 || n == 2 || n == 3 || n == 4;
    } else {
      CostsBelowPower(n - 1);
      PowerLarge(n - 1);
      Square(n - 1);
    }
  }
}
