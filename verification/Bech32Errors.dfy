/**
 Bech32 detects any three errors within a window of 1023 symbols (src/bech32.cpp:123-127): the
 generator has the consecutive roots e^997, e^998 and e^999, where e has order 1023
 (src/bech32.cpp:143-160).
 */
module Bech32Errors {
  import opened Gf32
  import opened Gf1024
  import opened Checksums
  import opened BchBound
  import opened PowersOfE
  import opened Bech32
  import Codex32

  // ---------------------------------------------------------------- the roots of the generator

  const GENERATOR_LOGS: seq<nat> := [9, 27, 30, 13, 9, 6]

  /** The generator by logarithms. */
  lemma GeneratorLogs()
    ensures Coefficients(GENERATOR_LOGS) == GENERATOR
  {
    Powers();
  }

  lemma RootPowers<V(!new)>(sp: Space<V>, one: nat)
    requires Quadratic(sp) && one == 1
    ensures Acts(sp, 997 * one, 9, 7) && Acts(sp, 998 * one, 28, 14) && Acts(sp, 999 * one, 4, 12)
  {
    SmallPowers(sp, one);
    MiddlePowers(sp, one);
    LargePowers(sp, one);
    RootProducts();
    ActsSum(sp, 16 * one, 2 * one, 14, 13, 21, 5, 29, 9);
    ActsSum(sp, 42 * one, 18 * one, 15, 23, 29, 9, 6, 18);
    ActsSum(sp, 85 * one, 60 * one, 10, 16, 6, 18, 4, 17);
    ActsSum(sp, 170 * one, 145 * one, 17, 6, 4, 17, 1, 12);
    ActsSum(sp, 682 * one, 315 * one, 16, 26, 1, 12, 9, 7);
    ActsSum(sp, 997 * one, 1 * one, 9, 7, 31, 0, 28, 14);
    ActsSum(sp, 998 * one, 1 * one, 28, 14, 31, 0, 4, 12);
  }

  lemma RootProducts()
    ensures IsProduct(14, 13, 21, 5, 29, 9)
    ensures IsProduct(15, 23, 29, 9, 6, 18)
    ensures IsProduct(10, 16, 6, 18, 4, 17)
    ensures IsProduct(17, 6, 4, 17, 1, 12)
    ensures IsProduct(16, 26, 1, 12, 9, 7)
    ensures IsProduct(9, 7, 31, 0, 28, 14)
    ensures IsProduct(28, 14, 31, 0, 4, 12)
  {
  }

  lemma LogsAt()
    ensures |GENERATOR_LOGS| == 6
    ensures GENERATOR_LOGS[0] == 9 && GENERATOR_LOGS[1] == 27 && GENERATOR_LOGS[2] == 30 && GENERATOR_LOGS[3] == 13
    ensures GENERATOR_LOGS[4] == 9 && GENERATOR_LOGS[5] == 6
  {
  }

  lemma Root997(c: seq<nat>, P: (nat, nat, nat) -> bool)
    requires c == GENERATOR_LOGS && Chains(9, 7, c, P)
    ensures P(6, 31, 31)
  {
    Root997Steps(c);
  }

  lemma Root997Steps(c: seq<nat>)
    requires c == GENERATOR_LOGS
    ensures HornerStep(9, 7, c, 0, 0, 31, 9, 31, 7)
    ensures HornerStep(9, 7, c, 1, 31, 7, 4, 15, 21)
    ensures HornerStep(9, 7, c, 2, 15, 21, 28, 25, 21)
    ensures HornerStep(9, 7, c, 3, 25, 21, 25, 2, 6)
    ensures HornerStep(9, 7, c, 4, 2, 6, 22, 8, 1)
    ensures HornerStep(9, 7, c, 5, 8, 1, 6, 31, 31)
  {
    LogsAt();
  }

  lemma Root998(c: seq<nat>, P: (nat, nat, nat) -> bool)
    requires c == GENERATOR_LOGS && Chains(28, 14, c, P)
    ensures P(6, 31, 31)
  {
    Root998Steps(c);
  }

  lemma Root998Steps(c: seq<nat>)
    requires c == GENERATOR_LOGS
    ensures HornerStep(28, 14, c, 0, 0, 31, 28, 17, 14)
    ensures HornerStep(28, 14, c, 1, 17, 14, 8, 16, 29)
    ensures HornerStep(28, 14, c, 2, 16, 29, 25, 28, 22)
    ensures HornerStep(28, 14, c, 3, 28, 22, 8, 11, 22)
    ensures HornerStep(28, 14, c, 4, 11, 22, 25, 16, 18)
    ensures HornerStep(28, 14, c, 5, 16, 18, 6, 31, 31)
  {
    LogsAt();
  }

  lemma Root999(c: seq<nat>, P: (nat, nat, nat) -> bool)
    requires c == GENERATOR_LOGS && Chains(4, 12, c, P)
    ensures P(6, 31, 31)
  {
    Root999Steps(c);
  }

  lemma Root999Steps(c: seq<nat>)
    requires c == GENERATOR_LOGS
    ensures HornerStep(4, 12, c, 0, 0, 31, 4, 7, 12)
    ensures HornerStep(4, 12, c, 1, 7, 12, 16, 8, 9)
    ensures HornerStep(4, 12, c, 2, 8, 9, 25, 28, 0)
    ensures HornerStep(4, 12, c, 3, 28, 0, 15, 10, 13)
    ensures HornerStep(4, 12, c, 4, 10, 13, 28, 17, 26)
    ensures HornerStep(4, 12, c, 5, 17, 26, 6, 31, 31)
  {
    LogsAt();
  }

  /** e^997, e^998 and e^999 are roots of the generator. */
  lemma GeneratorRoots<V(!new)>(sp: Space<V>, one: nat)
    requires Quadratic(sp) && one == 1
    ensures IsRoot(sp, 997 * one, GENERATOR) && IsRoot(sp, 998 * one, GENERATOR) && IsRoot(sp, 999 * one, GENERATOR)
  {
    RootPowers(sp, one);
    GeneratorLogs();
    ValuesChain(sp, 997 * one, 9, 7, GENERATOR_LOGS);
    Root997(GENERATOR_LOGS, Values(sp, 997 * one, GENERATOR_LOGS));
    RootByHorner(sp, 997 * one, GENERATOR, GENERATOR_LOGS);
    ValuesChain(sp, 998 * one, 28, 14, GENERATOR_LOGS);
    Root998(GENERATOR_LOGS, Values(sp, 998 * one, GENERATOR_LOGS));
    RootByHorner(sp, 998 * one, GENERATOR, GENERATOR_LOGS);
    ValuesChain(sp, 999 * one, 4, 12, GENERATOR_LOGS);
    Root999(GENERATOR_LOGS, Values(sp, 999 * one, GENERATOR_LOGS));
    RootByHorner(sp, 999 * one, GENERATOR, GENERATOR_LOGS);
  }

  // ---------------------------------------------------------------- three errors

  /** Up to three changed symbols within a window of 1023 always change the remainder. */
  lemma ThreeErrorsDetected(t: Tables, before: seq<Symbol>, xs: seq<Symbol>, ys: seq<Symbol>, after: seq<Symbol>)
    requires AreTables(t) && |xs| == |ys| <= PERIOD && xs != ys && |Differences(xs, ys)| <= 3
    ensures Remainder(t, GENERATOR, before + xs + after) != Remainder(t, GENERATOR, before + ys + after)
  {
    IsBech32Generator();
    FieldPeriod();
    FieldLawful();
    ThreeRoots(E, PERIOD - 1022);
    AllPlaces(|xs|);
    ErrorsDetected(E, PERIOD, 997, 1, 3, t, GENERATOR, before, xs, ys, after);
  }

  lemma ThreeRoots<V(!new)>(sp: Space<V>, one: nat)
    requires Quadratic(sp) && one == 1
    ensures HasRoots(sp, 997 * one, 1, 3, GENERATOR)
  {
    GeneratorRoots(sp, one);
    forall j: nat | j < 3 ensures RootAt(sp, 997 * one, 1, j, GENERATOR) {
      assert 997 * one + j * 1 == (997 + j) * one;
    }
  }

  lemma AllPlaces(length: nat)
    requires length <= PERIOD
    ensures Distinguishes(1, PERIOD, length)
  {
    forall e: nat, f: nat | e < f < length ensures (1 * e) % PERIOD != (1 * f) % PERIOD {
      assert 1 * e == e && 1 * f == f && e % PERIOD == e && f % PERIOD == f;
    }
  }

  /** A string that verifies stops doing so when up to three symbols within 1023 change. */
  lemma ChangesDetected(t: Tables, hrp: seq<nat>, before: seq<Symbol>, xs: seq<Symbol>, ys: seq<Symbol>, after: seq<Symbol>)
    requires AreTables(t) && |xs| == |ys| <= PERIOD && xs != ys && |Differences(xs, ys)| <= 3
    requires VerifiedAs(t, hrp, before + xs + after) != INVALID
    ensures VerifiedAs(t, hrp, before + ys + after) != VerifiedAs(t, hrp, before + xs + after)
  {
    var p := Codex32.ExpandPrefix(hrp);
    ThreeErrorsDetected(t, p + before, xs, ys, after);
    Prefixed(p, before, xs, after);
    Prefixed(p, before, ys, after);
    VerifiedApart(t, hrp, before + xs + after, before + ys + after);
  }
}
