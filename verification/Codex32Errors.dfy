/**
 The codex32 codes detect any eight errors within a window of 93 symbols, the long one within 1023
 (src/codex32.cpp:125-136): their generators have eight roots at equal distances among the powers
 of e.
 */
module Codex32Errors {
  import opened Gf32
  import opened Gf1024
  import opened Checksums
  import opened BchBound
  import opened PowersOfE
  import opened Codex32
  import Numbers

  const SHORT_LOGS: seq<nat> := [18, 19, 25, 3, 31, 18, 18, 18, 20, 19, 17, 4, 4]
  const LONG_LOGS: seq<nat> := [11, 29, 18, 8, 5, 18, 13, 15, 21, 13, 15, 28, 27, 2, 21]

  /** The generators by logarithms. */
  lemma GeneratorLogs()
    ensures Coefficients(SHORT_LOGS) == CODEX32_GEN && Coefficients(LONG_LOGS) == CODEX32_LONG_GEN
  {
    Powers();
    ZeroIsLast();
  }

  lemma ZeroIsLast()
    ensures Of(0) == Elt(31)
  {
  }

  // ---------------------------------------------------------------- powers of e

  lemma ShortStarts<V(!new)>(sp: Space<V>, one: nat)
    requires Quadratic(sp) && one == 1
    ensures Acts(sp, 44 * one, 4, 23) && Acts(sp, 352 * one, 23, 2) && Acts(sp, 396 * one, 4, 31)
  {
    SmallPowers(sp, one);
    MiddlePowers(sp, one);
    ShortStartsProducts();
    ActsSum(sp, 42 * one, 2 * one, 15, 23, 21, 5, 4, 23);
    ActsSum(sp, 44 * one, 44 * one, 4, 23, 4, 23, 10, 20);
    ActsSum(sp, 88 * one, 88 * one, 10, 20, 10, 20, 26, 14);
    ActsSum(sp, 176 * one, 176 * one, 26, 14, 26, 14, 23, 2);
    ActsSum(sp, 352 * one, 44 * one, 23, 2, 4, 23, 4, 31);
  }

  lemma ShortStartsProducts()
    ensures IsProduct(15, 23, 21, 5, 4, 23)
    ensures IsProduct(4, 23, 4, 23, 10, 20)
    ensures IsProduct(10, 20, 10, 20, 26, 14)
    ensures IsProduct(26, 14, 26, 14, 23, 2)
    ensures IsProduct(23, 2, 4, 23, 4, 31)
  {
  }

  lemma ShortPowers<V(!new)>(sp: Space<V>, one: nat)
    requires Quadratic(sp) && one == 1
    ensures Acts(sp, 396 * one, 4, 31) && Acts(sp, 440 * one, 8, 27) && Acts(sp, 484 * one, 14, 24) && Acts(sp, 528 * one, 26, 31)
    ensures Acts(sp, 572 * one, 30, 18) && Acts(sp, 616 * one, 5, 15) && Acts(sp, 660 * one, 17, 31) && Acts(sp, 704 * one, 21, 9)
  {
    ShortStarts(sp, one);
    ShortPowersProducts();
    ActsSum(sp, 396 * one, 44 * one, 4, 31, 4, 23, 8, 27);
    ActsSum(sp, 440 * one, 44 * one, 8, 27, 4, 23, 14, 24);
    ActsSum(sp, 484 * one, 44 * one, 14, 24, 4, 23, 26, 31);
    ActsSum(sp, 528 * one, 44 * one, 26, 31, 4, 23, 30, 18);
    ActsSum(sp, 572 * one, 44 * one, 30, 18, 4, 23, 5, 15);
    ActsSum(sp, 616 * one, 44 * one, 5, 15, 4, 23, 17, 31);
    ActsSum(sp, 660 * one, 44 * one, 17, 31, 4, 23, 21, 9);
  }

  lemma ShortPowersProducts()
    ensures IsProduct(4, 31, 4, 23, 8, 27)
    ensures IsProduct(8, 27, 4, 23, 14, 24)
    ensures IsProduct(14, 24, 4, 23, 26, 31)
    ensures IsProduct(26, 31, 4, 23, 30, 18)
    ensures IsProduct(30, 18, 4, 23, 5, 15)
    ensures IsProduct(5, 15, 4, 23, 17, 31)
    ensures IsProduct(17, 31, 4, 23, 21, 9)
  {
  }

  lemma LongStarts<V(!new)>(sp: Space<V>, one: nat)
    requires Quadratic(sp) && one == 1
    ensures Acts(sp, 94 * one, 29, 14) && Acts(sp, 488 * one, 17, 10)
  {
    SmallPowers(sp, one);
    MiddlePowers(sp, one);
    LargePowers(sp, one);
    LongStartsProducts();
    ActsSum(sp, 93 * one, 1 * one, 27, 8, 31, 0, 29, 14);
    ActsSum(sp, 42 * one, 20 * one, 15, 23, 26, 22, 14, 4);
    ActsSum(sp, 85 * one, 62 * one, 10, 16, 14, 4, 11, 15);
    ActsSum(sp, 341 * one, 147 * one, 7, 26, 11, 15, 17, 10);
  }

  lemma LongStartsProducts()
    ensures IsProduct(27, 8, 31, 0, 29, 14)
    ensures IsProduct(15, 23, 26, 22, 14, 4)
    ensures IsProduct(10, 16, 14, 4, 11, 15)
    ensures IsProduct(7, 26, 11, 15, 17, 10)
  {
  }

  lemma LongPowers<V(!new)>(sp: Space<V>, one: nat)
    requires Quadratic(sp) && one == 1
    ensures Acts(sp, 94 * one, 29, 14) && Acts(sp, 582 * one, 28, 25) && Acts(sp, 1070 * one, 6, 20) && Acts(sp, 1558 * one, 25, 23)
    ensures Acts(sp, 2046 * one, 0, 31) && Acts(sp, 2534 * one, 17, 10) && Acts(sp, 3022 * one, 19, 25) && Acts(sp, 3510 * one, 17, 17)
  {
    LongStarts(sp, one);
    LongPowersProducts();
    ActsSum(sp, 94 * one, 488 * one, 29, 14, 17, 10, 28, 25);
    ActsSum(sp, 582 * one, 488 * one, 28, 25, 17, 10, 6, 20);
    ActsSum(sp, 1070 * one, 488 * one, 6, 20, 17, 10, 25, 23);
    ActsSum(sp, 1558 * one, 488 * one, 25, 23, 17, 10, 0, 31);
    ActsSum(sp, 2046 * one, 488 * one, 0, 31, 17, 10, 17, 10);
    ActsSum(sp, 2534 * one, 488 * one, 17, 10, 17, 10, 19, 25);
    ActsSum(sp, 3022 * one, 488 * one, 19, 25, 17, 10, 17, 17);
  }

  lemma LongPowersProducts()
    ensures IsProduct(29, 14, 17, 10, 28, 25)
    ensures IsProduct(28, 25, 17, 10, 6, 20)
    ensures IsProduct(6, 20, 17, 10, 25, 23)
    ensures IsProduct(25, 23, 17, 10, 0, 31)
    ensures IsProduct(0, 31, 17, 10, 17, 10)
    ensures IsProduct(17, 10, 17, 10, 19, 25)
    ensures IsProduct(19, 25, 17, 10, 17, 17)
  {
  }

  // ---------------------------------------------------------------- roots of the generators

  lemma ShortLogsAt()
    ensures |SHORT_LOGS| == 13
    ensures SHORT_LOGS[0] == 18 && SHORT_LOGS[1] == 19 && SHORT_LOGS[2] == 25 && SHORT_LOGS[3] == 3
    ensures SHORT_LOGS[4] == 31 && SHORT_LOGS[5] == 18 && SHORT_LOGS[6] == 18 && SHORT_LOGS[7] == 18
    ensures SHORT_LOGS[8] == 20 && SHORT_LOGS[9] == 19 && SHORT_LOGS[10] == 17 && SHORT_LOGS[11] == 4
    ensures SHORT_LOGS[12] == 4
  {
  }

  lemma LongLogsAt()
    ensures |LONG_LOGS| == 15
    ensures LONG_LOGS[0] == 11 && LONG_LOGS[1] == 29 && LONG_LOGS[2] == 18 && LONG_LOGS[3] == 8
    ensures LONG_LOGS[4] == 5 && LONG_LOGS[5] == 18 && LONG_LOGS[6] == 13 && LONG_LOGS[7] == 15
    ensures LONG_LOGS[8] == 21 && LONG_LOGS[9] == 13 && LONG_LOGS[10] == 15 && LONG_LOGS[11] == 28
    ensures LONG_LOGS[12] == 27 && LONG_LOGS[13] == 2 && LONG_LOGS[14] == 21
  {
  }

  lemma Short396(c: seq<nat>, P: (nat, nat, nat) -> bool)
    requires c == SHORT_LOGS && Chains(4, 31, c, P)
    ensures P(13, 31, 31)
  {
    Short396First(c, P);
    Short396Last(c, P);
  }

  lemma Short396First(c: seq<nat>, P: (nat, nat, nat) -> bool)
    requires c == SHORT_LOGS && Chains(4, 31, c, P)
    ensures P(6, 28, 31)
  {
    ShortLogsAt();
    assert HornerStep(4, 31, c, 0, 0, 31, 4, 5, 31);
    assert HornerStep(4, 31, c, 1, 5, 31, 9, 15, 31);
    assert HornerStep(4, 31, c, 2, 15, 31, 19, 29, 31);
    assert HornerStep(4, 31, c, 3, 29, 31, 2, 16, 31);
    assert HornerStep(4, 31, c, 4, 16, 31, 20, 20, 31);
    assert HornerStep(4, 31, c, 5, 20, 31, 24, 28, 31);
  }

  lemma Short396Last(c: seq<nat>, P: (nat, nat, nat) -> bool)
    requires c == SHORT_LOGS && Chains(4, 31, c, P) && P(6, 28, 31)
    ensures P(13, 31, 31)
  {
    ShortLogsAt();
    assert HornerStep(4, 31, c, 6, 28, 31, 1, 19, 31);
    assert HornerStep(4, 31, c, 7, 19, 31, 23, 21, 31);
    assert HornerStep(4, 31, c, 8, 21, 31, 25, 23, 31);
    assert HornerStep(4, 31, c, 9, 23, 31, 27, 7, 31);
    assert HornerStep(4, 31, c, 10, 7, 31, 11, 21, 31);
    assert HornerStep(4, 31, c, 11, 21, 31, 25, 0, 31);
    assert HornerStep(4, 31, c, 12, 0, 31, 4, 31, 31);
  }

  lemma Short440(c: seq<nat>, P: (nat, nat, nat) -> bool)
    requires c == SHORT_LOGS && Chains(8, 27, c, P)
    ensures P(13, 31, 31)
  {
    Short440First(c, P);
    Short440Last(c, P);
  }

  lemma Short440First(c: seq<nat>, P: (nat, nat, nat) -> bool)
    requires c == SHORT_LOGS && Chains(8, 27, c, P)
    ensures P(6, 21, 0)
  {
    ShortLogsAt();
    assert HornerStep(8, 27, c, 0, 0, 31, 8, 14, 27);
    assert HornerStep(8, 27, c, 1, 14, 27, 6, 5, 15);
    assert HornerStep(8, 27, c, 2, 5, 15, 21, 15, 31);
    assert HornerStep(8, 27, c, 3, 15, 31, 23, 15, 11);
    assert HornerStep(8, 27, c, 4, 15, 11, 26, 26, 29);
    assert HornerStep(8, 27, c, 5, 26, 29, 23, 21, 0);
  }

  lemma Short440Last(c: seq<nat>, P: (nat, nat, nat) -> bool)
    requires c == SHORT_LOGS && Chains(8, 27, c, P) && P(6, 21, 0)
    ensures P(13, 31, 31)
  {
    ShortLogsAt();
    assert HornerStep(8, 27, c, 6, 21, 0, 6, 26, 31);
    assert HornerStep(8, 27, c, 7, 26, 31, 3, 25, 22);
    assert HornerStep(8, 27, c, 8, 25, 22, 12, 0, 7);
    assert HornerStep(8, 27, c, 9, 0, 7, 15, 9, 29);
    assert HornerStep(8, 27, c, 10, 9, 29, 12, 15, 11);
    assert HornerStep(8, 27, c, 11, 15, 11, 26, 19, 29);
    assert HornerStep(8, 27, c, 12, 19, 29, 4, 31, 31);
  }

  lemma Short484(c: seq<nat>, P: (nat, nat, nat) -> bool)
    requires c == SHORT_LOGS && Chains(14, 24, c, P)
    ensures P(13, 31, 31)
  {
    Short484First(c, P);
    Short484Last(c, P);
  }

  lemma Short484First(c: seq<nat>, P: (nat, nat, nat) -> bool)
    requires c == SHORT_LOGS && Chains(14, 24, c, P)
    ensures P(6, 19, 26)
  {
    ShortLogsAt();
    assert HornerStep(14, 24, c, 0, 0, 31, 14, 8, 24);
    assert HornerStep(14, 24, c, 1, 8, 24, 29, 25, 3);
    assert HornerStep(14, 24, c, 2, 25, 3, 1, 10, 14);
    assert HornerStep(14, 24, c, 3, 10, 14, 18, 25, 10);
    assert HornerStep(14, 24, c, 4, 25, 10, 15, 15, 20);
    assert HornerStep(14, 24, c, 5, 15, 20, 1, 19, 26);
  }

  lemma Short484Last(c: seq<nat>, P: (nat, nat, nat) -> bool)
    requires c == SHORT_LOGS && Chains(14, 24, c, P) && P(6, 19, 26)
    ensures P(13, 31, 31)
  {
    ShortLogsAt();
    assert HornerStep(14, 24, c, 6, 19, 26, 18, 31, 20);
    assert HornerStep(14, 24, c, 7, 31, 20, 3, 25, 25);
    assert HornerStep(14, 24, c, 8, 25, 25, 31, 20, 7);
    assert HornerStep(14, 24, c, 9, 20, 7, 20, 2, 26);
    assert HornerStep(14, 24, c, 10, 2, 26, 25, 5, 29);
    assert HornerStep(14, 24, c, 11, 5, 29, 28, 13, 1);
    assert HornerStep(14, 24, c, 12, 13, 1, 4, 31, 31);
  }

  lemma Short528(c: seq<nat>, P: (nat, nat, nat) -> bool)
    requires c == SHORT_LOGS && Chains(26, 31, c, P)
    ensures P(13, 31, 31)
  {
    Short528First(c, P);
    Short528Last(c, P);
  }

  lemma Short528First(c: seq<nat>, P: (nat, nat, nat) -> bool)
    requires c == SHORT_LOGS && Chains(26, 31, c, P)
    ensures P(6, 24, 31)
  {
    ShortLogsAt();
    assert HornerStep(26, 31, c, 0, 0, 31, 26, 6, 31);
    assert HornerStep(26, 31, c, 1, 6, 31, 1, 18, 31);
    assert HornerStep(26, 31, c, 2, 18, 31, 13, 2, 31);
    assert HornerStep(26, 31, c, 3, 2, 31, 28, 7, 31);
    assert HornerStep(26, 31, c, 4, 7, 31, 2, 2, 31);
    assert HornerStep(26, 31, c, 5, 2, 31, 28, 24, 31);
  }

  lemma Short528Last(c: seq<nat>, P: (nat, nat, nat) -> bool)
    requires c == SHORT_LOGS && Chains(26, 31, c, P) && P(6, 24, 31)
    ensures P(13, 31, 31)
  {
    ShortLogsAt();
    assert HornerStep(26, 31, c, 6, 24, 31, 19, 1, 31);
    assert HornerStep(26, 31, c, 7, 1, 31, 27, 11, 31);
    assert HornerStep(26, 31, c, 8, 11, 31, 6, 7, 31);
    assert HornerStep(26, 31, c, 9, 7, 31, 2, 20, 31);
    assert HornerStep(26, 31, c, 10, 20, 31, 15, 12, 31);
    assert HornerStep(26, 31, c, 11, 12, 31, 7, 9, 31);
    assert HornerStep(26, 31, c, 12, 9, 31, 4, 31, 31);
  }

  lemma Short572(c: seq<nat>, P: (nat, nat, nat) -> bool)
    requires c == SHORT_LOGS && Chains(30, 18, c, P)
    ensures P(13, 31, 31)
  {
    Short572First(c, P);
    Short572Last(c, P);
  }

  lemma Short572First(c: seq<nat>, P: (nat, nat, nat) -> bool)
    requires c == SHORT_LOGS && Chains(30, 18, c, P)
    ensures P(6, 4, 4)
  {
    ShortLogsAt();
    assert HornerStep(30, 18, c, 0, 0, 31, 30, 7, 18);
    assert HornerStep(30, 18, c, 1, 7, 18, 18, 1, 8);
    assert HornerStep(30, 18, c, 2, 1, 8, 7, 24, 21);
    assert HornerStep(30, 18, c, 3, 24, 21, 2, 16, 28);
    assert HornerStep(30, 18, c, 4, 16, 28, 11, 11, 0);
    assert HornerStep(30, 18, c, 5, 11, 0, 5, 4, 4);
  }

  lemma Short572Last(c: seq<nat>, P: (nat, nat, nat) -> bool)
    requires c == SHORT_LOGS && Chains(30, 18, c, P) && P(6, 4, 4)
    ensures P(13, 31, 31)
  {
    ShortLogsAt();
    assert HornerStep(30, 18, c, 6, 4, 4, 27, 11, 18);
    assert HornerStep(30, 18, c, 7, 11, 18, 17, 0, 0);
    assert HornerStep(30, 18, c, 8, 0, 0, 23, 25, 14);
    assert HornerStep(30, 18, c, 9, 25, 14, 19, 31, 18);
    assert HornerStep(30, 18, c, 10, 31, 18, 26, 10, 26);
    assert HornerStep(30, 18, c, 11, 10, 26, 13, 28, 7);
    assert HornerStep(30, 18, c, 12, 28, 7, 4, 31, 31);
  }

  lemma Short616(c: seq<nat>, P: (nat, nat, nat) -> bool)
    requires c == SHORT_LOGS && Chains(5, 15, c, P)
    ensures P(13, 31, 31)
  {
    Short616First(c, P);
    Short616Last(c, P);
  }

  lemma Short616First(c: seq<nat>, P: (nat, nat, nat) -> bool)
    requires c == SHORT_LOGS && Chains(5, 15, c, P)
    ensures P(6, 20, 4)
  {
    ShortLogsAt();
    assert HornerStep(5, 15, c, 0, 0, 31, 5, 4, 15);
    assert HornerStep(5, 15, c, 1, 4, 15, 1, 18, 30);
    assert HornerStep(5, 15, c, 2, 18, 30, 12, 11, 11);
    assert HornerStep(5, 15, c, 3, 11, 11, 31, 3, 15);
    assert HornerStep(5, 15, c, 4, 3, 15, 28, 28, 27);
    assert HornerStep(5, 15, c, 5, 28, 27, 15, 20, 4);
  }

  lemma Short616Last(c: seq<nat>, P: (nat, nat, nat) -> bool)
    requires c == SHORT_LOGS && Chains(5, 15, c, P) && P(6, 20, 4)
    ensures P(13, 31, 31)
  {
    ShortLogsAt();
    assert HornerStep(5, 15, c, 6, 20, 4, 16, 13, 25);
    assert HornerStep(5, 15, c, 7, 13, 25, 7, 30, 6);
    assert HornerStep(5, 15, c, 8, 30, 6, 20, 31, 22);
    assert HornerStep(5, 15, c, 9, 31, 22, 27, 7, 18);
    assert HornerStep(5, 15, c, 10, 7, 18, 4, 3, 2);
    assert HornerStep(5, 15, c, 11, 3, 2, 21, 22, 10);
    assert HornerStep(5, 15, c, 12, 22, 10, 4, 31, 31);
  }

  lemma Short660(c: seq<nat>, P: (nat, nat, nat) -> bool)
    requires c == SHORT_LOGS && Chains(17, 31, c, P)
    ensures P(13, 31, 31)
  {
    Short660First(c, P);
    Short660Last(c, P);
  }

  lemma Short660First(c: seq<nat>, P: (nat, nat, nat) -> bool)
    requires c == SHORT_LOGS && Chains(17, 31, c, P)
    ensures P(6, 21, 31)
  {
    ShortLogsAt();
    assert HornerStep(17, 31, c, 0, 0, 31, 17, 0, 31);
    assert HornerStep(17, 31, c, 1, 0, 31, 17, 14, 31);
    assert HornerStep(17, 31, c, 2, 14, 31, 0, 4, 31);
    assert HornerStep(17, 31, c, 3, 4, 31, 21, 20, 31);
    assert HornerStep(17, 31, c, 4, 20, 31, 6, 6, 31);
    assert HornerStep(17, 31, c, 5, 6, 31, 23, 21, 31);
  }

  lemma Short660Last(c: seq<nat>, P: (nat, nat, nat) -> bool)
    requires c == SHORT_LOGS && Chains(17, 31, c, P) && P(6, 21, 31)
    ensures P(13, 31, 31)
  {
    ShortLogsAt();
    assert HornerStep(17, 31, c, 6, 21, 31, 7, 30, 31);
    assert HornerStep(17, 31, c, 7, 30, 31, 16, 13, 31);
    assert HornerStep(17, 31, c, 8, 13, 31, 30, 26, 31);
    assert HornerStep(17, 31, c, 9, 26, 31, 12, 28, 31);
    assert HornerStep(17, 31, c, 10, 28, 31, 14, 19, 31);
    assert HornerStep(17, 31, c, 11, 19, 31, 5, 18, 31);
    assert HornerStep(17, 31, c, 12, 18, 31, 4, 31, 31);
  }

  lemma Short704(c: seq<nat>, P: (nat, nat, nat) -> bool)
    requires c == SHORT_LOGS && Chains(21, 9, c, P)
    ensures P(13, 31, 31)
  {
    Short704First(c, P);
    Short704Last(c, P);
  }

  lemma Short704First(c: seq<nat>, P: (nat, nat, nat) -> bool)
    requires c == SHORT_LOGS && Chains(21, 9, c, P)
    ensures P(6, 26, 15)
  {
    ShortLogsAt();
    assert HornerStep(21, 9, c, 0, 0, 31, 21, 23, 9);
    assert HornerStep(21, 9, c, 1, 23, 9, 11, 30, 17);
    assert HornerStep(21, 9, c, 2, 30, 17, 10, 1, 27);
    assert HornerStep(21, 9, c, 3, 1, 27, 16, 2, 17);
    assert HornerStep(21, 9, c, 4, 2, 17, 1, 1, 14);
    assert HornerStep(21, 9, c, 5, 1, 14, 6, 26, 15);
  }

  lemma Short704Last(c: seq<nat>, P: (nat, nat, nat) -> bool)
    requires c == SHORT_LOGS && Chains(21, 9, c, P) && P(6, 26, 15)
    ensures P(13, 31, 31)
  {
    ShortLogsAt();
    assert HornerStep(21, 9, c, 6, 26, 15, 11, 27, 10);
    assert HornerStep(21, 9, c, 7, 27, 10, 28, 24, 30);
    assert HornerStep(21, 9, c, 8, 24, 30, 5, 27, 23);
    assert HornerStep(21, 9, c, 9, 27, 23, 20, 2, 23);
    assert HornerStep(21, 9, c, 10, 2, 23, 5, 25, 3);
    assert HornerStep(21, 9, c, 11, 25, 3, 1, 6, 16);
    assert HornerStep(21, 9, c, 12, 6, 16, 4, 31, 31);
  }

  lemma Long94(c: seq<nat>, P: (nat, nat, nat) -> bool)
    requires c == LONG_LOGS && Chains(29, 14, c, P)
    ensures P(15, 31, 31)
  {
    Long94First(c, P);
    Long94Last(c, P);
  }

  lemma Long94First(c: seq<nat>, P: (nat, nat, nat) -> bool)
    requires c == LONG_LOGS && Chains(29, 14, c, P)
    ensures P(7, 25, 4)
  {
    LongLogsAt();
    assert HornerStep(29, 14, c, 0, 0, 31, 29, 28, 14);
    assert HornerStep(29, 14, c, 1, 28, 14, 6, 17, 13);
    assert HornerStep(29, 14, c, 2, 17, 13, 12, 22, 16);
    assert HornerStep(29, 14, c, 3, 22, 16, 31, 8, 8);
    assert HornerStep(29, 14, c, 4, 8, 8, 16, 28, 14);
    assert HornerStep(29, 14, c, 5, 28, 14, 6, 26, 13);
    assert HornerStep(29, 14, c, 6, 26, 13, 2, 25, 4);
  }

  lemma Long94Last(c: seq<nat>, P: (nat, nat, nat) -> bool)
    requires c == LONG_LOGS && Chains(29, 14, c, P) && P(7, 25, 4)
    ensures P(15, 31, 31)
  {
    LongLogsAt();
    assert HornerStep(29, 14, c, 7, 25, 4, 30, 6, 4);
    assert HornerStep(29, 14, c, 8, 6, 4, 29, 9, 13);
    assert HornerStep(29, 14, c, 9, 9, 13, 13, 31, 14);
    assert HornerStep(29, 14, c, 10, 31, 14, 18, 20, 8);
    assert HornerStep(29, 14, c, 11, 20, 8, 22, 1, 16);
    assert HornerStep(29, 14, c, 12, 1, 16, 26, 9, 13);
    assert HornerStep(29, 14, c, 13, 9, 13, 13, 25, 14);
    assert HornerStep(29, 14, c, 14, 25, 14, 21, 31, 31);
  }

  lemma Long582(c: seq<nat>, P: (nat, nat, nat) -> bool)
    requires c == LONG_LOGS && Chains(28, 25, c, P)
    ensures P(15, 31, 31)
  {
    Long582First(c, P);
    Long582Last(c, P);
  }

  lemma Long582First(c: seq<nat>, P: (nat, nat, nat) -> bool)
    requires c == LONG_LOGS && Chains(28, 25, c, P)
    ensures P(7, 1, 15)
  {
    LongLogsAt();
    assert HornerStep(28, 25, c, 0, 0, 31, 28, 29, 25);
    assert HornerStep(28, 25, c, 1, 29, 25, 27, 24, 13);
    assert HornerStep(28, 25, c, 2, 24, 13, 6, 26, 30);
    assert HornerStep(28, 25, c, 3, 26, 30, 7, 21, 14);
    assert HornerStep(28, 25, c, 4, 21, 14, 10, 8, 24);
    assert HornerStep(28, 25, c, 5, 8, 24, 10, 29, 9);
    assert HornerStep(28, 25, c, 6, 29, 9, 21, 1, 15);
  }

  lemma Long582Last(c: seq<nat>, P: (nat, nat, nat) -> bool)
    requires c == LONG_LOGS && Chains(28, 25, c, P) && P(7, 1, 15)
    ensures P(15, 31, 31)
  {
    LongLogsAt();
    assert HornerStep(28, 25, c, 7, 1, 15, 12, 17, 27);
    assert HornerStep(28, 25, c, 8, 17, 27, 16, 19, 17);
    assert HornerStep(28, 25, c, 9, 19, 17, 23, 19, 8);
    assert HornerStep(28, 25, c, 10, 19, 8, 1, 2, 25);
    assert HornerStep(28, 25, c, 11, 2, 25, 5, 16, 7);
    assert HornerStep(28, 25, c, 12, 16, 7, 6, 2, 25);
    assert HornerStep(28, 25, c, 13, 2, 25, 5, 7, 7);
    assert HornerStep(28, 25, c, 14, 7, 7, 21, 31, 31);
  }

  lemma Long1070(c: seq<nat>, P: (nat, nat, nat) -> bool)
    requires c == LONG_LOGS && Chains(6, 20, c, P)
    ensures P(15, 31, 31)
  {
    Long1070First(c, P);
    Long1070Last(c, P);
  }

  lemma Long1070First(c: seq<nat>, P: (nat, nat, nat) -> bool)
    requires c == LONG_LOGS && Chains(6, 20, c, P)
    ensures P(7, 20, 23)
  {
    LongLogsAt();
    assert HornerStep(6, 20, c, 0, 0, 31, 6, 9, 20);
    assert HornerStep(6, 20, c, 1, 9, 20, 6, 17, 1);
    assert HornerStep(6, 20, c, 2, 17, 1, 0, 17, 30);
    assert HornerStep(6, 20, c, 3, 17, 30, 10, 5, 22);
    assert HornerStep(6, 20, c, 4, 5, 22, 7, 2, 17);
    assert HornerStep(6, 20, c, 5, 2, 17, 16, 13, 15);
    assert HornerStep(6, 20, c, 6, 13, 15, 29, 20, 23);
  }

  lemma Long1070Last(c: seq<nat>, P: (nat, nat, nat) -> bool)
    requires c == LONG_LOGS && Chains(6, 20, c, P) && P(7, 20, 23)
    ensures P(15, 31, 31)
  {
    LongLogsAt();
    assert HornerStep(6, 20, c, 7, 20, 23, 11, 5, 11);
    assert HornerStep(6, 20, c, 8, 5, 11, 17, 11, 31);
    assert HornerStep(6, 20, c, 9, 11, 31, 17, 7, 0);
    assert HornerStep(6, 20, c, 10, 7, 0, 15, 31, 13);
    assert HornerStep(6, 20, c, 11, 31, 13, 23, 26, 27);
    assert HornerStep(6, 20, c, 12, 26, 27, 4, 15, 13);
    assert HornerStep(6, 20, c, 13, 15, 13, 18, 9, 15);
    assert HornerStep(6, 20, c, 14, 9, 15, 21, 31, 31);
  }

  lemma Long1558(c: seq<nat>, P: (nat, nat, nat) -> bool)
    requires c == LONG_LOGS && Chains(25, 23, c, P)
    ensures P(15, 31, 31)
  {
    Long1558First(c, P);
    Long1558Last(c, P);
  }

  lemma Long1558First(c: seq<nat>, P: (nat, nat, nat) -> bool)
    requires c == LONG_LOGS && Chains(25, 23, c, P)
    ensures P(7, 4, 30)
  {
    LongLogsAt();
    assert HornerStep(25, 23, c, 0, 0, 31, 25, 12, 23);
    assert HornerStep(25, 23, c, 1, 12, 23, 19, 25, 21);
    assert HornerStep(25, 23, c, 2, 25, 21, 10, 29, 22);
    assert HornerStep(25, 23, c, 3, 29, 22, 12, 2, 31);
    assert HornerStep(25, 23, c, 4, 2, 31, 27, 20, 25);
    assert HornerStep(25, 23, c, 5, 20, 25, 23, 21, 1);
    assert HornerStep(25, 23, c, 6, 21, 1, 28, 4, 30);
  }

  lemma Long1558Last(c: seq<nat>, P: (nat, nat, nat) -> bool)
    requires c == LONG_LOGS && Chains(25, 23, c, P) && P(7, 4, 30)
    ensures P(15, 31, 31)
  {
    LongLogsAt();
    assert HornerStep(25, 23, c, 7, 4, 30, 30, 6, 24);
    assert HornerStep(25, 23, c, 8, 6, 24, 10, 2, 2);
    assert HornerStep(25, 23, c, 9, 2, 2, 4, 28, 10);
    assert HornerStep(25, 23, c, 10, 28, 10, 5, 11, 1);
    assert HornerStep(25, 23, c, 11, 11, 1, 29, 11, 5);
    assert HornerStep(25, 23, c, 12, 11, 5, 4, 15, 17);
    assert HornerStep(25, 23, c, 13, 15, 17, 5, 7, 0);
    assert HornerStep(25, 23, c, 14, 7, 0, 21, 31, 31);
  }

  lemma Long2046(c: seq<nat>, P: (nat, nat, nat) -> bool)
    requires c == LONG_LOGS && Chains(0, 31, c, P)
    ensures P(15, 31, 31)
  {
    Long2046First(c, P);
    Long2046Last(c, P);
  }

  lemma Long2046First(c: seq<nat>, P: (nat, nat, nat) -> bool)
    requires c == LONG_LOGS && Chains(0, 31, c, P)
    ensures P(7, 1, 31)
  {
    LongLogsAt();
    assert HornerStep(0, 31, c, 0, 0, 31, 0, 23, 31);
    assert HornerStep(0, 31, c, 1, 23, 31, 23, 2, 31);
    assert HornerStep(0, 31, c, 2, 2, 31, 2, 9, 31);
    assert HornerStep(0, 31, c, 3, 9, 31, 9, 22, 31);
    assert HornerStep(0, 31, c, 4, 22, 31, 22, 23, 31);
    assert HornerStep(0, 31, c, 5, 23, 31, 23, 21, 31);
    assert HornerStep(0, 31, c, 6, 21, 31, 21, 1, 31);
  }

  lemma Long2046Last(c: seq<nat>, P: (nat, nat, nat) -> bool)
    requires c == LONG_LOGS && Chains(0, 31, c, P) && P(7, 1, 31)
    ensures P(15, 31, 31)
  {
    LongLogsAt();
    assert HornerStep(0, 31, c, 7, 1, 31, 1, 2, 31);
    assert HornerStep(0, 31, c, 8, 2, 31, 2, 10, 31);
    assert HornerStep(0, 31, c, 9, 10, 31, 10, 15, 31);
    assert HornerStep(0, 31, c, 10, 15, 31, 15, 31, 31);
    assert HornerStep(0, 31, c, 11, 31, 31, 31, 28, 31);
    assert HornerStep(0, 31, c, 12, 28, 31, 28, 10, 31);
    assert HornerStep(0, 31, c, 13, 10, 31, 10, 21, 31);
    assert HornerStep(0, 31, c, 14, 21, 31, 21, 31, 31);
  }

  lemma Long2534(c: seq<nat>, P: (nat, nat, nat) -> bool)
    requires c == LONG_LOGS && Chains(17, 10, c, P)
    ensures P(15, 31, 31)
  {
    Long2534First(c, P);
    Long2534Last(c, P);
  }

  lemma Long2534First(c: seq<nat>, P: (nat, nat, nat) -> bool)
    requires c == LONG_LOGS && Chains(17, 10, c, P)
    ensures P(7, 27, 31)
  {
    LongLogsAt();
    assert HornerStep(17, 10, c, 0, 0, 31, 17, 21, 10);
    assert HornerStep(17, 10, c, 1, 21, 10, 12, 30, 15);
    assert HornerStep(17, 10, c, 2, 30, 15, 29, 10, 26);
    assert HornerStep(17, 10, c, 3, 10, 26, 9, 22, 6);
    assert HornerStep(17, 10, c, 4, 22, 6, 3, 0, 19);
    assert HornerStep(17, 10, c, 5, 0, 19, 14, 8, 6);
    assert HornerStep(17, 10, c, 6, 8, 6, 14, 27, 31);
  }

  lemma Long2534Last(c: seq<nat>, P: (nat, nat, nat) -> bool)
    requires c == LONG_LOGS && Chains(17, 10, c, P) && P(7, 27, 31)
    ensures P(15, 31, 31)
  {
    LongLogsAt();
    assert HornerStep(17, 10, c, 7, 27, 31, 13, 10, 6);
    assert HornerStep(17, 10, c, 8, 10, 6, 2, 10, 15);
    assert HornerStep(17, 10, c, 9, 10, 15, 4, 28, 5);
    assert HornerStep(17, 10, c, 10, 28, 5, 29, 16, 13);
    assert HornerStep(17, 10, c, 11, 16, 13, 25, 30, 8);
    assert HornerStep(17, 10, c, 12, 30, 8, 27, 31, 1);
    assert HornerStep(17, 10, c, 13, 31, 1, 1, 15, 13);
    assert HornerStep(17, 10, c, 14, 15, 13, 21, 31, 31);
  }

  lemma Long3022(c: seq<nat>, P: (nat, nat, nat) -> bool)
    requires c == LONG_LOGS && Chains(19, 25, c, P)
    ensures P(15, 31, 31)
  {
    Long3022First(c, P);
    Long3022Last(c, P);
  }

  lemma Long3022First(c: seq<nat>, P: (nat, nat, nat) -> bool)
    requires c == LONG_LOGS && Chains(19, 25, c, P)
    ensures P(7, 13, 12)
  {
    LongLogsAt();
    assert HornerStep(19, 25, c, 0, 0, 31, 19, 30, 25);
    assert HornerStep(19, 25, c, 1, 30, 25, 2, 23, 13);
    assert HornerStep(19, 25, c, 2, 23, 13, 29, 10, 2);
    assert HornerStep(19, 25, c, 3, 10, 2, 6, 3, 28);
    assert HornerStep(19, 25, c, 4, 3, 28, 18, 4, 20);
    assert HornerStep(19, 25, c, 5, 4, 20, 12, 22, 26);
    assert HornerStep(19, 25, c, 6, 22, 26, 31, 13, 12);
  }

  lemma Long3022Last(c: seq<nat>, P: (nat, nat, nat) -> bool)
    requires c == LONG_LOGS && Chains(19, 25, c, P) && P(7, 13, 12)
    ensures P(15, 31, 31)
  {
    LongLogsAt();
    assert HornerStep(19, 25, c, 7, 13, 12, 30, 6, 14);
    assert HornerStep(19, 25, c, 8, 6, 14, 19, 16, 4);
    assert HornerStep(19, 25, c, 9, 16, 4, 26, 12, 13);
    assert HornerStep(19, 25, c, 10, 12, 13, 2, 1, 23);
    assert HornerStep(19, 25, c, 11, 1, 23, 6, 21, 14);
    assert HornerStep(19, 25, c, 12, 21, 14, 21, 0, 21);
    assert HornerStep(19, 25, c, 13, 0, 21, 6, 27, 10);
    assert HornerStep(19, 25, c, 14, 27, 10, 21, 31, 31);
  }

  lemma Long3510(c: seq<nat>, P: (nat, nat, nat) -> bool)
    requires c == LONG_LOGS && Chains(17, 17, c, P)
    ensures P(15, 31, 31)
  {
    Long3510First(c, P);
    Long3510Last(c, P);
  }

  lemma Long3510First(c: seq<nat>, P: (nat, nat, nat) -> bool)
    requires c == LONG_LOGS && Chains(17, 17, c, P)
    ensures P(7, 27, 2)
  {
    LongLogsAt();
    assert HornerStep(17, 17, c, 0, 0, 31, 17, 21, 17);
    assert HornerStep(17, 17, c, 1, 21, 17, 25, 19, 20);
    assert HornerStep(17, 17, c, 2, 19, 20, 20, 15, 30);
    assert HornerStep(17, 17, c, 3, 15, 30, 4, 29, 18);
    assert HornerStep(17, 17, c, 4, 29, 18, 21, 12, 26);
    assert HornerStep(17, 17, c, 5, 12, 26, 23, 21, 16);
    assert HornerStep(17, 17, c, 6, 21, 16, 14, 27, 2);
  }

  lemma Long3510Last(c: seq<nat>, P: (nat, nat, nat) -> bool)
    requires c == LONG_LOGS && Chains(17, 17, c, P) && P(7, 27, 2)
    ensures P(15, 31, 31)
  {
    LongLogsAt();
    assert HornerStep(17, 17, c, 7, 27, 2, 3, 23, 6);
    assert HornerStep(17, 17, c, 8, 23, 6, 3, 20, 27);
    assert HornerStep(17, 17, c, 9, 20, 27, 8, 11, 12);
    assert HornerStep(17, 17, c, 10, 11, 12, 12, 17, 22);
    assert HornerStep(17, 17, c, 11, 17, 22, 1, 22, 22);
    assert HornerStep(17, 17, c, 12, 22, 22, 4, 15, 13);
    assert HornerStep(17, 17, c, 13, 15, 13, 9, 18, 15);
    assert HornerStep(17, 17, c, 14, 18, 15, 21, 31, 31);
  }

  lemma ShortRootsAre<V(!new)>(sp: Space<V>, one: nat)
    requires Quadratic(sp) && one == 1
    ensures IsRoot(sp, 396 * one, CODEX32_GEN) && IsRoot(sp, 440 * one, CODEX32_GEN) && IsRoot(sp, 484 * one, CODEX32_GEN) && IsRoot(sp, 528 * one, CODEX32_GEN)
    ensures IsRoot(sp, 572 * one, CODEX32_GEN) && IsRoot(sp, 616 * one, CODEX32_GEN) && IsRoot(sp, 660 * one, CODEX32_GEN) && IsRoot(sp, 704 * one, CODEX32_GEN)
  {
    ShortPowers(sp, one);
    GeneratorLogs();
    ValuesChain(sp, 396 * one, 4, 31, SHORT_LOGS);
    Short396(SHORT_LOGS, Values(sp, 396 * one, SHORT_LOGS));
    RootByHorner(sp, 396 * one, CODEX32_GEN, SHORT_LOGS);
    ValuesChain(sp, 440 * one, 8, 27, SHORT_LOGS);
    Short440(SHORT_LOGS, Values(sp, 440 * one, SHORT_LOGS));
    RootByHorner(sp, 440 * one, CODEX32_GEN, SHORT_LOGS);
    ValuesChain(sp, 484 * one, 14, 24, SHORT_LOGS);
    Short484(SHORT_LOGS, Values(sp, 484 * one, SHORT_LOGS));
    RootByHorner(sp, 484 * one, CODEX32_GEN, SHORT_LOGS);
    ValuesChain(sp, 528 * one, 26, 31, SHORT_LOGS);
    Short528(SHORT_LOGS, Values(sp, 528 * one, SHORT_LOGS));
    RootByHorner(sp, 528 * one, CODEX32_GEN, SHORT_LOGS);
    ValuesChain(sp, 572 * one, 30, 18, SHORT_LOGS);
    Short572(SHORT_LOGS, Values(sp, 572 * one, SHORT_LOGS));
    RootByHorner(sp, 572 * one, CODEX32_GEN, SHORT_LOGS);
    ValuesChain(sp, 616 * one, 5, 15, SHORT_LOGS);
    Short616(SHORT_LOGS, Values(sp, 616 * one, SHORT_LOGS));
    RootByHorner(sp, 616 * one, CODEX32_GEN, SHORT_LOGS);
    ValuesChain(sp, 660 * one, 17, 31, SHORT_LOGS);
    Short660(SHORT_LOGS, Values(sp, 660 * one, SHORT_LOGS));
    RootByHorner(sp, 660 * one, CODEX32_GEN, SHORT_LOGS);
    ValuesChain(sp, 704 * one, 21, 9, SHORT_LOGS);
    Short704(SHORT_LOGS, Values(sp, 704 * one, SHORT_LOGS));
    RootByHorner(sp, 704 * one, CODEX32_GEN, SHORT_LOGS);
  }

  /** e^396 and the next seven powers at distances of 44 are roots. */
  lemma ShortRoots<V(!new)>(sp: Space<V>, one: nat)
    requires Quadratic(sp) && one == 1
    ensures HasRoots(sp, 396 * one, 44, 8, CODEX32_GEN)
  {
    ShortRootsAre(sp, one);
    forall j: nat | j < 8 ensures RootAt(sp, 396 * one, 44, j, CODEX32_GEN) {
      assert 396 * one + j * 44 == (396 + 44 * j) * one;
    }
  }

  lemma LongRootsAre<V(!new)>(sp: Space<V>, one: nat)
    requires Quadratic(sp) && one == 1
    ensures IsRoot(sp, 94 * one, CODEX32_LONG_GEN) && IsRoot(sp, 582 * one, CODEX32_LONG_GEN) && IsRoot(sp, 1070 * one, CODEX32_LONG_GEN) && IsRoot(sp, 1558 * one, CODEX32_LONG_GEN)
    ensures IsRoot(sp, 2046 * one, CODEX32_LONG_GEN) && IsRoot(sp, 2534 * one, CODEX32_LONG_GEN) && IsRoot(sp, 3022 * one, CODEX32_LONG_GEN) && IsRoot(sp, 3510 * one, CODEX32_LONG_GEN)
  {
    LongPowers(sp, one);
    GeneratorLogs();
    ValuesChain(sp, 94 * one, 29, 14, LONG_LOGS);
    Long94(LONG_LOGS, Values(sp, 94 * one, LONG_LOGS));
    RootByHorner(sp, 94 * one, CODEX32_LONG_GEN, LONG_LOGS);
    ValuesChain(sp, 582 * one, 28, 25, LONG_LOGS);
    Long582(LONG_LOGS, Values(sp, 582 * one, LONG_LOGS));
    RootByHorner(sp, 582 * one, CODEX32_LONG_GEN, LONG_LOGS);
    ValuesChain(sp, 1070 * one, 6, 20, LONG_LOGS);
    Long1070(LONG_LOGS, Values(sp, 1070 * one, LONG_LOGS));
    RootByHorner(sp, 1070 * one, CODEX32_LONG_GEN, LONG_LOGS);
    ValuesChain(sp, 1558 * one, 25, 23, LONG_LOGS);
    Long1558(LONG_LOGS, Values(sp, 1558 * one, LONG_LOGS));
    RootByHorner(sp, 1558 * one, CODEX32_LONG_GEN, LONG_LOGS);
    ValuesChain(sp, 2046 * one, 0, 31, LONG_LOGS);
    Long2046(LONG_LOGS, Values(sp, 2046 * one, LONG_LOGS));
    RootByHorner(sp, 2046 * one, CODEX32_LONG_GEN, LONG_LOGS);
    ValuesChain(sp, 2534 * one, 17, 10, LONG_LOGS);
    Long2534(LONG_LOGS, Values(sp, 2534 * one, LONG_LOGS));
    RootByHorner(sp, 2534 * one, CODEX32_LONG_GEN, LONG_LOGS);
    ValuesChain(sp, 3022 * one, 19, 25, LONG_LOGS);
    Long3022(LONG_LOGS, Values(sp, 3022 * one, LONG_LOGS));
    RootByHorner(sp, 3022 * one, CODEX32_LONG_GEN, LONG_LOGS);
    ValuesChain(sp, 3510 * one, 17, 17, LONG_LOGS);
    Long3510(LONG_LOGS, Values(sp, 3510 * one, LONG_LOGS));
    RootByHorner(sp, 3510 * one, CODEX32_LONG_GEN, LONG_LOGS);
  }

  /** e^94 and the next seven powers at distances of 488 are roots. */
  lemma LongRoots<V(!new)>(sp: Space<V>, one: nat)
    requires Quadratic(sp) && one == 1
    ensures HasRoots(sp, 94 * one, 488, 8, CODEX32_LONG_GEN)
  {
    LongRootsAre(sp, one);
    forall j: nat | j < 8 ensures RootAt(sp, 94 * one, 488, j, CODEX32_LONG_GEN) {
      assert 94 * one + j * 488 == (94 + 488 * j) * one;
    }
  }

  // ---------------------------------------------------------------- eight errors

  /** Numbers with the same remainder differ by a multiple. */
  lemma SameRemainder(x: nat, y: nat, n: nat) returns (k: int)
    requires n > 0
    ensures x % n == y % n ==> y - x == n * k
  {
    k := y / n - x / n;
    Numbers.Distribute(y / n, x / n, n);
  }

  lemma NoMultiple44(x: int, k: int)
    requires 0 < x < 93
    ensures 44 * x != 1023 * k
  {
  }

  lemma NoMultiple488(x: int, k: int)
    requires 0 < x < 1023
    ensures 488 * x != 1023 * k
  {
    InverseOf488(x, k);
  }

  /** 740 is the inverse of 488. */
  lemma InverseOf488(x: int, k: int)
    ensures 488 * x == 1023 * k ==> x == 1023 * (740 * k - 353 * x)
  {
  }

  /** e^44 has order 93. */
  lemma ShortPlaces(length: nat)
    requires length <= 93
    ensures Distinguishes(44, PERIOD, length)
  {
    forall e: nat, f: nat | e < f < length ensures (44 * e) % PERIOD != (44 * f) % PERIOD {
      var k := SameRemainder(44 * e, 44 * f, PERIOD);
      NoMultiple44(f - e, k);
    }
  }

  /** e^488 has order 1023. */
  lemma LongPlaces(length: nat)
    requires length <= PERIOD
    ensures Distinguishes(488, PERIOD, length)
  {
    forall e: nat, f: nat | e < f < length ensures (488 * e) % PERIOD != (488 * f) % PERIOD {
      var k := SameRemainder(488 * e, 488 * f, PERIOD);
      NoMultiple488(f - e, k);
    }
  }

  /** The window in which errors are detected. */
  function Window(code: Code): nat {
    if code == Short then 93 else PERIOD
  }

  /** Up to eight changed symbols within the window always change the remainder. */
  lemma EightErrorsDetected(t: Tables, code: Code, before: seq<Symbol>, xs: seq<Symbol>, ys: seq<Symbol>, after: seq<Symbol>)
    requires AreTables(t) && |xs| == |ys| <= Window(code) && xs != ys && |Differences(xs, ys)| <= 8
    ensures |code.Gen()| > 0 && Remainder(t, code.Gen(), before + xs + after) != Remainder(t, code.Gen(), before + ys + after)
  {
    var one := PERIOD - 1022;
    Generators();
    FieldPeriod();
    FieldLawful();
    if code == Short {
      ShortRoots(E, one);
      ShortPlaces(|xs|);
      ErrorsDetected(E, PERIOD, 396 * one, 44, 8, t, CODEX32_GEN, before, xs, ys, after);
    } else {
      LongRoots(E, one);
      LongPlaces(|xs|);
      ErrorsDetected(E, PERIOD, 94 * one, 488, 8, t, CODEX32_LONG_GEN, before, xs, ys, after);
    }
  }

  /** A string that verifies stops doing so when up to eight symbols within the window change. */
  lemma ChangesDetected(t: Tables, code: Code, hrp: seq<nat>, before: seq<Symbol>, xs: seq<Symbol>, ys: seq<Symbol>, after: seq<Symbol>)
    requires AreTables(t) && |xs| == |ys| <= Window(code) && xs != ys && |Differences(xs, ys)| <= 8
    requires Verifies(t, code, hrp, before + xs + after)
    ensures !Verifies(t, code, hrp, before + ys + after)
  {
    var p := ExpandPrefix(hrp);
    EightErrorsDetected(t, code, p + before, xs, ys, after);
    assert p + before + xs + after == p + (before + xs + after);
    assert p + before + ys + after == p + (before + ys + after);
  }
}
