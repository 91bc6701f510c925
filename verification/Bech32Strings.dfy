/**
 Two strings known to be valid, one for each encoding (src/test/bech32_tests.cpp:18 and :38),
 with the remainders calculated by logarithms.
 */
module Bech32Strings {
  import opened Gf32
  import opened Gf1024
  import opened Checksums
  import opened Bech32
  import opened PowersOfE
  import opened Bech32Errors
  import Codex32

  predicate StepsAt(g: seq<nat>, c: seq<nat>, v: nat, r: seq<nat>, i: nat)
    requires |g| == |c| == |r| && i < |r|
  {
    g[i] <= 31 && c[i] <= 31 && r[i] == LogAdd(if i + 1 < |c| then c[i + 1] else v, LogMul(g[i], c[0]))
  }

  /** One more symbol leads from remainder c to r, all given by logarithms. */
  predicate Steps(g: seq<nat>, c: seq<nat>, v: nat, r: seq<nat>) {
    |g| == |c| == |r| && v <= 31 && forall i: nat {:trigger StepsAt(g, c, v, r, i)} :: i < |r| ==> StepsAt(g, c, v, r, i)
  }

  lemma StepByLogs(t: Tables, gen: Residue, g: seq<nat>, c: seq<nat>, v: nat, r: seq<nat>)
    requires AreTables(t) && gen == Coefficients(g) && Steps(g, c, v, r)
    ensures Step(t, gen, Coefficients(c), Elt(v)) == Coefficients(r)
  {
    forall i: nat | i < |r| ensures StepAt(t, gen, Coefficients(c), Elt(v), i) == Elt(r[i]) {
      assert StepsAt(g, c, v, r, i) && StepsAt(g, c, v, r, 0) && (i + 1 < |r| ==> StepsAt(g, c, v, r, i + 1));
      AddedByLogs(t, g[i], c[0], if i + 1 < |r| then c[i + 1] else v);
    }
  }

  lemma AddedByLogs(t: Tables, g: nat, c: nat, next: nat)
    requires AreTables(t) && g <= 31 && c <= 31 && next <= 31
    ensures Xor(Elt(next), Mul(t, Elt(g), Elt(c))) == Elt(LogAdd(next, LogMul(g, c)))
  {
    MulIsProduct(t, Elt(g), Elt(c));
    LogMulIs(g, c);
    LogAddIs(next, LogMul(g, c));
  }

  /** The logarithms of the remainders after each symbol: the symbols v lead from r[0] to the last one. */
  predicate Path(g: seq<nat>, r: seq<seq<nat>>, v: seq<nat>) {
    && |r| == |v| + 1 && |r[0]| == |g|
    && forall i: nat {:trigger Steps(g, r[i], v[i], r[i + 1])} :: i < |v| ==> Steps(g, r[i], v[i], r[i + 1])
  }

  lemma {:induction false} RunByLogs(t: Tables, gen: Residue, g: seq<nat>, r: seq<seq<nat>>, v: seq<nat>, n: nat)
    requires AreTables(t) && gen == Coefficients(g) && Path(g, r, v) && n <= |v|
    ensures |r[n]| == |g| && Run(t, gen, Coefficients(r[0]), Coefficients(v)[..n]) == Coefficients(r[n])
  {
    if n > 0 {
      var i := n - 1;
      RunByLogs(t, gen, g, r, v, i);
      assert Coefficients(v)[..n] == Coefficients(v)[..i] + [Elt(v[i])];
      RunConcat(t, gen, Coefficients(r[0]), Coefficients(v)[..i], [Elt(v[i])]);
      assert Steps(g, r[i], v[i], r[i + 1]);
      StepByLogs(t, gen, g, r[i], v[i], r[i + 1]);
      assert Run(t, gen, Coefficients(r[i]), [Elt(v[i])]) == Step(t, gen, Coefficients(r[i]), Elt(v[i]));
    }
  }

  /** The first symbols are just remembered, after the implicit one. */
  lemma FirstRemembered(t: Tables, gen: Residue, xs: seq<Symbol>)
    requires AreTables(t) && |gen| == |xs| + 1
    ensures Remainder(t, gen, xs) == [ONE] + xs
  {
    var n := |gen|;
    Remembers(t, gen, [ONE]);
    assert Zeros(n - 1) + [ONE] == Start(gen);
    RunConcat(t, gen, Zeros(n), [ONE], xs);
    Remembers(t, gen, [ONE] + xs);
    assert Zeros(0) + ([ONE] + xs) == [ONE] + xs;
  }

  lemma RemainderByLogs(t: Tables, gen: Residue, g: seq<nat>, xs: seq<nat>, r: seq<seq<nat>>, v: seq<nat>)
    requires AreTables(t) && gen == Coefficients(g) && |gen| == |xs| + 1 && Path(g, r, v) && r[0] == [0] + xs
    ensures Remainder(t, gen, Coefficients(xs) + Coefficients(v)) == Coefficients(r[|v|])
  {
    RunConcat(t, gen, Start(gen), Coefficients(xs), Coefficients(v));
    FirstRemembered(t, gen, Coefficients(xs));
    ZeroLog();
    assert Coefficients(r[0]) == [ONE] + Coefficients(xs);
    RunByLogs(t, gen, g, r, v, |v|);
    assert Coefficients(v)[..|v|] == Coefficients(v);
  }

  lemma ZeroLog()
    ensures Elt(0) == ONE && Elt(31) == ZERO
  {
    Powers();
  }

  // ---------------------------------------------------------------- A12UEL5L and A1LQFN3A

  lemma A12uel5lStep0()
    ensures Steps(GENERATOR_LOGS, [0, 14, 31, 0, 29, 24], 18, [12, 27, 13, 20, 0, 26])
  {
  }

  lemma A12uel5lStep1()
    ensures Steps(GENERATOR_LOGS, [12, 27, 13, 20, 0, 26], 20, [0, 11, 4, 4, 24, 15])
  {
  }

  lemma A12uel5lStep2()
    ensures Steps(GENERATOR_LOGS, [0, 11, 4, 4, 24, 15], 30, [6, 15, 2, 5, 19, 15])
  {
  }

  lemma A12uel5lStep3()
    ensures Steps(GENERATOR_LOGS, [6, 15, 2, 5, 19, 15], 20, [31, 31, 31, 31, 31, 0])
  {
  }

  lemma A12uel5lPath()
    ensures Path(GENERATOR_LOGS, [[0, 14, 31, 0, 29, 24], [12, 27, 13, 20, 0, 26], [0, 11, 4, 4, 24, 15], [6, 15, 2, 5, 19, 15], [31, 31, 31, 31, 31, 0]], [18, 20, 30, 20])
  {
    A12uel5lStep0();
    A12uel5lStep1();
    A12uel5lStep2();
    A12uel5lStep3();
  }

  lemma A1lqfn3aStep0()
    ensures Steps(GENERATOR_LOGS, [0, 14, 31, 0, 20, 31], 5, [12, 27, 13, 29, 9, 19])
  {
  }

  lemma A1lqfn3aStep1()
    ensures Steps(GENERATOR_LOGS, [12, 27, 13, 29, 9, 19], 10, [0, 11, 28, 16, 16, 29])
  {
  }

  lemma A1lqfn3aStep2()
    ensures Steps(GENERATOR_LOGS, [0, 11, 28, 16, 16, 29], 25, [6, 10, 17, 18, 21, 14])
  {
  }

  lemma A1lqfn3aStep3()
    ensures Steps(GENERATOR_LOGS, [6, 10, 17, 18, 21, 14], 9, [13, 24, 4, 16, 28, 14])
  {
  }

  lemma A1lqfn3aPath()
    ensures Path(GENERATOR_LOGS, [[0, 14, 31, 0, 20, 31], [12, 27, 13, 29, 9, 19], [0, 11, 28, 16, 16, 29], [6, 10, 17, 18, 21, 14], [13, 24, 4, 16, 28, 14]], [5, 10, 25, 9])
  {
    A1lqfn3aStep0();
    A1lqfn3aStep1();
    A1lqfn3aStep2();
    A1lqfn3aStep3();
  }

  predicate LogAt(ns: seq<nat>, logs: seq<nat>, i: nat)
    requires |logs| == |ns| && i < |ns|
  {
    if ns[i] == 0 then logs[i] == 31 else logs[i] < 31 && ExpNat(logs[i]) == ns[i]
  }

  predicate AreLogs(ns: seq<nat>, logs: seq<nat>) {
    |logs| == |ns| && forall i: nat {:trigger LogAt(ns, logs, i)} :: i < |ns| ==> LogAt(ns, logs, i)
  }

  lemma SymbolLogs(ns: seq<nat>, logs: seq<nat>)
    requires AreLogs(ns, logs)
    ensures Codex32.Symbols(ns) == Coefficients(logs)
  {
    forall i: nat | i < |ns| ensures Of(ns[i]) == Elt(logs[i]) {
      assert LogAt(ns, logs, i);
      if ns[i] == 0 {
        ZeroNumber();
      } else {
        ExpIsPower(logs[i]);
      }
    }
  }

  lemma ZeroNumber()
    ensures Of(0) == ZERO && Of(1) == ONE
  {
  }

  /** The human-readable part "a". */
  lemma PrefixA(hrp: seq<nat>)
    requires |hrp| == 1 && hrp[0] == 97
    ensures Codex32.ExpandPrefix(hrp) == Codex32.Symbols([3, 0, 1])
  {
    ZeroNumber();
  }

  lemma SymbolsConcat(a: seq<nat>, b: seq<nat>)
    ensures Codex32.Symbols(a + b) == Codex32.Symbols(a) + Codex32.Symbols(b)
    ensures Coefficients(a + b) == Coefficients(a) + Coefficients(b)
  {
  }

  /** A valid string by its symbols and their logarithms. */
  lemma KnownString(t: Tables, e: Encoding, n: nat, values: seq<nat>, xs: seq<nat>, v: seq<nat>, r: seq<seq<nat>>)
    requires AreTables(t) && e != INVALID && n == EncodingConstant(e)
    requires AreLogs([3, 0, 1] + values, xs + v) && |xs| == 5 && Path(GENERATOR_LOGS, r, v) && r[0] == [0] + xs
    requires AreLogs(GroupNats(n), r[|v|])
    ensures VerifiedAs(t, [97], Codex32.Symbols(values)) == e
  {
    PrefixA([97]);
    SymbolsConcat([3, 0, 1], values);
    SymbolLogs([3, 0, 1] + values, xs + v);
    SymbolsConcat(xs, v);
    GeneratorLogs();
    RemainderByLogs(t, GENERATOR, GENERATOR_LOGS, xs, r, v);
    SymbolLogs(GroupNats(n), r[|v|]);
    IsBech32Generator();
  }

  lemma TargetGroups()
    ensures GroupNats(0x2bc830a3) == [21, 28, 16, 12, 5, 3]
  {
  }

  lemma A12uel5lLogs()
    ensures AreLogs([3, 0, 1] + [10, 28, 25, 31, 20, 31], [14, 31, 0, 29, 24] + [18, 20, 30, 20])
    ensures AreLogs(GroupNats(EncodingConstant(BECH32)), [31, 31, 31, 31, 31, 0])
  {
  }

  lemma A1lqfn3aLogs()
    ensures AreLogs([3, 0, 1] + [31, 0, 9, 19, 17, 29], [14, 31, 0, 20, 31] + [5, 10, 25, 9])
    ensures AreLogs(GroupNats(EncodingConstant(BECH32M)), [13, 24, 4, 16, 28, 14])
  {
    TargetGroups();
  }

  /** The strings A12UEL5L and A1LQFN3A are valid as Bech32 and as Bech32m: 97 is the letter a, and v and w are what
   stands after the separator. */
  lemma KnownStrings(t: Tables, v: seq<Symbol>, w: seq<Symbol>)
    requires AreTables(t)
    ensures Codex32.Spells("2UEL5L", v) ==> VerifiedAs(t, [97], v) == BECH32
    ensures Codex32.Spells("LQFN3A", w) ==> VerifiedAs(t, [97], w) == BECH32M
  {
    A12uel5lValid(t);
    A1lqfn3aValid(t);
    A12uel5lRead("2UEL5L", [10, 28, 25, 31, 20, 31]);
    A1lqfn3aRead("LQFN3A", [31, 0, 9, 19, 17, 29]);
    if Codex32.Spells("2UEL5L", v) {
      Codex32.SpelledOnce("2UEL5L", v, Codex32.Symbols([10, 28, 25, 31, 20, 31]));
    }
    if Codex32.Spells("LQFN3A", w) {
      Codex32.SpelledOnce("LQFN3A", w, Codex32.Symbols([31, 0, 9, 19, 17, 29]));
    }
  }

  lemma A12uel5lRead(s: string, ns: seq<nat>)
    requires s == "2UEL5L" && ns == [10, 28, 25, 31, 20, 31]
    ensures Codex32.Spells(s, Codex32.Symbols(ns))
  {
    assert Codex32.ReadAt(s, ns, 0) && Codex32.ReadAt(s, ns, 1) && Codex32.ReadAt(s, ns, 2);
    assert Codex32.ReadAt(s, ns, 3) && Codex32.ReadAt(s, ns, 4) && Codex32.ReadAt(s, ns, 5);
    Codex32.SpelledBy(s, ns);
  }

  lemma A1lqfn3aRead(s: string, ns: seq<nat>)
    requires s == "LQFN3A" && ns == [31, 0, 9, 19, 17, 29]
    ensures Codex32.Spells(s, Codex32.Symbols(ns))
  {
    assert Codex32.ReadAt(s, ns, 0) && Codex32.ReadAt(s, ns, 1) && Codex32.ReadAt(s, ns, 2);
    assert Codex32.ReadAt(s, ns, 3) && Codex32.ReadAt(s, ns, 4) && Codex32.ReadAt(s, ns, 5);
    Codex32.SpelledBy(s, ns);
  }

  lemma A12uel5lValid(t: Tables)
    requires AreTables(t)
    ensures VerifiedAs(t, [97], Codex32.Symbols([10, 28, 25, 31, 20, 31])) == BECH32
  {
    A12uel5lPath();
    A12uel5lLogs();
    KnownString(t, BECH32, EncodingConstant(BECH32), [10, 28, 25, 31, 20, 31], [14, 31, 0, 29, 24], [18, 20, 30, 20], [[0, 14, 31, 0, 29, 24], [12, 27, 13, 20, 0, 26], [0, 11, 4, 4, 24, 15], [6, 15, 2, 5, 19, 15], [31, 31, 31, 31, 31, 0]]);
  }

  lemma A1lqfn3aValid(t: Tables)
    requires AreTables(t)
    ensures VerifiedAs(t, [97], Codex32.Symbols([31, 0, 9, 19, 17, 29])) == BECH32M
  {
    A1lqfn3aPath();
    A1lqfn3aLogs();
    KnownString(t, BECH32M, EncodingConstant(BECH32M), [31, 0, 9, 19, 17, 29], [14, 31, 0, 20, 31], [5, 10, 25, 9], [[0, 14, 31, 0, 20, 31], [12, 27, 13, 29, 9, 19], [0, 11, 28, 16, 16, 29], [6, 10, 17, 18, 21, 14], [13, 24, 4, 16, 28, 14]]);
  }
}
