/**
 The codex32 checksums (BIP 93), src/codex32.cpp:89-201.
 */
module Codex32 {
  import opened Gf32
  import opened Checksums

  function Symbols(ns: seq<nat>): (s: seq<Symbol>)
    ensures |s| == |ns|
  {
    seq(|ns|, i requires 0 <= i < |ns| => Of(ns[i]))
  }

  /** The bech32 string "secretshare32". */
  const CODEX32_M := Symbols([16, 25, 24, 3, 25, 11, 16, 23, 29, 3, 25, 17, 10])
  /** The bech32 string "secretshare32ex". */
  const CODEX32_LONG_M := Symbols([16, 25, 24, 3, 25, 11, 16, 23, 29, 3, 25, 17, 10, 25, 6])
  /** The generators, without their leading terms. */
  const CODEX32_GEN := Symbols([25, 27, 17, 8, 0, 25, 25, 25, 31, 27, 24, 16, 16])
  const CODEX32_LONG_GEN := Symbols([15, 10, 25, 26, 9, 25, 21, 6, 23, 21, 6, 5, 22, 4, 23])

  lemma Generators()
    ensures IsGenerator(CODEX32_GEN) && |CODEX32_GEN| == |CODEX32_M| == 13
    ensures IsGenerator(CODEX32_LONG_GEN) && |CODEX32_LONG_GEN| == |CODEX32_LONG_M| == 15
  {
    assert Of(16).b4;
    assert Of(23).b4;
  }

  /** The number of a character (CHARSET_REV, src/bech32.cpp:330-342); 32 for all others. */
  function CharValue(c: char): nat {
    match c
    case 'q' | 'Q' => 0
    case 'p' | 'P' => 1
    case 'z' | 'Z' => 2
    case 'r' | 'R' => 3
    case 'y' | 'Y' => 4
    case '9' => 5
    case 'x' | 'X' => 6
    case '8' => 7
    case 'g' | 'G' => 8
    case 'f' | 'F' => 9
    case '2' => 10
    case 't' | 'T' => 11
    case 'v' | 'V' => 12
    case 'd' | 'D' => 13
    case 'w' | 'W' => 14
    case '0' => 15
    case 's' | 'S' => 16
    case '3' => 17
    case 'j' | 'J' => 18
    case 'n' | 'N' => 19
    case '5' => 20
    case '4' => 21
    case 'k' | 'K' => 22
    case 'h' | 'H' => 23
    case 'c' | 'C' => 24
    case 'e' | 'E' => 25
    case '6' => 26
    case 'm' | 'M' => 27
    case 'u' | 'U' => 28
    case 'a' | 'A' => 29
    case '7' => 30
    case 'l' | 'L' => 31
    case _ => 32
  }

  predicate SpelledAt(s: string, v: seq<Symbol>, i: nat)
    requires |s| == |v| && i < |s|
  {
    CharValue(s[i]) < 32 && v[i] == Of(CharValue(s[i]))
  }

  /** The string s is read as the symbols v. */
  predicate Spells(s: string, v: seq<Symbol>) {
    |s| == |v| && forall i: nat {:trigger SpelledAt(s, v, i)} :: i < |s| ==> SpelledAt(s, v, i)
  }

  /** A string spells one sequence of symbols. */
  lemma SpelledOnce(s: string, v: seq<Symbol>, w: seq<Symbol>)
    requires Spells(s, v) && Spells(s, w)
    ensures v == w
  {
    forall i: nat | i < |s| ensures v[i] == w[i] {
      assert SpelledAt(s, v, i) && SpelledAt(s, w, i);
    }
  }

  predicate ReadAt(s: string, ns: seq<nat>, i: nat) {
    i < |s| && i < |ns| && CharValue(s[i]) == ns[i] < 32
  }

  lemma SpelledBy(s: string, ns: seq<nat>)
    requires |s| == |ns| && forall i: nat {:trigger ReadAt(s, ns, i)} :: i < |s| ==> ReadAt(s, ns, i)
    ensures Spells(s, Symbols(ns))
  {
    forall i: nat | i < |s| ensures SpelledAt(s, Symbols(ns), i) {
      assert ReadAt(s, ns, i);
    }
  }

  lemma TargetRead(s: string, ns: seq<nat>)
    requires s == "secretshare32ex" && ns == [16, 25, 24, 3, 25, 11, 16, 23, 29, 3, 25, 17, 10, 25, 6]
    ensures forall i: nat {:trigger ReadAt(s, ns, i)} :: i < 15 ==> ReadAt(s, ns, i)
  {
    assert ReadAt(s, ns, 0) && ReadAt(s, ns, 1) && ReadAt(s, ns, 2) && ReadAt(s, ns, 3) && ReadAt(s, ns, 4);
    assert ReadAt(s, ns, 5) && ReadAt(s, ns, 6) && ReadAt(s, ns, 7) && ReadAt(s, ns, 8) && ReadAt(s, ns, 9);
    assert ReadAt(s, ns, 10) && ReadAt(s, ns, 11) && ReadAt(s, ns, 12) && ReadAt(s, ns, 13) && ReadAt(s, ns, 14);
  }

  /** The targets are strings anyone can read. */
  lemma TargetsSpelled()
    ensures Spells("secretshare32", CODEX32_M) && Spells("secretshare32ex", CODEX32_LONG_M)
  {
    var s, ns := "secretshare32ex", [16, 25, 24, 3, 25, 11, 16, 23, 29, 3, 25, 17, 10, 25, 6];
    TargetRead(s, ns);
    SpelledBy(s, ns);
    forall i: nat | i < 13 ensures SpelledAt(s[..13], Symbols(ns)[..13], i) {
      assert SpelledAt(s, Symbols(ns), i);
    }
    assert CODEX32_M == Symbols(ns)[..13] && s[..13] == "secretshare32";
  }

  /** The high and then the low bits of the prefix, with a zero in between. */
  function ExpandPrefix(hrp: seq<nat>): seq<Symbol> {
    seq(|hrp|, i requires 0 <= i < |hrp| => Of(hrp[i] / 32)) + [ZERO] + seq(|hrp|, i requires 0 <= i < |hrp| => Of(hrp[i] % 32))
  }

  /** PreparePolynomialCoefficients (src/bech32.cpp:345-358). */
  method PreparePolynomialCoefficients(hrp: seq<nat>, values: seq<Symbol>) returns (ret: seq<Symbol>)
    ensures ret == ExpandPrefix(hrp) + values
  {
    ret := [];
    for i := 0 to |hrp|
      invariant ret == ExpandPrefix(hrp)[..i]
    {
      ret := ret + [Of(hrp[i] / 32)];
    }
    ret := ret + [ZERO];
    for i := 0 to |hrp|
      invariant ret == ExpandPrefix(hrp)[..|hrp| + 1 + i]
    {
      ret := ret + [Of(hrp[i] % 32)];
    }
    ret := ret + values;
  }

  /** PolyMod: the remainder, computed in place. */
  method PolyMod(t: Tables, v: seq<Symbol>, gen: Residue) returns (res: array<Symbol>)
    requires AreTables(t) && |gen| > 0
    ensures fresh(res) && res[..] == Remainder(t, gen, v)
  {
    var n := |gen|;
    res := new Symbol[n](_ => ZERO);
    res[n - 1] := ONE;
    assert res[..] == Start(gen);
    for k := 0 to |v|
      invariant res[..] == Run(t, gen, Start(gen), v[..k])
    {
      RunConcat(t, gen, Start(gen), v[..k], [v[k]]);
      assert v[..k + 1] == v[..k] + [v[k]];
      assert Run(t, gen, res[..], [v[k]]) == Step(t, gen, res[..], v[k]);
      Advance(t, gen, res, v[k]);
    }
    assert v[..|v|] == v;
  }

  /** One symbol: shift, add, reduce. */
  method Advance(t: Tables, gen: Residue, res: array<Symbol>, v: Symbol)
    requires AreTables(t) && |gen| == res.Length > 0
    modifies res
    ensures res[..] == Step(t, gen, old(res[..]), v)
  {
    ghost var r := res[..];
    var shift := res[0];
    ShiftIn(res, v);
    for i := 0 to res.Length
      invariant forall k: nat :: k < i ==> res[k] == StepAt(t, gen, r, v, k)
      invariant forall k: nat :: i <= k < res.Length ==> res[k] == Shifted(r, v, k)
    {
      ReduceAt(t, gen[i], shift, res[i]);
      if shift != ZERO && gen[i] != ZERO {
        res[i] := Xor(res[i], Mul(t, gen[i], shift));
      }
    }
    assert res[..] == Step(t, gen, r, v);
  }

  /** Adding a product that is zero changes nothing. */
  lemma ReduceAt(t: Tables, g: Symbol, shift: Symbol, x: Symbol)
    requires AreTables(t)
    ensures shift == ZERO || g == ZERO ==> Xor(x, Mul(t, g, shift)) == x
  {
    XorUnit(x, ZERO);
  }

  function Shifted(r: Residue, v: Symbol, k: nat): Symbol {
    if k + 1 < |r| then r[k + 1] else v
  }

  /** Multiply by x and add the next value. */
  method ShiftIn(res: array<Symbol>, v: Symbol)
    requires res.Length > 0
    modifies res
    ensures forall k: nat :: k < res.Length ==> res[k] == Shifted(old(res[..]), v, k)
  {
    ghost var r := res[..];
    var n := res.Length;
    for i := 1 to n
      invariant forall k :: 0 <= k < i - 1 ==> res[k] == r[k + 1]
      invariant forall k :: i - 1 <= k < n ==> res[k] == r[k]
    {
      res[i - 1] := res[i];
    }
    res[n - 1] := v;
  }

  /** VerifyChecksum. */
  method VerifyChecksum(t: Tables, hrp: seq<nat>, values: seq<Symbol>, gen: Residue, target: Residue) returns (ok: bool)
    requires AreTables(t) && |gen| == |target| > 0
    ensures ok <==> Remainder(t, gen, ExpandPrefix(hrp) + values) == target
  {
    var enc := PreparePolynomialCoefficients(hrp, values);
    var res := PolyMod(t, enc, gen);
    for i := 0 to res.Length
      invariant forall k :: 0 <= k < i ==> res[k] == target[k]
    {
      if res[i] != target[i] {
        assert res[..][i] != target[i];
        return false;
      }
    }
    assert res[..] == target;
    return true;
  }

  /** CreateChecksum. */
  method CreateChecksum(t: Tables, hrp: seq<nat>, values: seq<Symbol>, gen: Residue, target: Residue) returns (ret: seq<Symbol>)
    requires AreTables(t) && |gen| == |target| > 0
    ensures ret == Checksum(t, gen, target, ExpandPrefix(hrp) + values)
    ensures Remainder(t, gen, ExpandPrefix(hrp) + values + ret) == target
  {
    var enc := PreparePolynomialCoefficients(hrp, values);
    ghost var payload := enc;
    enc := enc + Zeros(|gen|);
    var checksum := PolyMod(t, enc, gen);
    ret := seq(checksum.Length, i requires 0 <= i < checksum.Length reads checksum => Xor(checksum[i], target[i]));
    assert ret == Checksum(t, gen, target, payload);
    ChecksumVerifies(t, gen, target, payload);
  }

  /** The code of a string by its length: the short generator or the long one. */
  datatype Code = Short | Long {
    function Gen(): Residue {
      if this == Short then CODEX32_GEN else CODEX32_LONG_GEN
    }

    function Target(): Residue {
      if this == Short then CODEX32_M else CODEX32_LONG_M
    }
  }

  /** A codex32 string verifies. */
  ghost predicate Verifies(t: Tables, code: Code, hrp: seq<nat>, values: seq<Symbol>)
    requires AreTables(t)
  {
    Generators();
    Remainder(t, code.Gen(), ExpandPrefix(hrp) + values) == code.Target()
  }

  /** Appending the created checksum makes the string verify. */
  lemma CreatedVerifies(t: Tables, code: Code, hrp: seq<nat>, values: seq<Symbol>)
    requires AreTables(t)
    ensures |code.Gen()| == |code.Target()| > 0
    ensures Verifies(t, code, hrp, values + Checksum(t, code.Gen(), code.Target(), ExpandPrefix(hrp) + values))
  {
    Generators();
    var p, c := ExpandPrefix(hrp), Checksum(t, code.Gen(), code.Target(), ExpandPrefix(hrp) + values);
    ChecksumVerifies(t, code.Gen(), code.Target(), p + values);
    assert p + values + c == p + (values + c);
  }

  /** A change within 13 (or 15) consecutive symbols makes a string that verified stop verifying. */
  lemma ChangeDetected(t: Tables, code: Code, hrp: seq<nat>, before: seq<Symbol>, xs: seq<Symbol>, ys: seq<Symbol>, after: seq<Symbol>)
    requires AreTables(t) && |xs| == |ys| <= (if code == Short then 13 else 15) && xs != ys
    requires Verifies(t, code, hrp, before + xs + after)
    ensures !Verifies(t, code, hrp, before + ys + after)
  {
    Generators();
    var p := ExpandPrefix(hrp);
    BurstDetected(t, code.Gen(), p + before, xs, ys, after);
    assert p + before + xs + after == p + (before + xs + after);
    assert p + before + ys + after == p + (before + ys + after);
  }
}
