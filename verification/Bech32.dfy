/**
 The checksums of Bech32 ("Checksum" in BIP 173) and Bech32m (BIP 350), src/bech32.cpp:115-201 and
 :300-323. The 30-bit accumulator is kept as its six 5-bit groups, so that its exclusive or works
 group by group.
 */
module Bech32 {
  import opened Gf32
  import opened Checksums
  import Codex32

  const CHECKSUM_SIZE: nat := 6

  datatype Encoding = INVALID | BECH32 | BECH32M

  /** The 5-bit groups of a 30-bit number, highest first. */
  function GroupNats(c: nat): (s: seq<nat>)
    ensures |s| == CHECKSUM_SIZE
  {
    [c / 0x200_0000 % 32, c / 0x10_0000 % 32, c / 0x8000 % 32, c / 0x400 % 32, c / 0x20 % 32, c % 32]
  }

  function Groups(c: nat): (s: Residue)
    ensures |s| == CHECKSUM_SIZE
  {
    Codex32.Symbols(GroupNats(c))
  }

  function EncodingConstant(e: Encoding): nat {
    if e == BECH32 then 1 else 0x2bc830a3
  }

  /** g(x) = x^6 + {29}x^5 + {22}x^4 + {20}x^3 + {21}x^2 + {29}x + {18}. */
  const GENERATOR: Residue := [Of(29), Of(22), Of(20), Of(21), Of(29), Of(18)]

  /** {2^n}k(x), packed, for the bits n of the group shifted out. */
  function Constant(n: nat): nat {
    match n
    case 0 => 0x3b6a57b2
    case 1 => 0x26508e6d
    case 2 => 0x1ea119fa
    case 3 => 0x3d4233dd
    case _ => 0x2a1462b3
  }

  lemma PackedGroups()
    ensures GroupNats(0x3b6a57b2) == [29, 22, 20, 21, 29, 18]
    ensures GroupNats(0x26508e6d) == [19, 5, 1, 3, 19, 13]
    ensures GroupNats(0x1ea119fa) == [15, 10, 2, 6, 15, 26]
    ensures GroupNats(0x3d4233dd) == [30, 20, 4, 12, 30, 29]
    ensures GroupNats(0x2a1462b3) == [21, 1, 8, 24, 21, 19]
  {
  }

  lemma Twice0()
    ensures Dbl(Of(29)) == Of(19) && Dbl(Of(22)) == Of(5) && Dbl(Of(20)) == Of(1) && Dbl(Of(21)) == Of(3) && Dbl(Of(18)) == Of(13)
  {
  }

  lemma Twice1()
    ensures Dbl(Of(19)) == Of(15) && Dbl(Of(5)) == Of(10) && Dbl(Of(1)) == Of(2) && Dbl(Of(3)) == Of(6) && Dbl(Of(13)) == Of(26)
  {
  }

  lemma Twice2()
    ensures Dbl(Of(15)) == Of(30) && Dbl(Of(10)) == Of(20) && Dbl(Of(2)) == Of(4) && Dbl(Of(6)) == Of(12) && Dbl(Of(26)) == Of(29)
  {
  }

  lemma Twice3()
    ensures Dbl(Of(30)) == Of(21) && Dbl(Of(20)) == Of(1) && Dbl(Of(4)) == Of(8) && Dbl(Of(12)) == Of(24) && Dbl(Of(29)) == Of(19)
  {
  }

  function DblAll(s: Residue): Residue
    requires |s| == CHECKSUM_SIZE
  {
    [Dbl(s[0]), Dbl(s[1]), Dbl(s[2]), Dbl(s[3]), Dbl(s[4]), Dbl(s[5])]
  }

  lemma SixSymbols(ns: seq<nat>)
    requires |ns| == CHECKSUM_SIZE
    ensures Codex32.Symbols(ns) == [Of(ns[0]), Of(ns[1]), Of(ns[2]), Of(ns[3]), Of(ns[4]), Of(ns[5])]
  {
  }

  /** The groups of {2^n}k(x). */
  function ConstantGroupNats(n: nat): (s: seq<nat>)
    ensures |s| == CHECKSUM_SIZE
  {
    match n
    case 0 => [29, 22, 20, 21, 29, 18]
    case 1 => [19, 5, 1, 3, 19, 13]
    case 2 => [15, 10, 2, 6, 15, 26]
    case 3 => [30, 20, 4, 12, 30, 29]
    case _ => [21, 1, 8, 24, 21, 19]
  }

  lemma ConstantGroupsAre(n: nat)
    ensures GroupNats(Constant(n)) == ConstantGroupNats(n)
  {
    PackedGroups();
  }

  /** Each packed constant is twice the one before. */
  lemma NextConstant(n: nat)
    requires n < 4
    ensures Codex32.Symbols(ConstantGroupNats(n + 1)) == DblAll(Codex32.Symbols(ConstantGroupNats(n)))
  {
    SixSymbols(ConstantGroupNats(n));
    SixSymbols(ConstantGroupNats(n + 1));
    if n == 0 {
      Twice0();
    } else if n == 1 {
      Twice1();
    } else if n == 2 {
      Twice2();
    } else {
      Twice3();
    }
  }

  /** The packed constants are the generator times the powers of a. */
  lemma {:induction false} ConstantGroups(n: nat, i: nat)
    requires n < 5 && i < CHECKSUM_SIZE
    ensures Groups(Constant(n))[i] == Times(GENERATOR[i], n)
  {
    ConstantGroupsAre(n);
    if n == 0 {
      SixSymbols(ConstantGroupNats(0));
    } else {
      ConstantGroups(n - 1, i);
      ConstantGroupsAre(n - 1);
      NextConstant(n - 1);
    }
  }

  // ---------------------------------------------------------------- the packed computation

  /** Add the packed constants for bits n and up of c0. */
  function Reduced(c: Residue, c0: Symbol, n: nat): (r: Residue)
    requires n <= 5 && |c| == CHECKSUM_SIZE
    ensures |r| == CHECKSUM_SIZE
  {
    if n == 0 then c
    else
      var r := Reduced(c, c0, n - 1);
      if Bit(c0, n - 1) then XorAll(r, Groups(Constant(n - 1))) else r
  }

  lemma {:induction false} ReducedAt(c: Residue, c0: Symbol, n: nat, i: nat)
    requires n <= 5 && |c| == CHECKSUM_SIZE && i < CHECKSUM_SIZE
    ensures Reduced(c, c0, n)[i] == Xor(c[i], Partial(GENERATOR[i], c0, n))
  {
    XorUnit(c[i], ZERO);
    if n > 0 {
      ReducedAt(c, c0, n - 1, i);
      ConstantGroups(n - 1, i);
      AddPicked(c[i], Partial(GENERATOR[i], c0, n - 1), Bit(c0, n - 1), Times(GENERATOR[i], n - 1));
    }
  }

  lemma AddPicked(x: Symbol, y: Symbol, b: bool, z: Symbol)
    ensures Xor(x, Xor(y, Pick(b, z))) == if b then Xor(Xor(x, y), z) else Xor(x, y)
  {
    XorAssociates(x, y, Pick(b, z));
    XorUnit(Xor(x, y), ZERO);
  }

  lemma XorAssociates(x: Symbol, y: Symbol, z: Symbol)
    ensures Xor(Xor(x, y), z) == Xor(x, Xor(y, z))
  {
    XorSwap(x, y, ZERO, z);
    XorUnit(z, z);
    XorUnit(x, x);
    XorUnit(Xor(x, y), Xor(x, y));
  }

  /** One symbol of PolyMod: the bits shifted out select constants to add. */
  function PackedStep(c: Residue, v: Symbol): (r: Residue)
    requires |c| == CHECKSUM_SIZE
    ensures |r| == CHECKSUM_SIZE
  {
    Reduced(c[1..] + [v], c[0], 5)
  }

  /** It is one step of the polynomial remainder. */
  lemma PackedStepIs(t: Tables, c: Residue, v: Symbol)
    requires AreTables(t) && |c| == CHECKSUM_SIZE
    ensures PackedStep(c, v) == Step(t, GENERATOR, c, v)
  {
    var s := c[1..] + [v];
    forall i: nat | i < CHECKSUM_SIZE ensures PackedStep(c, v)[i] == StepAt(t, GENERATOR, c, v, i) {
      ReducedAt(s, c[0], 5, i);
      MulIsProduct(t, GENERATOR[i], c[0]);
    }
  }

  /** PolyMod. */
  method PolyMod(v: seq<Symbol>, ghost t: Tables) returns (c: Residue)
    requires AreTables(t)
    ensures |c| == CHECKSUM_SIZE && c == Remainder(t, GENERATOR, v)
  {
    c := Groups(1);
    StartIsOne();
    for k := 0 to |v|
      invariant |c| == CHECKSUM_SIZE && c == Run(t, GENERATOR, Start(GENERATOR), v[..k])
    {
      RunConcat(t, GENERATOR, Start(GENERATOR), v[..k], [v[k]]);
      assert v[..k + 1] == v[..k] + [v[k]];
      assert Run(t, GENERATOR, c, [v[k]]) == Step(t, GENERATOR, c, v[k]);
      PackedStepIs(t, c, v[k]);
      c := Advance(c, v[k]);
    }
    assert v[..|v|] == v;
  }

  lemma StartIsOne()
    ensures Groups(1) == Start(GENERATOR)
  {
    assert Of(0) == ZERO && Of(1) == ONE;
  }

  /** Shift, add, and add a constant for each bit shifted out. */
  method Advance(c: Residue, v: Symbol) returns (r: Residue)
    requires |c| == CHECKSUM_SIZE
    ensures r == PackedStep(c, v)
  {
    var c0 := c[0];
    r := c[1..] + [v];
    ghost var s := r;
    if c0.b0 { r := XorAll(r, Groups(0x3b6a57b2)); }
    assert r == Reduced(s, c0, 1);
    if c0.b1 { r := XorAll(r, Groups(0x26508e6d)); }
    assert r == Reduced(s, c0, 2);
    if c0.b2 { r := XorAll(r, Groups(0x1ea119fa)); }
    assert r == Reduced(s, c0, 3);
    if c0.b3 { r := XorAll(r, Groups(0x3d4233dd)); }
    assert r == Reduced(s, c0, 4);
    if c0.b4 { r := XorAll(r, Groups(0x2a1462b3)); }
    assert r == Reduced(s, c0, 5);
  }

  // ---------------------------------------------------------------- checksums

  lemma IsBech32Generator()
    ensures IsGenerator(GENERATOR) && Groups(1) != Groups(0x2bc830a3)
  {
    assert Of(18).b4;
    assert GroupNats(1)[5] == 1 && GroupNats(0x2bc830a3)[5] == 3;
    assert Groups(1)[5] == Of(1) && Groups(0x2bc830a3)[5] == Of(3);
    assert Of(3).b1 && !Of(1).b1;
  }

  /** Which encoding the symbols verify as. */
  ghost function VerifiedAs(t: Tables, hrp: seq<nat>, values: seq<Symbol>): Encoding
    requires AreTables(t)
  {
    var check := Remainder(t, GENERATOR, Codex32.ExpandPrefix(hrp) + values);
    if check == Groups(EncodingConstant(BECH32)) then BECH32
    else if check == Groups(EncodingConstant(BECH32M)) then BECH32M
    else INVALID
  }

  method VerifyChecksum(hrp: seq<nat>, values: seq<Symbol>, ghost t: Tables) returns (e: Encoding)
    requires AreTables(t)
    ensures e == VerifiedAs(t, hrp, values)
  {
    var enc := Codex32.PreparePolynomialCoefficients(hrp, values);
    var check := PolyMod(enc, t);
    if check == Groups(EncodingConstant(BECH32)) {
      return BECH32;
    }
    if check == Groups(EncodingConstant(BECH32M)) {
      return BECH32M;
    }
    return INVALID;
  }

  /** The values followed by their checksum verify as the same encoding. */
  method CreateChecksum(encoding: Encoding, hrp: seq<nat>, values: seq<Symbol>, ghost t: Tables) returns (ret: seq<Symbol>)
    requires AreTables(t) && encoding != INVALID
    ensures |ret| == CHECKSUM_SIZE && VerifiedAs(t, hrp, values + ret) == encoding
  {
    var enc := Codex32.PreparePolynomialCoefficients(hrp, values);
    ghost var payload := enc;
    enc := enc + Zeros(CHECKSUM_SIZE);
    var mod := PolyMod(enc, t);
    ret := XorAll(mod, Groups(EncodingConstant(encoding)));
    CreatedVerifies(t, encoding, hrp, values);
  }

  lemma CreatedVerifies(t: Tables, encoding: Encoding, hrp: seq<nat>, values: seq<Symbol>)
    requires AreTables(t) && encoding != INVALID
    ensures VerifiedAs(t, hrp, values + Checksum(t, GENERATOR, Groups(EncodingConstant(encoding)), Codex32.ExpandPrefix(hrp) + values)) == encoding
  {
    var p, target := Codex32.ExpandPrefix(hrp), Groups(EncodingConstant(encoding));
    var c := Checksum(t, GENERATOR, target, p + values);
    ChecksumVerifies(t, GENERATOR, target, p + values);
    assert p + values + c == p + (values + c);
    IsBech32Generator();
  }

  /** A change within six consecutive symbols makes a string stop verifying under its encoding. */
  lemma ChangeDetected(t: Tables, hrp: seq<nat>, before: seq<Symbol>, xs: seq<Symbol>, ys: seq<Symbol>, after: seq<Symbol>)
    requires AreTables(t) && |xs| == |ys| <= CHECKSUM_SIZE && xs != ys && VerifiedAs(t, hrp, before + xs + after) != INVALID
    ensures VerifiedAs(t, hrp, before + ys + after) != VerifiedAs(t, hrp, before + xs + after)
  {
    IsBech32Generator();
    var p := Codex32.ExpandPrefix(hrp);
    BurstDetected(t, GENERATOR, p + before, xs, ys, after);
    Prefixed(p, before, xs, after);
    Prefixed(p, before, ys, after);
    VerifiedApart(t, hrp, before + xs + after, before + ys + after);
  }

  lemma Prefixed(p: seq<Symbol>, before: seq<Symbol>, xs: seq<Symbol>, after: seq<Symbol>)
    ensures p + before + xs + after == p + (before + xs + after)
  {
  }

  /** Strings with different remainders do not verify as the same encoding. */
  lemma VerifiedApart(t: Tables, hrp: seq<nat>, a: seq<Symbol>, b: seq<Symbol>)
    requires AreTables(t) && VerifiedAs(t, hrp, a) != INVALID
    requires Remainder(t, GENERATOR, Codex32.ExpandPrefix(hrp) + a) != Remainder(t, GENERATOR, Codex32.ExpandPrefix(hrp) + b)
    ensures VerifiedAs(t, hrp, b) != VerifiedAs(t, hrp, a)
  {
  }

  // ---------------------------------------------------------------- how the two encodings differ

  /** What appending a one, or a zero first, does to the remainder. */
  lemma OneAppended(t: Tables, r: Residue)
    requires AreTables(t) && |r| == CHECKSUM_SIZE
    ensures Step(t, GENERATOR, r, ONE) == Start(GENERATOR) <==> r == Zeros(CHECKSUM_SIZE)
    ensures Step(t, GENERATOR, r, ZERO) == Zeros(CHECKSUM_SIZE) <==> r == Zeros(CHECKSUM_SIZE)
    ensures Step(t, GENERATOR, r, ONE) == XorAll(Step(t, GENERATOR, r, ZERO), Start(GENERATOR))
  {
    var z, s := Zeros(CHECKSUM_SIZE), Step(t, GENERATOR, r, ZERO);
    FromZero(t, ZERO);
    FromZero(t, ONE);
    XorAllSelf(r, r);
    XorUnit(ONE, ZERO);
    StepLinear(t, GENERATOR, r, z, ZERO, ONE);
    XorAllSelf(Start(GENERATOR), s);
    XorAllSelf(s, s);
    IsBech32Generator();
    if s == z {
      StepInjective(t, GENERATOR, r);
    }
    if XorAll(s, Start(GENERATOR)) == Start(GENERATOR) {
      UndoXor(s, Start(GENERATOR));
    }
  }

  lemma FromZero(t: Tables, x: Symbol)
    requires AreTables(t)
    ensures Step(t, GENERATOR, Zeros(CHECKSUM_SIZE), x) == Zeros(CHECKSUM_SIZE - 1) + [x]
    ensures Zeros(CHECKSUM_SIZE - 1) + [ZERO] == Zeros(CHECKSUM_SIZE)
  {
    Remembers(t, GENERATOR, [x]);
    assert Run(t, GENERATOR, Zeros(CHECKSUM_SIZE), [x]) == Step(t, GENERATOR, Zeros(CHECKSUM_SIZE), x);
  }

  lemma UndoXor(a: Residue, b: Residue)
    requires |a| == |b|
    ensures XorAll(XorAll(a, b), b) == a
    ensures XorAll(a, b) == b ==> a == Zeros(|a|)
  {
    forall i | 0 <= i < |a| ensures Xor(Xor(a[i], b[i]), b[i]) == a[i] && (Xor(a[i], b[i]) == b[i] ==> a[i] == ZERO) {
      XorUnit(a[i], b[i]);
      XorCancels(b[i], a[i]);
      XorUnit(Xor(a[i], b[i]), b[i]);
    }
    if XorAll(a, b) == b {
      forall i | 0 <= i < |a| ensures a[i] == ZERO {
        assert XorAll(a, b)[i] == b[i];
      }
    }
  }

  lemma Appended(t: Tables, p: seq<Symbol>, v: seq<Symbol>, x: Symbol)
    requires AreTables(t)
    ensures Remainder(t, GENERATOR, p + (v + [x])) == Step(t, GENERATOR, Remainder(t, GENERATOR, p + v), x)
  {
    assert p + (v + [x]) == (p + v) + [x];
    RunConcat(t, GENERATOR, Start(GENERATOR), p + v, [x]);
    assert Run(t, GENERATOR, Remainder(t, GENERATOR, p + v), [x]) == Step(t, GENERATOR, Remainder(t, GENERATOR, p + v), x);
  }

  /**
   The weakness of Bech32 that Bech32m removes ("Motivation" in BIP 350): if a string ends in a p
   (the symbol one), q's (zeros) can be inserted or removed just before it.
   */
  lemma ZeroInsertion(t: Tables, hrp: seq<nat>, v: seq<Symbol>)
    requires AreTables(t)
    ensures VerifiedAs(t, hrp, v + [ONE]) == BECH32 <==> VerifiedAs(t, hrp, v + [ZERO] + [ONE]) == BECH32
  {
    var p := Codex32.ExpandPrefix(hrp);
    Appended(t, p, v, ONE);
    Appended(t, p, v, ZERO);
    Appended(t, p, v + [ZERO], ONE);
    OneAppended(t, Remainder(t, GENERATOR, p + v));
    OneAppended(t, Remainder(t, GENERATOR, p + (v + [ZERO])));
    StartIsOne();
  }

  /** No Bech32m string has it. */
  lemma NoZeroInsertion(t: Tables, hrp: seq<nat>, v: seq<Symbol>)
    requires AreTables(t)
    ensures VerifiedAs(t, hrp, v + [ONE]) == BECH32M ==> VerifiedAs(t, hrp, v + [ZERO] + [ONE]) != BECH32M
  {
    var p, target := Codex32.ExpandPrefix(hrp), Groups(0x2bc830a3);
    var s := Step(t, GENERATOR, Remainder(t, GENERATOR, p + v), ZERO);
    Appended(t, p, v, ONE);
    Appended(t, p, v, ZERO);
    Appended(t, p, v + [ZERO], ONE);
    OneAppended(t, Remainder(t, GENERATOR, p + v));
    UndoXor(s, Start(GENERATOR));
    TargetMoves(t);
  }

  /** Were it so, x times the remainder without its last one would be that remainder. */
  lemma TargetMoves(t: Tables)
    requires AreTables(t)
    ensures Step(t, GENERATOR, XorAll(Groups(0x2bc830a3), Start(GENERATOR)), ONE) != Groups(0x2bc830a3)
  {
    var c := Groups(0x2bc830a3);
    TargetNumbers(0x2bc830a3);
    GroupAt(0x2bc830a3, 0);
    GroupAt(0x2bc830a3, 5);
    FirstKept(c, Start(GENERATOR));
    MulIsProduct(t, Of(18), Of(21));
    ProductOf18And21(BITS);
    HighestBits();
    LastMoves(t, GENERATOR, c, XorAll(c, Start(GENERATOR)));
  }

  lemma LastMoves(t: Tables, gen: Residue, c: Residue, s: Residue)
    requires AreTables(t) && |gen| == |c| == |s| == CHECKSUM_SIZE && Mul(t, gen[5], s[0]).b4 && !c[5].b4
    ensures Step(t, gen, s, ONE) != c
  {
    assert Step(t, gen, s, ONE)[5] == StepAt(t, gen, s, ONE, 5);
  }

  lemma FirstKept(c: Residue, start: Residue)
    requires |c| == |start| == CHECKSUM_SIZE && start[0] == ZERO
    ensures XorAll(c, start)[0] == c[0]
  {
    XorUnit(c[0], ZERO);
  }

  lemma GroupAt(n: nat, i: nat)
    requires i < CHECKSUM_SIZE
    ensures Groups(n)[i] == Of(GroupNats(n)[i])
  {
  }

  lemma TargetNumbers(n: nat)
    requires n == 0x2bc830a3
    ensures GroupNats(n)[0] == 21 && GroupNats(n)[5] == 3
  {
  }

  lemma HighestBits()
    ensures Of(27).b4 && !Of(3).b4
  {
  }

  lemma ProductOf18And21(n: nat)
    requires n == BITS
    ensures Partial(Of(18), Of(21), n) == Of(27)
  {
    assert Times(Of(18), 1) == Of(13) && Times(Of(18), 2) == Of(26) && Times(Of(18), 3) == Of(29) && Times(Of(18), 4) == Of(19);
    assert Partial(Of(18), Of(21), n - 4) == Of(18);
    assert Partial(Of(18), Of(21), n - 3) == Of(18);
    assert Partial(Of(18), Of(21), n - 2) == Of(8);
    assert Partial(Of(18), Of(21), n - 1) == Of(8);
  }
}
