/**
 Base58 (EncodeBase58 and DecodeBase58, src/base58.cpp:40-135).
 */
module Base58 {
  import opened Options
  import opened Numbers
  import opened Reversal
  import opened Radix

  /** pszBase58: alphanumeric characters except '0', 'I', 'O' and 'l'. */
  function CharOf(k: nat): char
    requires k < 58
  {
    if k < 9 then '1' + k as char
    else if k < 17 then 'A' + (k - 9) as char
    else if k < 22 then 'J' + (k - 17) as char
    else if k < 33 then 'P' + (k - 22) as char
    else if k < 44 then 'a' + (k - 33) as char
    else 'm' + (k - 44) as char
  }

  /** mapBase58: the digit of a character, or -1. */
  function DigitOf(c: char): (k: int)
    ensures -1 <= k < 58
  {
    if '1' <= c <= '9' then c as int - '1' as int
    else if 'A' <= c <= 'H' then c as int - 'A' as int + 9
    else if 'J' <= c <= 'N' then c as int - 'J' as int + 17
    else if 'P' <= c <= 'Z' then c as int - 'P' as int + 22
    else if 'a' <= c <= 'k' then c as int - 'a' as int + 33
    else if 'm' <= c <= 'z' then c as int - 'm' as int + 44
    else -1
  }

  predicate IsSpace(c: char) {
    c == ' ' || c == '\t' || c == '\n' || c == '\r' || c == '\U{b}' || c == '\U{c}'
  }

  lemma DigitOfChar(k: nat)
    requires k < 58
    ensures DigitOf(CharOf(k)) == k && !IsSpace(CharOf(k)) && (CharOf(k) == '1' <==> k == 0)
  {
  }

  // ---------------------------------------------------------------- buffers are large enough

  /** 138/100 exceeds log(256)/log(58). */
  lemma EncodeBuffer(n: nat)
    ensures Pow(256, n) < Pow(58, n * 138 / 100 + 1)
  {
    SmallPowers();
    EnoughDigits(256, 58, 8, 11, n, n * 138 / 100 + 1);
  }

  lemma SmallPowers()
    ensures Pow(256, 8) <= Pow(58, 11)
  {
    assert Pow(256, 2) == 65536;
    PowAdd(256, 2, 2);
    PowAdd(256, 4, 4);
    assert Pow(58, 3) == 195112;
    PowAdd(58, 3, 3);
    PowAdd(58, 6, 3);
    PowAdd(58, 9, 2);
    assert Pow(58, 2) == 3364;
  }

  /** 733/1000 exceeds log(58)/log(256). */
  lemma DecodeBuffer(n: nat)
    ensures Pow(58, n) < Pow(256, n * 733 / 1000 + 1)
  {
    var p, q := 71, 52;
    LargePowers(p, q);
    EnoughDigits(58, 256, p, q, n, n * 733 / 1000 + 1);
  }

  lemma Double(b: nat, n: nat, v: nat)
    requires Pow(b, n) == v
    ensures Pow(b, n + n) == v * v
  {
    PowAdd(b, n, n);
  }

  lemma Plus(b: nat, m: nat, n: nat, v: nat, w: nat)
    requires Pow(b, m) == v && Pow(b, n) == w
    ensures Pow(b, m + n) == v * w
  {
    PowAdd(b, m, n);
  }

  /** 58^71 <= 256^52, by repeated squaring. */
  lemma LargePowers(p: nat, q: nat)
    requires p == 71 && q == 52
    ensures Pow(58, p) <= Pow(256, q)
  {
    LargePower58(p - 70);
    LargePower256(q - 51);
  }

  lemma LargePower58(one: nat)
    requires one == 1
    ensures Pow(58, 71 * one) == 159730386663078066345306447337161584696769904898410078913243029577507397293846405390982563136983769384625594118558891106107392
  {
    assert Pow(58, one) == 58 * Pow(58, one - 1);
    Double(58, 1 * one, 58);
    Double(58, 2 * one, 3364);
    Double(58, 4 * one, 11316496);
    Double(58, 8 * one, 128063081718016);
    Double(58, 16 * one, 16400152899115243850138976256);
    Double(58, 32 * one, 268965015114358137726910587140455987105619365599731777536);
    Plus(58, 64 * one, 4 * one, 72342179355466901471258927612150153907721848234316445933056526044582001260898145151856420451025374266490194231296, 11316496);
    Plus(58, 68 * one, 2 * one, 818659983307423768631895769287186768096118664656249123135650444757408038940948816018402574608346843785239217057684258816, 3364);
    Plus(58, 70 * one, one, 2753972183846173557677697367882096287875343187903622050228328096163920642997351817085906260982478782493544726182049846657024, 58);
  }

  lemma LargePower256(one: nat)
    requires one == 1
    ensures Pow(256, 52 * one) == 169230328010303641331690318856389386196071598838855992136870091590247882556495704531248437872567112920983350278405979725889536
  {
    assert Pow(256, one) == 256 * Pow(256, one - 1);
    Double(256, 1 * one, 256);
    Double(256, 2 * one, 65536);
    Double(256, 4 * one, 4294967296);
    Double(256, 8 * one, 18446744073709551616);
    Double(256, 16 * one, 340282366920938463463374607431768211456);
    Plus(256, 32 * one, 16 * one, 115792089237316195423570985008687907853269984665640564039457584007913129639936, 340282366920938463463374607431768211456);
    Plus(256, 48 * one, 4 * one, 39402006196394479212279040100143613805079739270465446667948293404245721771497210611414266254884915640806627990306816, 4294967296);
  }

  // ---------------------------------------------------------------- what encoding and decoding mean

  /** Leading zeros of a byte string. */
  function Zeroes(x: seq<nat>): (z: nat)
    ensures z <= |x| && (forall i :: 0 <= i < z ==> x[i] == 0) && (z < |x| ==> x[z] != 0)
  {
    if x == [] || x[0] != 0 then 0 else 1 + Zeroes(x[1..])
  }

  function Chars(digits: seq<nat>): (s: string)
    requires Digits(digits, 58)
    ensures |s| == |digits|
  {
    seq(|digits|, i requires 0 <= i < |digits| => CharOf(digits[i]))
  }

  function Ones(n: nat): (s: string)
    ensures |s| == n
  {
    seq(n, _ => '1')
  }

  /** The number x (most significant byte first) in base 58, most significant digit first. */
  function Base58Digits(x: seq<nat>): (d: seq<nat>)
    ensures Digits(d, 58) && (d != [] ==> d[0] != 0)
  {
    ToDigitsCanonical(Horner(x, 256), 58);
    ReversedDigits(ToDigits(Horner(x, 256), 58), 58);
    Reversed(ToDigits(Horner(x, 256), 58))
  }

  /** A '1' per leading zero byte, then the number. */
  function Encoded(x: seq<nat>): string {
    Ones(Zeroes(x)) + Chars(Base58Digits(x[Zeroes(x)..]))
  }

  /** Characters before the first one that does not satisfy the test. */
  function SpacesIn(s: string): (n: nat)
    ensures n <= |s| && (forall i :: 0 <= i < n ==> IsSpace(s[i])) && (n < |s| ==> !IsSpace(s[n]))
  {
    if s == [] || !IsSpace(s[0]) then 0 else 1 + SpacesIn(s[1..])
  }

  function OnesIn(s: string): (n: nat)
    ensures n <= |s| && (forall i :: 0 <= i < n ==> s[i] == '1') && (n < |s| ==> s[n] != '1')
  {
    if s == [] || s[0] != '1' then 0 else 1 + OnesIn(s[1..])
  }

  function WordIn(s: string): (n: nat)
    ensures n <= |s| && (forall i :: 0 <= i < n ==> !IsSpace(s[i])) && (n < |s| ==> IsSpace(s[n]))
  {
    if s == [] || IsSpace(s[0]) then 0 else 1 + WordIn(s[1..])
  }

  /** All characters of the word are digits. */
  predicate AllDigits(w: string) {
    forall i :: 0 <= i < |w| ==> DigitOf(w[i]) != -1
  }

  function DigitsOf(w: string): (d: seq<nat>)
    requires AllDigits(w)
    ensures |d| == |w| && Digits(d, 58) && forall i :: 0 <= i < |w| ==> d[i] == DigitOf(w[i])
  {
    seq(|w|, i requires 0 <= i < |w| => DigitOf(w[i]) as nat)
  }

  /** The bytes of a number, most significant first. */
  function Bytes(v: nat): seq<nat> {
    Reversed(ToDigits(v, 256))
  }

  /** The word between spaces: a zero byte per leading '1', then the number. */
  function Decoded(str: string, maxLen: nat): Option<seq<nat>> {
    var s := str[SpacesIn(str)..];
    var z := OnesIn(s);
    var rest := s[z..];
    var w := rest[..WordIn(rest)];
    if '\0' in str || !AllDigits(w) || SpacesIn(rest[WordIn(rest)..]) != |rest| - WordIn(rest) then None
    else
      var r := seq(z, _ => 0) + Bytes(Horner(DigitsOf(w), 58));
      if |r| > maxLen then None else Some(r)
  }

  // ---------------------------------------------------------------- round trip

  ghost predicate AllSpaces(s: string) {
    forall i :: 0 <= i < |s| ==> IsSpace(s[i])
  }

  /** str is core with spaces before and after it. */
  ghost predicate Padded(str: string, core: string, before: string, after: string) {
    str == before + core + after && AllSpaces(before) && AllSpaces(after)
  }

  /** Where counting stops is determined by what is there. */
  lemma SpacesAre(s: string, n: nat)
    requires n <= |s| && (forall i :: 0 <= i < n ==> IsSpace(s[i])) && (n < |s| ==> !IsSpace(s[n]))
    ensures SpacesIn(s) == n
  {
  }

  lemma OnesAre(s: string, n: nat)
    requires n <= |s| && (forall i :: 0 <= i < n ==> s[i] == '1') && (n < |s| ==> s[n] != '1')
    ensures OnesIn(s) == n
  {
  }

  lemma WordIs(s: string, n: nat)
    requires n <= |s| && (forall i :: 0 <= i < n ==> !IsSpace(s[i])) && (n < |s| ==> IsSpace(s[n]))
    ensures WordIn(s) == n
  {
  }

  /** The digits of the number that x denotes are x, if x has no leading zero. */
  lemma DigitsAgain(x: seq<nat>, b: nat)
    requires b >= 2 && Digits(x, b) && (x != [] ==> x[0] != 0)
    ensures Reversed(ToDigits(Horner(x, b), b)) == x
  {
    HornerIsVal(x, b);
    var r := Reversed(x);
    ReversedDigits(x, b);
    ToDigitsCanonical(Val(r, b), b);
    CanonicalUnique(ToDigits(Val(r, b), b), r, b);
    ReversedTwice(x);
  }

  /** The bytes of a number denote it, and do not start with a zero. */
  lemma BytesDenote(v: nat)
    ensures Digits(Bytes(v), 256) && Horner(Bytes(v), 256) == v && (Bytes(v) != [] ==> Bytes(v)[0] != 0)
  {
    ToDigitsCanonical(v, 256);
    ReversedDigits(ToDigits(v, 256), 256);
    HornerIsVal(Bytes(v), 256);
    ReversedTwice(ToDigits(v, 256));
  }

  /** a + b + c + d is cut into its parts. */
  lemma Cut(str: string, a: string, b: string, c: string, d: string)
    requires str == a + b + c + d
    ensures str[|a|..] == b + c + d && str[|a|..][|b|..] == c + d
    ensures str[|a|..][|b|..][..|c|] == c && str[|a|..][|b|..][|c|..] == d
  {
    assert str == a + (b + c + d) && b + c + d == b + (c + d);
  }

  /** What decoding finds between the spaces. */
  lemma PartsOf(str: string, before: string, z: nat, w: string, after: string)
    requires Padded(str, Ones(z) + w, before, after) && Ones(z) + w != ""
    requires (w != [] ==> w[0] != '1') && forall i :: 0 <= i < |w| ==> !IsSpace(w[i])
    ensures str == before + Ones(z) + w + after
    ensures SpacesIn(str) == |before| && OnesIn(Ones(z) + w + after) == z && WordIn(w + after) == |w| && SpacesIn(after) == |after|
  {
    var core := Ones(z) + w;
    SpacesBefore(before, core, after);
    SpacesAre(after, |after|);
    OnesBefore(z, w, after);
    WordBefore(w, after);
    Joined(before, Ones(z), w, after);
  }

  lemma Joined(a: string, b: string, c: string, d: string)
    ensures a + b + c + d == a + (b + c) + d
  {
    assert a + b + c == a + (b + c);
  }

  lemma WordBefore(w: string, after: string)
    requires AllSpaces(after) && forall i :: 0 <= i < |w| ==> !IsSpace(w[i])
    ensures WordIn(w + after) == |w|
  {
    WordIs(w + after, |w|);
  }

  lemma SpacesBefore(before: string, core: string, after: string)
    requires AllSpaces(before) && core != "" && !IsSpace(core[0])
    ensures SpacesIn(before + core + after) == |before|
  {
    SpacesAre(before + core + after, |before|);
  }

  lemma OnesBefore(z: nat, w: string, after: string)
    requires AllSpaces(after) && (w != [] ==> w[0] != '1')
    ensures OnesIn(Ones(z) + w + after) == z
  {
    var s := Ones(z) + w + after;
    assert forall i :: 0 <= i < z ==> s[i] == '1';
    OnesAre(s, z);
  }

  /** Decoding '1's followed by digits, with spaces around them. */
  lemma DecodedWord(str: string, before: string, z: nat, d: seq<nat>, after: string, maxLen: nat)
    requires Digits(d, 58) && (d != [] ==> d[0] != 0) && Padded(str, Ones(z) + Chars(d), before, after)
    ensures var r := seq(z, _ => 0) + Bytes(Horner(d, 58));
      Decoded(str, maxLen) == if |r| > maxLen then None else Some(r)
  {
    var w := Chars(d);
    CharsAreDigits(d);
    NoNul(str, before, z, d, after);
    if Ones(z) + w == "" {
      SpacesAre(str, |str|);
      assert str[|str|..] == [] && DigitsOf([]) == d;
    } else {
      PartsOf(str, before, z, w, after);
      Cut(str, before, Ones(z), w, after);
    }
  }

  /** The digits of an encoded number denote that number. */
  lemma EncodedValue(y: seq<nat>)
    ensures Horner(Base58Digits(y), 58) == Horner(y, 256)
  {
    var v := Horner(y, 256);
    ToDigitsCanonical(v, 58);
    HornerIsVal(Base58Digits(y), 58);
    ReversedTwice(ToDigits(v, 58));
  }

  /** Decoding what was encoded gives the same bytes, within the length limit, and only there. */
  lemma RoundTrip(x: seq<nat>, maxLen: nat)
    requires Digits(x, 256)
    ensures Decoded(Encoded(x), maxLen) == if |x| <= maxLen then Some(x) else None
  {
    assert Encoded(x) == "" + Encoded(x) + "";
    PaddedRoundTrip(Encoded(x), "", x, "", maxLen);
  }

  /** The same with spaces around the encoding. */
  lemma PaddedRoundTrip(str: string, before: string, x: seq<nat>, after: string, maxLen: nat)
    requires Digits(x, 256) && Padded(str, Encoded(x), before, after)
    ensures Decoded(str, maxLen) == if |x| <= maxLen then Some(x) else None
  {
    var z, y := Zeroes(x), x[Zeroes(x)..];
    DecodedWord(str, before, z, Base58Digits(y), after, maxLen);
    EncodedValue(y);
    DigitsAgain(y, 256);
    LeadingZeroes(x);
  }

  lemma LeadingZeroes(x: seq<nat>)
    ensures x == seq(Zeroes(x), _ => 0) + x[Zeroes(x)..]
  {
  }

  lemma CharsAreDigits(d: seq<nat>)
    requires Digits(d, 58)
    ensures AllDigits(Chars(d)) && DigitsOf(Chars(d)) == d && forall i :: 0 <= i < |d| ==> !IsSpace(Chars(d)[i]) && (Chars(d)[i] == '1' <==> d[i] == 0)
  {
    forall i | 0 <= i < |d| ensures DigitOf(Chars(d)[i]) == d[i] && !IsSpace(Chars(d)[i]) && (Chars(d)[i] == '1' <==> d[i] == 0) {
      DigitOfChar(d[i]);
    }
  }

  lemma NoNul(str: string, before: string, z: nat, d: seq<nat>, after: string)
    requires Digits(d, 58) && Padded(str, Ones(z) + Chars(d), before, after)
    ensures '\0' !in str
  {
    forall i | 0 <= i < |d| ensures Chars(d)[i] != '\0' {
      DigitOfChar(d[i]);
    }
  }

  // ---------------------------------------------------------------- nothing else is decoded

  lemma CharOfDigit(c: char)
    requires DigitOf(c) != -1
    ensures CharOf(DigitOf(c)) == c && (c == '1' <==> DigitOf(c) == 0)
  {
  }

  lemma ZeroesAre(x: seq<nat>, z: nat)
    requires z <= |x| && (forall i :: 0 <= i < z ==> x[i] == 0) && (z < |x| ==> x[z] != 0)
    ensures Zeroes(x) == z
  {
  }

  /** A word that does not start with a '1' is the encoding of its bytes. */
  lemma WordEncodes(z: nat, w: string)
    requires AllDigits(w) && (w != [] ==> w[0] != '1')
    ensures var r := seq(z, _ => 0) + Bytes(Horner(DigitsOf(w), 58));
      Digits(r, 256) && Encoded(r) == Ones(z) + w
  {
    var d := DigitsOf(w);
    var y := Bytes(Horner(d, 58));
    var r := seq(z, _ => 0) + y;
    BytesDenote(Horner(d, 58));
    ZeroesAre(r, z);
    assert r[z..] == y;
    forall i | 0 <= i < |w| ensures CharOf(d[i]) == w[i] {
      CharOfDigit(w[i]);
    }
    if w != [] {
      CharOfDigit(w[0]);
    }
    DigitsAgain(d, 58);
    assert Chars(d) == w;
  }

  /** A string decodes to these bytes exactly when it is their encoding with spaces around it, and they are not too many. */
  lemma DecodedExactly(str: string, maxLen: nat, r: seq<nat>)
    ensures Decoded(str, maxLen) == Some(r) <==>
      Digits(r, 256) && |r| <= maxLen && exists before: string, after: string :: Padded(str, Encoded(r), before, after)
  {
    if Digits(r, 256) {
      if before: string, after: string :| Padded(str, Encoded(r), before, after) {
        PaddedRoundTrip(str, before, r, after, maxLen);
      }
    }
    if Decoded(str, maxLen) == Some(r) {
      var before, after := OnlyEncodings(str, maxLen, r);
    }
  }

  lemma OnlyEncodings(str: string, maxLen: nat, r: seq<nat>) returns (before: string, after: string)
    requires Decoded(str, maxLen) == Some(r)
    ensures Digits(r, 256) && |r| <= maxLen && Padded(str, Encoded(r), before, after)
  {
    var p := SpacesIn(str);
    var s := str[p..];
    var z := OnesIn(s);
    var rest := s[z..];
    var n := WordIn(rest);
    before, after := str[..p], rest[n..];
    WordEncodes(z, rest[..n]);
    assert s[..z] == Ones(z);
    Pasted(str, p, z, n);
  }

  lemma Pasted(str: string, p: nat, z: nat, n: nat)
    requires p + z + n <= |str|
    ensures str == str[..p] + (str[p..][..z] + str[p..][z..][..n]) + str[p..][z..][n..]
  {
    var s := str[p..];
    var rest := s[z..];
    assert str == str[..p] + s && s == s[..z] + rest && rest == rest[..n] + rest[n..];
  }

  /** The digits are the letters and figures in their order, without '0', 'I', 'O' and 'l'. */
  lemma Alphabet(c: char, d: char)
    ensures DigitOf(c) != -1 <==>
      c !in {'0', 'I', 'O', 'l'} && ('0' <= c <= '9' || 'A' <= c <= 'Z' || 'a' <= c <= 'z')
    ensures DigitOf(c) != -1 && DigitOf(d) != -1 ==> (c < d <==> DigitOf(c) < DigitOf(d))
  {
  }

  // ---------------------------------------------------------------- the program

  method EncodeBase58(input: seq<nat>) returns (str: string)
    requires Digits(input, 256)
    ensures str == Encoded(input)
  {
    var zeroes := 0;
    while zeroes < |input| && input[zeroes] == 0
      invariant zeroes <= Zeroes(input)
    {
      zeroes := zeroes + 1;
    }
    var x := input[zeroes..];
    var b58, length := ToBase58(x);
    // skip leading zeroes in the result
    var it := length;
    while it > 0 && b58[it - 1] == 0
      invariant 0 <= it <= length && forall k :: it <= k < b58.Length ==> b58[k] == 0
    {
      it := it - 1;
    }
    HeldDigits(b58[..], 58, it);
    str := Translate(zeroes, b58, it);
  }

  /** Translate the digits, most significant first, into a string. */
  method Translate(zeroes: nat, b58: array<nat>, it: nat) returns (str: string)
    requires it <= b58.Length && Digits(b58[..][..it], 58)
    ensures Digits(Reversed(b58[..][..it]), 58) && str == Ones(zeroes) + Chars(Reversed(b58[..][..it]))
  {
    ghost var d := Reversed(b58[..][..it]);
    ReversedDigits(b58[..][..it], 58);
    str := seq(zeroes, _ => '1');
    for k := 0 to it
      invariant str == Ones(zeroes) + Chars(d)[..k]
    {
      ReversedAt(b58[..][..it], k);
      str := str + [CharOf(b58[it - 1 - k])];
    }
  }

  /** The bytes in base 58; the carry is always used up. */
  method ToBase58(x: seq<nat>) returns (b58: array<nat>, length: nat)
    requires Digits(x, 256)
    ensures length <= b58.Length && Digits(b58[..], 58) && (forall k :: length <= k < b58.Length ==> b58[k] == 0)
    ensures Val(b58[..], 58) == Horner(x, 256)
  {
    var size := |x| * 138 / 100 + 1;
    b58 := new nat[size](_ => 0);
    length := 0;
    EncodeBuffer(|x|);
    ValZeroAbove(b58[..], 58, 0, size);
    for k := 0 to |x|
      invariant Holds(b58[..], 58, length) && Val(b58[..], 58) == HornerTo(x, 256, k)
    {
      Fits(x, 256, 58, k, size);
      Commute(256, HornerTo(x, 256, k));
      length := MulAdd(b58, 256, 58, x[k], length);
    }
  }

  /** Every number on the way fits the buffer. */
  lemma Fits(x: seq<nat>, a: nat, b: nat, k: nat, size: nat)
    requires a >= 2 && Digits(x, a) && k < |x| && Pow(a, |x|) < Pow(b, size)
    ensures HornerTo(x, a, k) * a + x[k] < Pow(b, size)
  {
    HornerBound(x, a, k + 1);
    if k + 1 < |x| { PowGrows(a, k + 1, |x|); }
  }

  method SkipSpaces(s: string) returns (p: nat)
    ensures p == SpacesIn(s)
  {
    p := 0;
    while p < |s| && IsSpace(s[p])
      invariant p <= SpacesIn(s)
    {
      p := p + 1;
    }
  }

  /** Skip and count leading '1's, giving up when there are too many. */
  method SkipOnes(s: string, maxLen: nat) returns (ok: bool, zeroes: nat)
    ensures ok <==> OnesIn(s) <= maxLen
    ensures ok ==> zeroes == OnesIn(s)
  {
    zeroes := 0;
    while zeroes < |s| && s[zeroes] == '1'
      invariant zeroes <= OnesIn(s) && zeroes <= maxLen
    {
      zeroes := zeroes + 1;
      if zeroes > maxLen {
        return false, zeroes;
      }
    }
    return true, zeroes;
  }

  /** DecodeBase58: nothing, or at most maxLen bytes. */
  method DecodeBase58(str: string, maxLen: nat) returns (r: Option<seq<nat>>)
    ensures r == Decoded(str, maxLen)
  {
    if '\0' in str {
      return None;
    }
    var p := SkipSpaces(str);
    var s := str[p..];
    var few, zeroes := SkipOnes(s, maxLen);
    if !few {
      return None;
    }
    var rest := s[zeroes..];
    var ok, b256, length, used := FromBase58(rest, zeroes, maxLen);
    if !ok {
      return None;
    }
    var trailing := SkipSpaces(rest[used..]);
    if used + trailing != |rest| {
      return None;
    }
    r := Some(seq(zeroes, _ => 0) + Reversed(b256[..][..length]));
  }

  /** Process the characters up to a space; the carry is always used up. */
  method FromBase58(rest: string, zeroes: nat, maxLen: nat) returns (ok: bool, b256: array<nat>, length: nat, used: nat)
    requires zeroes <= maxLen
    ensures var w := rest[..WordIn(rest)];
      ok <==> AllDigits(w) && zeroes + |ToDigits(Horner(DigitsOf(w), 58), 256)| <= maxLen
    ensures ok ==> used == WordIn(rest) && length <= b256.Length && b256[..][..length] == ToDigits(Horner(DigitsOf(rest[..used]), 58), 256)
  {
    var size := |rest| * 733 / 1000 + 1;
    b256 := new nat[size](_ => 0);
    length, used := 0, 0;
    DecodeBuffer(|rest|);
    ValZeroAbove(b256[..], 256, 0, size);
    HeldDigits(b256[..], 256, 0);
    ghost var all := WordIn(rest);
    while used < |rest| && !IsSpace(rest[used])
      invariant used <= all && zeroes + length <= maxLen && AllDigits(rest[..used])
      invariant Holds(b256[..], 256, length) && Val(b256[..], 256) == Horner(DigitsOf(rest[..used]), 58)
    {
      var carry := DigitOf(rest[used]);
      if carry == -1 {
        assert rest[..all][used] == rest[used];
        return false, b256, length, used;
      }
      NextDigit(rest, used, size);
      length := MulAdd(b256, 58, 256, carry, length);
      used := used + 1;
      HeldDigits(b256[..], 256, length);
      if length + zeroes > maxLen {
        TooLong(rest, used, all);
        return false, b256, length, used;
      }
    }
    HeldDigits(b256[..], 256, length);
    return true, b256, length, used;
  }

  lemma NextDigit(rest: string, used: nat, size: nat)
    requires used < |rest| && AllDigits(rest[..used]) && DigitOf(rest[used]) != -1 && Pow(58, |rest|) < Pow(256, size)
    ensures AllDigits(rest[..used + 1])
    ensures Horner(DigitsOf(rest[..used + 1]), 58) == 58 * Horner(DigitsOf(rest[..used]), 58) + DigitOf(rest[used]) < Pow(256, size)
  {
    assert rest[..used + 1] == rest[..used] + [rest[used]];
    var d, d' := DigitsOf(rest[..used]), DigitsOf(rest[..used + 1]);
    HornerSame(d, d', 58, used);
    Commute(58, Horner(d, 58));
    HornerBound(d', 58, used + 1);
    if used + 1 < |rest| { PowGrows(58, used + 1, |rest|); }
  }

  /** More characters never give fewer bytes. */
  lemma TooLong(rest: string, used: nat, all: nat)
    requires used <= all <= |rest| && AllDigits(rest[..used])
    ensures AllDigits(rest[..all]) ==>
      |ToDigits(Horner(DigitsOf(rest[..used]), 58), 256)| <= |ToDigits(Horner(DigitsOf(rest[..all]), 58), 256)|
  {
    if AllDigits(rest[..all]) {
      var a, c := DigitsOf(rest[..used]), DigitsOf(rest[..all]);
      HornerGrows(a, c, used, all);
      LengthGrows(Horner(a, 58), Horner(c, 58), 256);
    }
  }

  lemma {:induction false} HornerGrows(a: seq<nat>, c: seq<nat>, m: nat, n: nat)
    requires m == |a| <= n <= |c| && forall i :: 0 <= i < m ==> a[i] == c[i]
    ensures Horner(a, 58) <= HornerTo(c, 58, n)
  {
    if m == n {
      HornerSame(a, c, 58, m);
    } else {
      HornerGrows(a, c, m, n - 1);
    }
  }

  lemma LengthGrows(v: nat, w: nat, b: nat)
    requires b >= 2 && v <= w
    ensures |ToDigits(v, b)| <= |ToDigits(w, b)|
  {
    ToDigitsCanonical(v, b);
    ToDigitsCanonical(w, b);
    if |ToDigits(v, b)| > |ToDigits(w, b)| {
      Longer(ToDigits(v, b), ToDigits(w, b), b);
    }
  }
}
