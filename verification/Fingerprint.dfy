/** The multiply-and-mix hashes of the client SDKs: SimpleHash of
    sdks/cpp/include/volq_auth.hpp and the fallback of sdks/react/src/hwid.ts. */
module Fingerprint {
  import opened Basics

  // ------------------------------------------------------------------
  // Machine words
  // ------------------------------------------------------------------

  const TWO_32: nat := 0x1_0000_0000

  function Pow2(w: nat): (p: nat)
    ensures p >= 1
  {
    if w == 0 then 1 else 2 * Pow2(w - 1)
  }

  lemma EightMore(w: nat)
    ensures Pow2(w + 8) == 256 * Pow2(w)
  {
    assert Pow2(w + 8) == 2 * Pow2(w + 7) == 4 * Pow2(w + 6);
    assert Pow2(w + 6) == 2 * Pow2(w + 5) == 4 * Pow2(w + 4);
    assert Pow2(w + 4) == 2 * Pow2(w + 3) == 4 * Pow2(w + 2);
    assert Pow2(w + 2) == 2 * Pow2(w + 1) == 4 * Pow2(w);
  }

  lemma WordSizes()
    ensures Pow2(32) == TWO_32 && Pow2(64) == TWO_64
  {
    EightMore(0);
    EightMore(8);
    EightMore(16);
    EightMore(24);
    EightMore(32);
    EightMore(40);
    EightMore(48);
    EightMore(56);
  }

  /** Bitwise exclusive or of two words of w bits. */
  function Xor(a: nat, b: nat, w: nat): (r: nat)
    ensures r < Pow2(w)
  {
    if w == 0 then 0
    else (if a % 2 == b % 2 then 0 else 1) + 2 * Xor(a / 2, b / 2, w - 1)
  }

  lemma {:induction false} XorCancels(a: nat, b: nat, w: nat)
    requires a < Pow2(w)
    ensures Xor(Xor(a, b, w), b, w) == a
  {
    if w > 0 {
      XorCancels(a / 2, b / 2, w - 1);
    }
  }

  lemma {:induction false} XorCommutes(a: nat, b: nat, w: nat)
    ensures Xor(a, b, w) == Xor(b, a, w)
  {
    if w > 0 {
      XorCommutes(a / 2, b / 2, w - 1);
    }
  }

  lemma XorHalves(a: nat, b: nat, w: nat)
    requires w > 0
    ensures Xor(a, b, w) % 2 == (a + b) % 2 && Xor(a, b, w) / 2 == Xor(a / 2, b / 2, w - 1)
  {
  }

  function Bit(a: nat, i: nat): nat {
    a / Pow2(i) % 2
  }

  lemma BitHalf(a: nat, i: nat)
    ensures Bit(a, i + 1) == Bit(a / 2, i)
  {
    HalfThenShift(a, i);
  }

  /** Bit by bit: a bit of the result is set exactly if it differs in the two words. */
  lemma {:induction false} XorBits(a: nat, b: nat, w: nat, i: nat)
    requires i < w
    ensures Bit(Xor(a, b, w), i) == if Bit(a, i) == Bit(b, i) then 0 else 1
  {
    XorHalves(a, b, w);
    if i > 0 {
      XorBits(a / 2, b / 2, w - 1, i - 1);
      BitHalf(a, i - 1);
      BitHalf(b, i - 1);
      BitHalf(Xor(a, b, w), i - 1);
    }
  }

  lemma HalfThenShift(a: nat, i: nat)
    ensures a / Pow2(i + 1) == a / 2 / Pow2(i)
  {
    var p, q, r := Pow2(i), a / 2 / Pow2(i), a / 2 % Pow2(i);
    assert a / 2 == q * p + r;
    MulAssoc(2, q, p);
    MulAssoc(q, 2, p);
    var rest := 2 * r + a % 2;
    assert a == q * (2 * p) + rest && 0 <= rest < 2 * p;
    QuotientIs(a, q, 2 * p, rest);
  }

  lemma QuotientIs(a: nat, q: nat, n: nat, rest: nat)
    requires n > 0 && a == q * n + rest && rest < n
    ensures a / n == q
  {
    var p: int, o: int := a / n, q;
    assert a == p * n + a % n;
    MulDistributes(p, -o, n);
    if p - o >= 1 {
      MulMono(1, p - o, n);
    } else if p - o <= -1 {
      MulMono(p - o, -1, n);
    }
  }

  lemma Quotient(x: nat, n: nat, r: nat) returns (q: int)
    requires n > 0 && x % n == r
    ensures x == q * n + r
  {
    q := x / n;
  }

  lemma SameRemainder(p: int, a: nat, q: int, b: nat, n: nat)
    requires a < n && b < n && p * n + a == q * n + b
    ensures a == b
  {
    MulDistributes(p, -q, n);
    if p - q >= 1 {
      MulMono(1, p - q, n);
    } else if p - q <= -1 {
      MulMono(p - q, -1, n);
    }
  }

  lemma TimesUndone(a: nat, m: nat, inverse: nat, n: nat, r: nat, q: int, k: int)
    requires a * m == q * n + r && m * inverse == k * n + 1
    ensures (a * k - q * inverse) * n + a == r * inverse
  {
    MulAssoc(a, m, inverse);
    MulDistributes(k * n, 1, a);
    MulDistributes(q * n, r, inverse);
    MulAssoc(a, k, n);
    MulAssoc(q, n, inverse);
    MulAssoc(q, inverse, n);
    MulDistributes(a * k, -(q * inverse), n);
  }

  /** Multiplication by m modulo n can be undone when m has an inverse. */
  lemma TimesInvertible(a: nat, b: nat, m: nat, inverse: nat, n: nat, r: nat)
    requires a < n && b < n && m * inverse % n == 1 && a * m % n == r && b * m % n == r
    ensures a == b
  {
    var k := Quotient(m * inverse, n, 1);
    var p := Quotient(a * m, n, r);
    var q := Quotient(b * m, n, r);
    TimesUndone(a, m, inverse, n, r, p, k);
    TimesUndone(b, m, inverse, n, r, q, k);
    SameRemainder(a * k - p * inverse, a, b * k - q * inverse, b, n);
  }

  // ------------------------------------------------------------------
  // Mixing
  // ------------------------------------------------------------------

  // One running word: combined with the next character by xor or by addition, then multiplied,
  // all in words of the given width. The inverse of the multiplier is for the proofs.
  datatype Mixer = Mixer(width: nat, xor: bool, multiplier: nat, inverse: nat)

  predicate Invertible(m: Mixer) {
    m.multiplier * m.inverse % Pow2(m.width) == 1
  }

  function Combine(m: Mixer, h: nat, c: nat): (r: nat)
    ensures r < Pow2(m.width)
  {
    if m.xor then Xor(h, c, m.width) else (h + c) % Pow2(m.width)
  }

  function Step(m: Mixer, h: nat, c: nat): (r: nat)
    ensures r < Pow2(m.width)
  {
    Combine(m, h, c) * m.multiplier % Pow2(m.width)
  }

  function Mix(m: Mixer, seed: nat, cs: seq<nat>): (r: nat)
    requires seed < Pow2(m.width)
    ensures r < Pow2(m.width)
  {
    if cs == [] then seed else Step(m, Mix(m, seed, cs[..|cs| - 1]), cs[|cs| - 1])
  }

  lemma MixNext(m: Mixer, seed: nat, cs: seq<nat>, i: nat)
    requires seed < Pow2(m.width) && i < |cs|
    ensures Mix(m, seed, cs[..i + 1]) == Step(m, Mix(m, seed, cs[..i]), cs[i])
  {
    assert cs[..i + 1][..i] == cs[..i];
  }

  lemma SumInjective(a: nat, b: nat, b': nat, n: nat, r: nat)
    requires b < n && b' < n && n > 0 && (a + b) % n == r && (a + b') % n == r
    ensures b == b'
  {
    var p := Quotient(a + b, n, r);
    var q := Quotient(a + b', n, r);
    MulDistributes(p, -q, n);
    SameRemainder(q, b, p, b', n);
  }

  lemma CombineInjective(m: Mixer, h: nat, c: nat, h': nat, c': nat)
    requires h < Pow2(m.width) && c < Pow2(m.width) && h' < Pow2(m.width) && c' < Pow2(m.width)
    requires Combine(m, h, c) == Combine(m, h', c')
    ensures h == h' <==> c == c'
  {
    if m.xor {
      XorCancels(h, c, m.width);
      XorCancels(h', c', m.width);
      XorCommutes(h, c, m.width);
      XorCommutes(h', c', m.width);
      XorCancels(c, h, m.width);
      XorCancels(c', h', m.width);
    } else {
      if h == h' {
        SumInjective(h, c, c', Pow2(m.width), Combine(m, h, c));
      }
      if c == c' {
        SumInjective(c, h, h', Pow2(m.width), Combine(m, h, c));
      }
    }
  }

  /** A step is a bijection of the state, and injective in the character. */
  lemma StepInjective(m: Mixer, h: nat, c: nat, h': nat, c': nat)
    requires Invertible(m)
    requires h < Pow2(m.width) && c < Pow2(m.width) && h' < Pow2(m.width) && c' < Pow2(m.width)
    requires Step(m, h, c) == Step(m, h', c')
    ensures h == h' <==> c == c'
  {
    TimesInvertible(Combine(m, h, c), Combine(m, h', c'), m.multiplier, m.inverse, Pow2(m.width), Step(m, h, c));
    CombineInjective(m, h, c, h', c');
  }

  /** Inputs of one length that differ in exactly one place. */
  ghost predicate DifferOnce<T>(a: seq<T>, b: seq<T>, at: nat) {
    && |a| == |b| && at < |a| && a[at] != b[at]
    && forall i :: 0 <= i < |a| && i != at ==> a[i] == b[i]
  }

  lemma {:induction false} MixSeparates(m: Mixer, seed: nat, a: seq<nat>, b: seq<nat>, at: nat)
    requires Invertible(m) && seed < Pow2(m.width) && DifferOnce(a, b, at)
    requires forall i :: 0 <= i < |a| ==> a[i] < Pow2(m.width) && b[i] < Pow2(m.width)
    ensures Mix(m, seed, a) != Mix(m, seed, b)
  {
    var n := |a| - 1;
    if at < n {
      MixSeparates(m, seed, a[..n], b[..n], at);
    } else {
      assert a[..n] == b[..n];
    }
    if Mix(m, seed, a) == Mix(m, seed, b) {
      StepInjective(m, Mix(m, seed, a[..n]), a[n], Mix(m, seed, b[..n]), b[n]);
    }
  }

  // ------------------------------------------------------------------
  // Hexadecimal
  // ------------------------------------------------------------------

  function HexDigit(x: nat): char
    requires x < 16
  {
    if x < 10 then (x + '0' as int) as char else (x - 10 + 'a' as int) as char
  }

  function HexDigitValue(c: char): nat {
    if '0' <= c <= '9' then c as int - '0' as int else if 'a' <= c <= 'f' then c as int - 'a' as int + 10 else 0
  }

  function ToHex(n: nat): string {
    (if n < 16 then "" else ToHex(n / 16)) + [HexDigit(n % 16)]
  }

  function PadStart(s: string, width: nat): (r: string)
    ensures |r| == if |s| > width then |s| else width
    decreases width - |s|
  {
    if |s| >= width then s else PadStart("0" + s, width)
  }

  function HexValue(s: string): nat {
    if s == "" then 0 else 16 * HexValue(s[..|s| - 1]) + HexDigitValue(s[|s| - 1])
  }

  lemma {:induction false} HexValueToHex(n: nat)
    ensures HexValue(ToHex(n)) == n
  {
    var s := ToHex(n);
    if n >= 16 {
      HexValueToHex(n / 16);
      assert s[..|s| - 1] == ToHex(n / 16);
    } else {
      assert s[..|s| - 1] == "";
    }
  }

  lemma {:induction false} LeadingZero(s: string)
    ensures HexValue("0" + s) == HexValue(s)
  {
    var z := "0" + s;
    if s == "" {
      assert z[..|z| - 1] == "";
    } else {
      assert z[..|z| - 1] == "0" + s[..|s| - 1];
      LeadingZero(s[..|s| - 1]);
    }
  }

  lemma {:induction false} HexValuePadded(s: string, width: nat)
    ensures HexValue(PadStart(s, width)) == HexValue(s)
    decreases width - |s|
  {
    if |s| < width {
      LeadingZero(s);
      HexValuePadded("0" + s, width);
    }
  }

  lemma {:induction false} HexLength(n: nat, width: nat)
    requires width >= 1 && n < Pow2(4 * width)
    ensures |ToHex(n)| <= width
  {
    if n >= 16 {
      var k := 4 * (width - 1);
      assert Pow2(k + 4) == 2 * Pow2(k + 3) && Pow2(k + 3) == 2 * Pow2(k + 2);
      assert Pow2(k + 2) == 2 * Pow2(k + 1) && Pow2(k + 1) == 2 * Pow2(k);
      assert width >= 2;
      HexLength(n / 16, width - 1);
    }
  }

  function Hex(n: nat, width: nat): string {
    PadStart(ToHex(n), width)
  }

  /** Fixed-width printing is injective on the words that fit. */
  lemma HexInjective(n: nat, m: nat, width: nat)
    requires width >= 1 && n < Pow2(4 * width) && m < Pow2(4 * width)
    ensures |Hex(n, width)| == |Hex(m, width)| == width
    ensures Hex(n, width) == Hex(m, width) ==> n == m
  {
    HexLength(n, width);
    HexLength(m, width);
    HexValuePadded(ToHex(n), width);
    HexValuePadded(ToHex(m), width);
    HexValueToHex(n);
    HexValueToHex(m);
  }

  // ------------------------------------------------------------------
  // The C++ SDK
  // ------------------------------------------------------------------

  const FNV_PRIME: nat := 0x100_0000_01B3
  const FNV_OFFSET: nat := 0xCBF2_9CE4_8422_2325

  const CPP1: Mixer := Mixer(64, true, FNV_PRIME, 0xCE96_5057_AFF6_957B)
  const CPP2: Mixer := Mixer(64, false, FNV_OFFSET, 0xD94E_158E_1501_40AD)

  type Byte = b: int | 0 <= b < 256

  /** A char converted to uint64_t: sign-extended where the platform's char is signed. */
  function Widened(b: Byte, signed: bool): nat {
    if signed && b >= 128 then TWO_64 - 256 + b else b
  }

  function WidenedAll(input: seq<Byte>, signed: bool): (r: seq<nat>)
    ensures |r| == |input| && forall i :: 0 <= i < |r| ==> r[i] == Widened(input[i], signed) < TWO_64
  {
    seq(|input|, i requires 0 <= i < |input| => Widened(input[i], signed))
  }

  lemma CppWords()
    ensures Pow2(64) == TWO_64 && Invertible(CPP1) && Invertible(CPP2)
  {
    WordSizes();
  }

  function CppDigest(input: seq<Byte>, signed: bool): string {
    WordSizes();
    Hex(Mix(CPP1, FNV_OFFSET, WidenedAll(input, signed)), 16) + Hex(Mix(CPP2, FNV_PRIME, WidenedAll(input, signed)), 16)
  }

  // The two statements of the loop, in words of 64 bits.
  function Mixed1(h: nat, c: nat): nat {
    Xor(h, c, 64) * FNV_PRIME % TWO_64
  }

  function Mixed2(h: nat, c: nat): nat {
    (h + c) % TWO_64 * FNV_OFFSET % TWO_64
  }

  lemma MixedIsStep(h: nat, c: nat)
    ensures Mixed1(h, c) == Step(CPP1, h, c) && Mixed2(h, c) == Step(CPP2, h, c)
  {
    WordSizes();
  }

  method SimpleHash(input: seq<Byte>, signed: bool) returns (digest: string)
    ensures digest == CppDigest(input, signed)
  {
    WordSizes();
    var h1, h2 := FNV_OFFSET, FNV_PRIME;
    ghost var cs := WidenedAll(input, signed);
    for i := 0 to |input|
      invariant h1 == Mix(CPP1, FNV_OFFSET, cs[..i])
      invariant h2 == Mix(CPP2, FNV_PRIME, cs[..i])
    {
      var c := Widened(input[i], signed);
      MixNext(CPP1, FNV_OFFSET, cs, i);
      MixNext(CPP2, FNV_PRIME, cs, i);
      MixedIsStep(h1, c);
      MixedIsStep(h2, c);
      h1 := Mixed1(h1, c);
      h2 := Mixed2(h2, c);
    }
    assert cs[..|input|] == cs;
    digest := Hex(h1, 16) + Hex(h2, 16);
  }

  /** Two inputs of one length that differ in exactly one character never share a digest; each
      half of the digest tells them apart. */
  lemma CppSeparates(a: seq<Byte>, b: seq<Byte>, at: nat, signed: bool)
    requires DifferOnce(a, b, at)
    ensures CppDigest(a, signed)[..16] != CppDigest(b, signed)[..16]
    ensures CppDigest(a, signed)[16..] != CppDigest(b, signed)[16..]
  {
    CppWords();
    var cs, ds := WidenedAll(a, signed), WidenedAll(b, signed);
    MixSeparates(CPP1, FNV_OFFSET, cs, ds, at);
    MixSeparates(CPP2, FNV_PRIME, cs, ds, at);
    HexInjective(Mix(CPP1, FNV_OFFSET, cs), Mix(CPP1, FNV_OFFSET, ds), 16);
    HexInjective(Mix(CPP2, FNV_PRIME, cs), Mix(CPP2, FNV_PRIME, ds), 16);
  }

  /** The digests of no and of one character: seeds, multipliers and halves in their places. */
  lemma CppShort(b: Byte, signed: bool)
    ensures CppDigest([], signed) == Hex(0xCBF2_9CE4_8422_2325, 16) + Hex(0x100_0000_01B3, 16)
    ensures var c := Widened(b, signed);
            CppDigest([b], signed)
            == Hex(Xor(0xCBF2_9CE4_8422_2325, c, 64) * 0x100_0000_01B3 % 0x1_0000_0000_0000_0000, 16)
             + Hex((0x100_0000_01B3 + c) % 0x1_0000_0000_0000_0000 * 0xCBF2_9CE4_8422_2325
                   % 0x1_0000_0000_0000_0000, 16)
  {
    WordSizes();
    var c := Widened(b, signed);
    assert WidenedAll([], signed) == [] && WidenedAll([b], signed) == [c];
    MixOne(CPP1, FNV_OFFSET, c);
    MixOne(CPP2, FNV_PRIME, c);
    MixedIsStep(FNV_OFFSET, c);
    MixedIsStep(FNV_PRIME, c);
  }

  lemma MixOne(m: Mixer, seed: nat, c: nat)
    requires seed < Pow2(m.width)
    ensures Mix(m, seed, []) == seed && Mix(m, seed, [c]) == Step(m, seed, c)
  {
    assert [c][..0] == [];
  }

  // ------------------------------------------------------------------
  // The browser fallback
  // ------------------------------------------------------------------

  const JS1: Mixer := Mixer(32, true, 2_654_435_761, 244_002_641)
  const JS2: Mixer := Mixer(32, true, 1_597_334_677, 851_723_965)

  const SEED1: nat := 0xDEAD_BEEF
  const SEED2: nat := 0x41C6_CE57

  type CodeUnit = c: int | 0 <= c < 0x1_0000

  function CodeUnits(input: seq<CodeUnit>): (r: seq<nat>)
    ensures |r| == |input| && forall i :: 0 <= i < |r| ==> r[i] == input[i] < 0x1_0000
  {
    seq(|input|, i requires 0 <= i < |input| => input[i])
  }

  lemma JsWords()
    ensures Pow2(32) == TWO_32 && Invertible(JS1) && Invertible(JS2)
  {
    WordSizes();
  }

  function JsDigest(input: seq<CodeUnit>): string {
    WordSizes();
    var once := Hex(Mix(JS1, SEED1, CodeUnits(input)), 8) + Hex(Mix(JS2, SEED2, CodeUnits(input)), 8);
    once + once + once + once
  }

  /** Math.imul keeps the low 32 bits of a product; the words are written as `h >>> 0`. */
  method FallbackHash(input: seq<CodeUnit>) returns (digest: string)
    ensures digest == JsDigest(input)
  {
    WordSizes();
    var h1, h2 := SEED1, SEED2;
    ghost var cs := CodeUnits(input);
    for i := 0 to |input|
      invariant h1 == Mix(JS1, SEED1, cs[..i])
      invariant h2 == Mix(JS2, SEED2, cs[..i])
    {
      MixNext(JS1, SEED1, cs, i);
      MixNext(JS2, SEED2, cs, i);
      h1 := Xor(h1, input[i], 32) * 2_654_435_761 % TWO_32;
      h2 := Xor(h2, input[i], 32) * 1_597_334_677 % TWO_32;
    }
    assert cs[..|input|] == cs;
    var once := Hex(h1, 8) + Hex(h2, 8);
    digest := once + once + once + once;
  }

  lemma FourTimes(p: string, q: string)
    requires |p| == 8 && |q| == 8
    ensures var once := p + q;
            var s := once + once + once + once;
            |s| == 64 && s[..8] == p && s[8..16] == q
  {
  }

  lemma JsHalves(input: seq<CodeUnit>)
    ensures Pow2(32) == TWO_32 && |JsDigest(input)| == 64
    ensures JsDigest(input)[..8] == Hex(Mix(JS1, SEED1, CodeUnits(input)), 8)
    ensures JsDigest(input)[8..16] == Hex(Mix(JS2, SEED2, CodeUnits(input)), 8)
  {
    WordSizes();
    var h1, h2 := Mix(JS1, SEED1, CodeUnits(input)), Mix(JS2, SEED2, CodeUnits(input));
    HexInjective(h1, h1, 8);
    HexInjective(h2, h2, 8);
    FourTimes(Hex(h1, 8), Hex(h2, 8));
  }

  lemma JsShort(c: CodeUnit)
    ensures JsDigest([])[..16] == Hex(0xDEAD_BEEF, 8) + Hex(0x41C6_CE57, 8)
    ensures JsDigest([c])[..16] == Hex(Xor(0xDEAD_BEEF, c, 32) * 2_654_435_761 % 0x1_0000_0000, 8)
                                 + Hex(Xor(0x41C6_CE57, c, 32) * 1_597_334_677 % 0x1_0000_0000, 8)
    ensures forall s :: JsDigest(s) == JsDigest(s)[..16] + JsDigest(s)[..16] + JsDigest(s)[..16] + JsDigest(s)[..16]
  {
    WordSizes();
    assert CodeUnits([]) == [] && CodeUnits([c]) == [c as nat];
    MixOne(JS1, SEED1, c);
    MixOne(JS2, SEED2, c);
    JsHalves([]);
    JsHalves([c]);
    JoinHalves(JsDigest([]));
    JoinHalves(JsDigest([c]));
    forall s ensures JsDigest(s) == JsDigest(s)[..16] + JsDigest(s)[..16] + JsDigest(s)[..16] + JsDigest(s)[..16] {
      JsHalves(s);
      JsRepeats(s);
    }
  }

  lemma JoinHalves(s: string)
    requires |s| >= 16
    ensures s[..16] == s[..8] + s[8..16]
  {
  }

  lemma JsRepeats(input: seq<CodeUnit>)
    requires |JsDigest(input)| == 64
    ensures var once := JsDigest(input)[..16]; JsDigest(input) == once + once + once + once
  {
    WordSizes();
    var h1, h2 := Mix(JS1, SEED1, CodeUnits(input)), Mix(JS2, SEED2, CodeUnits(input));
    HexInjective(h1, h1, 8);
    HexInjective(h2, h2, 8);
    var once := Hex(h1, 8) + Hex(h2, 8);
    assert JsDigest(input)[..16] == once;
  }

  /** Hexadecimal is in lower case, the most significant digit first, filled up with zeros. */
  lemma HexExactly()
    ensures Hex(0x9ABC, 6) == "009abc" && Hex(0xDEF0, 4) == "def0"
  {
    assert ToHex(0x9) == "9" && ToHex(0x9A) == "9a" && ToHex(0x9AB) == "9ab" && ToHex(0x9ABC) == "9abc";
    assert "0" + "9abc" == "09abc" && "0" + "09abc" == "009abc";
    assert PadStart("009abc", 6) == "009abc" && PadStart("09abc", 6) == "009abc";
    assert ToHex(0xD) == "d" && ToHex(0xDE) == "de" && ToHex(0xDEF) == "def" && ToHex(0xDEF0) == "def0";
  }

  lemma JsSeparates(a: seq<CodeUnit>, b: seq<CodeUnit>, at: nat)
    requires DifferOnce(a, b, at)
    ensures JsDigest(a)[..8] != JsDigest(b)[..8]
    ensures JsDigest(a)[8..16] != JsDigest(b)[8..16]
  {
    JsWords();
    var cs, ds := CodeUnits(a), CodeUnits(b);
    MixSeparates(JS1, SEED1, cs, ds, at);
    MixSeparates(JS2, SEED2, cs, ds, at);
    JsHalves(a);
    JsHalves(b);
    HexInjective(Mix(JS1, SEED1, cs), Mix(JS1, SEED1, ds), 8);
    HexInjective(Mix(JS2, SEED2, cs), Mix(JS2, SEED2, ds), 8);
  }
}
