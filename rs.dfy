/** Reed-Solomon error correction as js/qr.js computes it (section 7.5.2 of
    ISO/IEC 18004:2015): the generator polynomial, its cache, and the
    error-correction codewords, a shift register proved equal to the
    remainder of polynomial long division. */
module ReedSolomon {
  import opened Bits
  import opened GaloisField
  import opened QrSpecs

  /** A polynomial over GF(256), highest-degree coefficient first, as the
      arrays of js/qr.js hold it. */
  type Poly = seq<Byte>

  /** What `next[k]` receives from `poly[k] * factor[0]`, with factor[0] == 1. */
  function LowTerm(p: Poly, k: int): Byte {
    if 0 <= k < |p| then GfMul(p[k], 1) else 0
  }

  /** What `next[k]` receives from `poly[k - 1] * factor[1]`. */
  function HighTerm(p: Poly, c: Byte, k: int): Byte {
    if 1 <= k <= |p| then GfMul(p[k - 1], c) else 0
  }

  /** p times the factor (x + c). */
  function MulFactor(p: Poly, c: Byte): (r: Poly)
    ensures |r| == |p| + 1
  {
    seq(|p| + 1, k requires 0 <= k <= |p| => Xor8(LowTerm(p, k), HighTerm(p, c, k)))
  }

  /** The product of the factors (x + r) over the given roots, in order. */
  function FromRoots(roots: Poly): (r: Poly)
    ensures |r| == |roots| + 1
    decreases |roots|
  {
    if roots == [] then [1]
    else MulFactor(FromRoots(roots[..|roots| - 1]), roots[|roots| - 1])
  }

  /** The roots of the generator of degree d: 2^0 ... 2^(d-1). */
  function Roots(d: nat): (r: Poly)
    ensures |r| == d
  {
    seq(d, i requires 0 <= i < d => ExpInt(i))
  }

  /** The generator polynomial of degree d. */
  function GenPoly(d: nat): Poly {
    FromRoots(Roots(d))
  }

  /** The product over any roots is monic. */
  lemma {:induction false} FromRootsMonic(roots: Poly)
    ensures FromRoots(roots)[0] == 1
    decreases |roots|
  {
    if roots != [] {
      FromRootsMonic(roots[..|roots| - 1]);
      GfMulOne(1);
      XorZeroRight(1);
    }
  }

  /** The generator of degree d has d + 1 coefficients and is monic. */
  lemma GenPolyShape(d: nat)
    ensures |GenPoly(d)| == d + 1 && GenPoly(d)[0] == 1
  {
    FromRootsMonic(Roots(d));
  }

  /** The product of the roots, in GF(256). */
  function RootProduct(roots: Poly): Byte
    decreases |roots|
  {
    if roots == [] then 1 else GfMul(RootProduct(roots[..|roots| - 1]), roots[|roots| - 1])
  }

  /** The constant term of the product is the product of the roots. */
  lemma {:induction false} FromRootsConstant(roots: Poly)
    ensures FromRoots(roots)[|roots|] == RootProduct(roots)
    decreases |roots|
  {
    if roots != [] {
      var n := |roots|;
      FromRootsConstant(roots[..n - 1]);
      XorZeroLeft(HighTerm(FromRoots(roots[..n - 1]), roots[n - 1], n));
    }
  }

  /** Degree i + 1 adds the root 2^i to degree i: one round of the outer
      loop of `buildGeneratorPoly`. */
  lemma GenPolyStep(i: nat)
    ensures GenPoly(i + 1) == MulFactor(GenPoly(i), ExpInt(i))
  {
    assert Roots(i + 1)[..i] == Roots(i);
  }

  /** `buildGeneratorPoly(degree)`. */
  method BuildGeneratorPoly(gfExp: array<bv8>, gfLog: array<int>, degree: nat) returns (poly: Poly)
    requires Filled(gfExp, gfLog) && degree <= 512
    ensures poly == GenPoly(degree)
  {
    poly := [1];
    var i := 0;
    while i < degree
      invariant 0 <= i <= degree
      invariant poly == GenPoly(i)
    {
      var factor := [1, gfExp[i] as int];
      poly := MulByFactor(gfExp, gfLog, poly, factor);
      GenPolyStep(i);
      i := i + 1;
    }
  }

  /** The inner loop of `buildGeneratorPoly`: `next` starts zero-filled and
      each coefficient of `poly` is xored into two neighbouring cells. */
  method MulByFactor(gfExp: array<bv8>, gfLog: array<int>, poly: Poly, factor: seq<Byte>)
    returns (next: Poly)
    requires Filled(gfExp, gfLog)
    requires |factor| == 2 && factor[0] == 1
    ensures next == MulFactor(poly, factor[1])
  {
    next := Zeros(|poly| + 1);
    assert next == Partial(poly, factor[1], 0);
    var j := 0;
    while j < |poly|
      invariant 0 <= j <= |poly|
      invariant next == Partial(poly, factor[1], j)
    {
      var low := TableMul(gfExp, gfLog, poly[j], factor[0]);
      var high := TableMul(gfExp, gfLog, poly[j], factor[1]);
      PartialStep(poly, factor[1], j, low, high);
      next := next[j := Xor8(next[j], low)][j + 1 := Xor8(next[j + 1], high)];
      j := j + 1;
    }
    PartialDone(poly, factor[1]);
  }

  /** `next` after the first j rounds of the inner loop: finished below j,
      the high term of round j - 1 at j, zeros above. */
  function Partial(p: Poly, c: Byte, j: nat): (r: Poly)
    requires j <= |p|
    ensures |r| == |p| + 1
  {
    seq(|p| + 1, k requires 0 <= k <= |p| => PartialCoef(p, c, j, k))
  }

  function PartialCoef(p: Poly, c: Byte, j: nat, k: nat): Byte {
    if k < j then Xor8(LowTerm(p, k), HighTerm(p, c, k)) else if k == j then HighTerm(p, c, j) else 0
  }

  lemma PartialStep(p: Poly, c: Byte, j: nat, low: Byte, high: Byte)
    requires j < |p| && low == GfMul(p[j], 1) && high == GfMul(p[j], c)
    ensures Partial(p, c, j)[j := Xor8(Partial(p, c, j)[j], low)][j + 1 := Xor8(Partial(p, c, j)[j + 1], high)]
         == Partial(p, c, j + 1)
  {
    XorCommutes(HighTerm(p, c, j), low);
    XorZeroLeft(high);
  }

  lemma PartialDone(p: Poly, c: Byte)
    ensures Partial(p, c, |p|) == MulFactor(p, c)
  {
    XorZeroLeft(HighTerm(p, c, |p|));
  }

  /** `generatorPolyCache`, the memo table behind `getGeneratorPoly`. */
  class GeneratorCache {
    var polys: map<nat, Poly>

    ghost predicate Valid()
      reads this
    {
      forall d :: d in polys ==> polys[d] == GenPoly(d)
    }

    constructor()
      ensures Valid() && polys == map[]
    {
      polys := map[];
    }

    /** `getGeneratorPoly(degree)`: the cached polynomial equals the one
        `buildGeneratorPoly` computes, and a miss stores it. */
    method Get(gfExp: array<bv8>, gfLog: array<int>, degree: nat) returns (poly: Poly)
      requires Valid() && Filled(gfExp, gfLog) && degree <= 512
      modifies this
      ensures Valid()
      ensures poly == GenPoly(degree)
      ensures polys == old(polys)[degree := poly]
      ensures degree in old(polys) ==> polys == old(polys)
    {
      if degree in polys {
        poly := polys[degree];
        assert polys == polys[degree := poly];
      } else {
        poly := BuildGeneratorPoly(gfExp, gfLog, degree);
        polys := polys[degree := poly];
      }
    }
  }

  /** Coefficient q after the division step at i: the divisor, scaled by
      the coefficient found at i, is xored in over positions i .. i+|g|-1. */
  function DivCell(m: Poly, g: Poly, i: nat, q: nat): Byte
    requires i < |m| && q < |m|
  {
    if i <= q < i + |g| then Xor8(m[q], GfMul(g[q - i], m[i])) else m[q]
  }

  /** One step of long division by g, at position i. */
  function DivStep(m: Poly, g: Poly, i: nat): (r: Poly)
    requires i < |m|
    ensures |r| == |m|
  {
    seq(|m|, q requires 0 <= q < |m| => DivCell(m, g, i, q))
  }

  /** The first k steps of long division. */
  function Divide(m: Poly, g: Poly, k: nat): (r: Poly)
    requires k <= |m|
    ensures |r| == |m|
  {
    if k == 0 then m else DivStep(Divide(m, g, k - 1), g, k - 1)
  }

  function Zeros(n: nat): (r: Poly)
    ensures |r| == n
  {
    seq(n, _ => 0)
  }

  /** The remainder of data times x^n on division by a generator of degree
      n: the error-correction codewords of section 7.5.2. */
  function Remainder(data: Poly, g: Poly): (r: Poly)
    requires |g| >= 1
    ensures |r| == |g| - 1
  {
    Divide(data + Zeros(|g| - 1), g, |data|)[|data|..]
  }

  /** Long division by a monic divisor clears every coefficient it steps
      over: the quotient is taken out entirely and what is left lies in the
      last |g| - 1 positions. */
  lemma {:induction false} DivideClears(m: Poly, g: Poly, k: nat)
    requires k <= |m| && |g| >= 1 && g[0] == 1
    ensures forall p :: 0 <= p < k ==> Divide(m, g, k)[p] == 0
  {
    if k > 0 {
      DivideClears(m, g, k - 1);
      var x := Divide(m, g, k - 1)[k - 1];
      GfMulCommutes(1, x);
      GfMulOne(x);
      XorSelf(x);
    }
  }

  /** The register shifted left by one with a zero pushed: `ec.shift();
      ec.push(0)`. */
  function Shift(ec: Poly): (r: Poly)
    requires |ec| >= 1
    ensures |r| == |ec|
  {
    ec[1..] + [0]
  }

  /** The inner loop of `computeEC`, all rounds: the generator, scaled by
      `factor`, xored in with its leading coefficient left out. */
  function Absorb(shifted: Poly, g: Poly, factor: Byte): (r: Poly)
    requires |g| == |shifted| + 1
    ensures |r| == |shifted|
  {
    seq(|shifted|, t requires 0 <= t < |shifted| => Xor8(shifted[t], GfMul(g[t + 1], factor)))
  }

  /** The register after one data byte. */
  function Feed(ec: Poly, g: Poly, factor: Byte): (r: Poly)
    requires |ec| >= 1 && |g| == |ec| + 1
    ensures |r| == |ec|
  {
    Absorb(Shift(ec), g, factor)
  }

  /** The register after the given data bytes, from all zeros. */
  function Lfsr(data: Poly, g: Poly): (r: Poly)
    requires |g| >= 2
    ensures |r| == |g| - 1
    decreases |data|
  {
    if data == [] then Zeros(|g| - 1)
    else
      var ec := Lfsr(data[..|data| - 1], g);
      Feed(ec, g, Xor8(data[|data| - 1], ec[0]))
  }

  /** How the register relates to long division after i bytes: divided
      positions i .. i+n-1 hold the message xored with the register, and
      the positions past them are still untouched. */
  ghost predicate Window(d: Poly, m: Poly, ec: Poly, i: nat) {
    |d| == |m| && i + |ec| <= |m|
    && (forall t :: 0 <= t < |ec| ==> d[i + t] == Xor8(m[i + t], ec[t]))
    && (forall p :: i + |ec| <= p < |m| ==> d[p] == m[p])
  }

  lemma WindowStep(d: Poly, m: Poly, g: Poly, ec: Poly, i: nat, factor: Byte)
    requires |ec| >= 1 && |g| == |ec| + 1 && i + |g| <= |m|
    requires Window(d, m, ec, i) && factor == Xor8(m[i], ec[0])
    ensures Window(DivStep(d, g, i), m, Feed(ec, g, factor), i + 1)
  {
    var n := |ec|;
    var d', ec' := DivStep(d, g, i), Feed(ec, g, factor);
    assert d[i] == factor by {
      XorCancel(m[i], ec[0]);
      XorCommutes(m[i], ec[0]);
      XorAssoc(ec[0], m[i], ec[0]);
      XorCommutes(Xor(ec[0], m[i]), ec[0]);
    }
    forall t | 0 <= t < n ensures d'[i + 1 + t] == Xor8(m[i + 1 + t], ec'[t]) {
      WindowCell(d, m, g, ec, i, factor, t);
    }
  }

  /** One cell of the window after a step. */
  lemma WindowCell(d: Poly, m: Poly, g: Poly, ec: Poly, i: nat, factor: Byte, t: nat)
    requires |ec| >= 1 && |g| == |ec| + 1 && i + |g| <= |m| && |d| == |m| && t < |ec|
    requires d[i] == factor
    requires t < |ec| - 1 ==> d[i + 1 + t] == Xor8(m[i + 1 + t], ec[t + 1])
    requires t == |ec| - 1 ==> d[i + 1 + t] == m[i + 1 + t]
    ensures DivStep(d, g, i)[i + 1 + t] == Xor8(m[i + 1 + t], Feed(ec, g, factor)[t])
  {
    var gm := GfMul(g[t + 1], factor);
    var shifted := if t < |ec| - 1 then ec[t + 1] else 0;
    assert Feed(ec, g, factor)[t] == Xor8(shifted, gm) by {
      assert Shift(ec)[t] == shifted;
    }
    if t < |ec| - 1 {
      XorAssoc(m[i + 1 + t], ec[t + 1], gm);
    } else {
      XorZeroLeft(gm);
    }
  }

  /** After the last byte the register holds the divided tail. */
  lemma WindowDone(data: Poly, g: Poly, ec: Poly)
    requires |g| == |ec| + 1
    requires Window(Divide(data + Zeros(|ec|), g, |data|), data + Zeros(|ec|), ec, |data|)
    ensures Remainder(data, g) == ec
  {
    var m := data + Zeros(|ec|);
    var d := Divide(m, g, |data|);
    forall t | 0 <= t < |ec| ensures d[|data| + t] == ec[t] {
      assert m[|data| + t] == 0;
      XorZeroLeft(ec[t]);
    }
  }

  /** The register after i bytes is the window of long division after i
      steps. */
  lemma {:induction false} LfsrWindow(data: Poly, g: Poly, i: nat)
    requires |g| >= 2 && i <= |data|
    ensures Window(Divide(data + Zeros(|g| - 1), g, i), data + Zeros(|g| - 1), Lfsr(data[..i], g), i)
  {
    var m := data + Zeros(|g| - 1);
    if i == 0 {
      assert data[..0] == [];
      forall t | 0 <= t < |g| - 1 ensures m[t] == Xor8(m[t], Lfsr(data[..0], g)[t]) {
        XorZeroRight(m[t]);
      }
    } else {
      LfsrWindow(data, g, i - 1);
      var ec := Lfsr(data[..i - 1], g);
      assert data[..i][..i - 1] == data[..i - 1];
      assert m[i - 1] == data[i - 1];
      WindowStep(Divide(m, g, i - 1), m, g, ec, i - 1, Xor8(data[i - 1], ec[0]));
    }
  }

  /** The shift register computes the remainder of long division: the
      error-correction codewords of section 7.5.2. */
  lemma LfsrRemainder(data: Poly, g: Poly)
    requires |g| >= 2
    ensures Lfsr(data, g) == Remainder(data, g)
  {
    LfsrWindow(data, g, |data|);
    assert data[..|data|] == data;
    WindowDone(data, g, Lfsr(data, g));
  }

  /** `computeEC(data, version)`. */
  method ComputeEC(gfExp: array<bv8>, gfLog: array<int>, cache: GeneratorCache, data: Poly, version: int)
    returns (ec: Poly)
    requires Supported(version) && cache.Valid() && Filled(gfExp, gfLog)
    modifies cache
    ensures cache.Valid()
    ensures cache.polys == old(cache.polys)[SpecOf(version).value.ecCodewords := GenPoly(SpecOf(version).value.ecCodewords)]
    ensures ec == Remainder(data, GenPoly(SpecOf(version).value.ecCodewords))
    ensures |ec| == SpecOf(version).value.ecCodewords
  {
    var spec := SpecOf(version).value;
    var generatorPoly := cache.Get(gfExp, gfLog, spec.ecCodewords);
    GenPolyShape(spec.ecCodewords);
    ec := Register(gfExp, gfLog, data, generatorPoly);
    LfsrRemainder(data, generatorPoly);
  }

  /** The shift register of `computeEC`: one round per data byte. */
  method Register(gfExp: array<bv8>, gfLog: array<int>, data: Poly, generatorPoly: Poly) returns (ec: Poly)
    requires Filled(gfExp, gfLog) && |generatorPoly| >= 2
    ensures ec == Lfsr(data, generatorPoly)
  {
    ec := Zeros(|generatorPoly| - 1);
    var idx := 0;
    while idx < |data|
      invariant 0 <= idx <= |data|
      invariant ec == Lfsr(data[..idx], generatorPoly)
    {
      var factor := Xor8(data[idx], ec[0]);
      ghost var before := ec;
      ec := ec[1..] + [0];
      if factor != 0 {
        ec := FeedLoop(gfExp, gfLog, ec, generatorPoly, factor);
      } else {
        FeedZero(before, generatorPoly);
      }
      assert data[..idx + 1][..idx] == data[..idx];
      idx := idx + 1;
    }
    assert data[..idx] == data;
  }

  /** The inner loop of `computeEC`: `ec[i] ^= gfMul(generatorPoly[i + 1], factor)`. */
  method FeedLoop(gfExp: array<bv8>, gfLog: array<int>, shifted: Poly, g: Poly, factor: Byte)
    returns (ec: Poly)
    requires Filled(gfExp, gfLog) && |g| == |shifted| + 1
    ensures ec == Absorb(shifted, g, factor)
  {
    ec := shifted;
    var i := 0;
    while i < |g| - 1
      invariant 0 <= i <= |shifted| && |ec| == |shifted|
      invariant forall t :: 0 <= t < i ==> ec[t] == Xor8(shifted[t], GfMul(g[t + 1], factor))
      invariant forall t :: i <= t < |shifted| ==> ec[t] == shifted[t]
    {
      var product := TableMul(gfExp, gfLog, g[i + 1], factor);
      ec := ec[i := Xor8(ec[i], product)];
      i := i + 1;
    }
  }

  /** A zero factor leaves the shifted register as it is, which is why
      the source may skip the inner loop. */
  lemma FeedZero(ec: Poly, g: Poly)
    requires |ec| >= 1 && |g| == |ec| + 1
    ensures Feed(ec, g, 0) == Shift(ec)
  {
    forall t | 0 <= t < |ec| ensures Feed(ec, g, 0)[t] == Shift(ec)[t] {
      XorZeroRight(Shift(ec)[t]);
    }
  }
}
