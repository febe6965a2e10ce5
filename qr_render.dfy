/** The last steps of js/qr.js: data mask pattern 000, the format
    information of section 7.9 of ISO/IEC 18004:2015 for error-correction
    level L, and `renderQR`, which chooses the version, encodes, computes
    the error-correction codewords, builds and finishes the matrix. The
    canvas drawing is not part of this model: `renderQR` here returns the
    finished matrix instead of painting it. */
module QrRender {
  import opened Common
  import opened Bits
  import opened QrSpecs
  import opened GaloisField
  import opened ReedSolomon
  import opened QrEncode
  import opened QrMatrix

  /* ---------------------------------------------------------------- */
  /* Format information                                                */
  /* ---------------------------------------------------------------- */

  /** Carry-less multiplication by the lowest k bits of q: the product of
      two polynomials over GF(2) whose coefficients are the bits of q and
      g. */
  function ClMul(q: bv32, g: bv32, k: nat): bv32
    requires k <= 16
  {
    if k == 0 then 0
    else ClMul(q, g, k - 1) ^ (if (q >> ((k - 1) as bv6)) & 1 == 1 then g << ((k - 1) as bv6) else 0)
  }

  /** The generator of the (15, 5) BCH code of the format information:
      x^10 + x^8 + x^5 + x^4 + x^2 + x + 1. */
  const FormatGenerator: bv32 := 0x537

  /** The pattern XORed onto the format information. */
  const FormatMask: bv32 := 0x5412

  /** A 15-bit format word carries the 5-bit format f: unmasked, its top
      five bits are f and the whole is the generator times a polynomial of
      degree below five, that is, a codeword of the BCH code. */
  predicate FormatWord(word: nat, format: bv32, quotient: bv32) {
    word < 0x8000 &&
    var raw := (word as bv32) ^ FormatMask;
    raw >> 10 == format && quotient < 32 && raw == ClMul(quotient, FormatGenerator, 5)
  }

  /** `formatBitsForMask0`: the BCH reduction of format 01000 (level L,
      mask 0) by long division, the remainder appended to the format, then
      the mask. */
  method FormatBitsForMask0() returns (bits: nat)
    ensures bits == 0x77C4
    ensures FormatWord(bits, 8, 10)
  {
    var format: bv32 := (1 << 3) | 0;
    var data: bv32 := format << 10;
    var i: bv32 := 14;
    while i >= 10
      invariant 9 <= i <= 14
      invariant data == (if i >= 13 then 0x2000 else if i >= 11 then 0x09B8 else 0x03D6)
      decreases i
    {
      if (data >> i) & 1 == 1 {
        data := data ^ (0x537 << (i - 10));
      }
      i := i - 1;
    }
    var word := ((format << 10) | data) ^ 0x5412;
    assert word == 0x77C4;
    bits := word as nat;
    FormatWordOfMask0();
  }

  /** 0x77C4 is the masked codeword 01000 1111010110 of format 01000:
      the generator times x^3 + x. */
  lemma FormatWordOfMask0()
    ensures FormatWord(0x77C4, 8, 10)
  {
    assert ClMul(10, FormatGenerator, 5) == 0x23D6;
  }

  /* ---------------------------------------------------------------- */
  /* Mask and format placement                                         */
  /* ---------------------------------------------------------------- */

  /** `maskFunction`: data mask pattern 000, (r + c) mod 2 = 0. */
  predicate MaskFunction(r: int, c: int)
    ensures MaskFunction(r, c) <==> r % 2 == c % 2
  {
    (r + c) % 2 == 0
  }

  /** The cell of column 8 that `applyMaskAndFormat` gives format bit i. */
  function ColumnCopy(mc: int, i: int): (int, int) {
    if i < 6 then (i, 8) else if i < 8 then (i + 1, 8) else (mc - 15 + i, 8)
  }

  /** The cell of row 8 that `applyMaskAndFormat` gives format bit i. */
  function RowCopy(mc: int, i: int): (int, int) {
    if i < 8 then (8, mc - 1 - i) else if i < 9 then (8, 15 - i - 1 + 1) else (8, 15 - i - 1)
  }

  /** Which format bit a cell carries, if any: bits 0 to 7 run up column 8
      from the top and continue at its bottom, bits 0 to 7 run leftward
      along row 8 from its right end, the remaining ones continue left of
      the top-left finder. */
  function FormatIndex(mc: int, r: int, c: int): (i: Option<nat>)
    ensures i.Some? ==> i.value < 15
  {
    if c == 8 && 0 <= r <= 5 then Some(r)
    else if c == 8 && r == 7 then Some(6)
    else if c == 8 && r == 8 then Some(7)
    else if c == 8 && mc - 7 <= r < mc && 8 <= r - mc + 15 then Some(r - mc + 15)
    else if r == 8 && mc - 8 <= c < mc && mc - 1 - c < 8 then Some(mc - 1 - c)
    else if r == 8 && c == 7 then Some(8)
    else if r == 8 && 0 <= c <= 5 then Some(14 - c)
    else None
  }

  /** The dark module beside the bottom-left finder. */
  predicate DarkModule(mc: int, r: int, c: int) {
    r == mc - 8 && c == 8
  }

  /** The value mask pattern 000 leaves in a cell: unreserved cells with
      (r + c) even are flipped. */
  predicate Masked(reserved: bool, v: bool, r: int, c: int) {
    if !reserved && MaskFunction(r, c) then !v else v
  }

  /** The value of a cell after `applyMaskAndFormat`: the dark module, a
      format bit, or the masked value of the cell before. */
  predicate Finished(mc: int, formatBits: nat, reserved: bool, v: bool, r: int, c: int) {
    if DarkModule(mc, r, c) then true
    else if FormatIndex(mc, r, c).Some? then Bit(formatBits, FormatIndex(mc, r, c).value) == 1
    else Masked(reserved, v, r, c)
  }

  /** The first loop of `applyMaskAndFormat`: pattern 000 over every
      unreserved cell, row by row. */
  method ApplyMask(modules: array2<bool>, reserve: array2<bool>, mc: int)
    requires modules != reserve && Square(modules, mc) && Square(reserve, mc)
    modifies modules
    ensures forall r, c :: 0 <= r < mc && 0 <= c < mc ==>
      modules[r, c] == Masked(reserve[r, c], old(modules[r, c]), r, c)
  {
    for r := 0 to mc
      invariant forall y, x :: 0 <= y < mc && 0 <= x < mc ==>
        modules[y, x] == if y < r then Masked(reserve[y, x], old(modules[y, x]), y, x) else old(modules[y, x])
    {
      for c := 0 to mc
        invariant forall y, x :: 0 <= y < mc && 0 <= x < mc ==>
          modules[y, x] == if y < r || (y == r && x < c) then Masked(reserve[y, x], old(modules[y, x]), y, x)
                           else old(modules[y, x])
      {
        if reserve[r, c] {
          continue;
        }
        if MaskFunction(r, c) {
          modules[r, c] := !modules[r, c];
        }
      }
    }
  }

  /** Each format bit has its two copies, and a cell carries a format bit
      only as one of them. */
  lemma FormatCopies(mc: int, i: nat, r: int, c: int)
    requires 21 <= mc && i < 15
    ensures FormatIndex(mc, ColumnCopy(mc, i).0, ColumnCopy(mc, i).1) == Some(i)
    ensures FormatIndex(mc, RowCopy(mc, i).0, RowCopy(mc, i).1) == Some(i)
    ensures ColumnCopy(mc, i) != RowCopy(mc, i)
    ensures FormatIndex(mc, r, c) == Some(i) ==> (r, c) == ColumnCopy(mc, i) || (r, c) == RowCopy(mc, i)
  {
  }

  /** One pass of the format loop: bit i into its column-8 cell and its
      row-8 cell. */
  method WriteFormatBit(modules: array2<bool>, mc: int, formatBits: nat, i: nat)
    requires 21 <= mc && Square(modules, mc) && i < 15
    modifies modules
    ensures forall r, c :: 0 <= r < mc && 0 <= c < mc ==>
      modules[r, c] == if (r, c) == ColumnCopy(mc, i) || (r, c) == RowCopy(mc, i) then Bit(formatBits, i) == 1
                       else old(modules[r, c])
  {
    var bit := Bit(formatBits, i) == 1;
    if i < 6 {
      modules[i, 8] := bit;
    } else if i < 8 {
      modules[i + 1, 8] := bit;
    } else {
      modules[mc - 15 + i, 8] := bit;
    }
    if i < 8 {
      modules[8, mc - 1 - i] := bit;
    } else if i < 9 {
      modules[8, 15 - i - 1 + 1] := bit;
    } else {
      modules[8, 15 - i - 1] := bit;
    }
  }

  /** The format loop and the dark module of `applyMaskAndFormat`. */
  method PlaceFormat(modules: array2<bool>, mc: int, formatBits: nat)
    requires 21 <= mc && Square(modules, mc)
    modifies modules
    ensures forall r, c :: 0 <= r < mc && 0 <= c < mc ==>
      modules[r, c] == if DarkModule(mc, r, c) then true
                       else if FormatIndex(mc, r, c).Some? then Bit(formatBits, FormatIndex(mc, r, c).value) == 1
                       else old(modules[r, c])
  {
    for i := 0 to 15
      invariant forall r, c :: 0 <= r < mc && 0 <= c < mc ==>
        modules[r, c] == if FormatIndex(mc, r, c).Some? && FormatIndex(mc, r, c).value < i
                         then Bit(formatBits, FormatIndex(mc, r, c).value) == 1
                         else old(modules[r, c])
    {
      WriteFormatBit(modules, mc, formatBits, i);
      forall r, c | 0 <= r < mc && 0 <= c < mc
        ensures modules[r, c] == if FormatIndex(mc, r, c).Some? && FormatIndex(mc, r, c).value < i + 1
                                 then Bit(formatBits, FormatIndex(mc, r, c).value) == 1
                                 else old(modules[r, c])
      {
        FormatCopies(mc, i, r, c);
      }
    }
    modules[mc - 8, 8] := true;
  }

  /** `applyMaskAndFormat`: every cell ends as `Finished` says. */
  method ApplyMaskAndFormat(modules: array2<bool>, reserve: array2<bool>, version: int, formatBits: nat)
    requires Supported(version) && modules != reserve
    requires Square(modules, Size(version)) && Square(reserve, Size(version))
    modifies modules
    ensures forall r, c :: 0 <= r < Size(version) && 0 <= c < Size(version) ==>
      modules[r, c] == Finished(Size(version), formatBits, reserve[r, c], old(modules[r, c]), r, c)
  {
    var mc := SpecOf(version).value.moduleCount;
    ApplyMask(modules, reserve, mc);
    PlaceFormat(modules, mc, formatBits);
  }

  /* ---------------------------------------------------------------- */
  /* The finished symbol                                               */
  /* ---------------------------------------------------------------- */

  /** The format word `renderQR` writes: level L, mask 0. */
  const Mask0Format: nat := 0x77C4

  /** A module of the finished symbol: the matrix of `buildMatrix` after
      `applyMaskAndFormat`. */
  predicate SymbolModule(version: int, codewords: seq<Byte>, r: int, c: int)
    requires Supported(version) && 0 <= r < Size(version) && 0 <= c < Size(version)
  {
    Finished(Size(version), Mask0Format, Reserved(version, r, c), MatrixValue(version, codewords, r, c), r, c)
  }

  /** The format cells and the dark module are all reserved, so writing
      them destroys no data bit. */
  lemma FormatCellsReserved(version: int, r: int, c: int)
    requires Supported(version) && 0 <= r < Size(version) && 0 <= c < Size(version)
    requires FormatIndex(Size(version), r, c).Some? || DarkModule(Size(version), r, c)
    ensures Reserved(version, r, c)
  {
  }

  /** A reader that applies mask 000 to a data cell of the symbol gets back
      the bit placed there. */
  lemma SymbolUnmask(version: int, codewords: seq<Byte>, r: int, c: int)
    requires Supported(version) && 0 <= r < Size(version) && 0 <= c < Size(version)
    requires !Reserved(version, r, c)
    ensures Masked(false, SymbolModule(version, codewords, r, c), r, c) == DataValue(version, codewords, r, c)
    ensures SymbolModule(version, codewords, r, c) == (DataValue(version, codewords, r, c) != MaskFunction(r, c))
  {
    FormatCellsReservedContra(version, r, c);
  }

  lemma FormatCellsReservedContra(version: int, r: int, c: int)
    requires Supported(version) && 0 <= r < Size(version) && 0 <= c < Size(version)
    requires !Reserved(version, r, c)
    ensures FormatIndex(Size(version), r, c).None? && !DarkModule(Size(version), r, c)
  {
  }

  /** Masking and format writing leave the function patterns as drawn:
      every reserved cell other than the format cells and the dark module. */
  lemma SymbolFunctionPatterns(version: int, codewords: seq<Byte>, r: int, c: int)
    requires Supported(version) && 0 <= r < Size(version) && 0 <= c < Size(version)
    requires Reserved(version, r, c) && FormatIndex(Size(version), r, c).None? && !DarkModule(Size(version), r, c)
    ensures SymbolModule(version, codewords, r, c) == FunctionValue(version, r, c)
  {
  }

  /** The three finder patterns survive masking and format writing. */
  lemma SymbolFinders(version: int, codewords: seq<Byte>, r: int, c: int)
    requires Supported(version) && 0 <= r < Size(version) && 0 <= c < Size(version)
    ensures InFinderWindow(0, 0, r, c) ==> SymbolModule(version, codewords, r, c) == FinderDark(r, c)
    ensures InFinderWindow(0, Size(version) - 7, r, c) ==>
      SymbolModule(version, codewords, r, c) == FinderDark(r, c - (Size(version) - 7))
    ensures InFinderWindow(Size(version) - 7, 0, r, c) ==>
      SymbolModule(version, codewords, r, c) == FinderDark(r - (Size(version) - 7), c)
  {
    FinderCorners(version, codewords, r, c);
  }

  /** Both copies of format bit i carry it, and the dark module is dark. */
  lemma SymbolFormat(version: int, codewords: seq<Byte>, i: nat)
    requires Supported(version) && i < 15
    ensures var (r, c) := ColumnCopy(Size(version), i);
      0 <= r < Size(version) && 0 <= c < Size(version) &&
      SymbolModule(version, codewords, r, c) == (Bit(Mask0Format, i) == 1)
    ensures var (r, c) := RowCopy(Size(version), i);
      0 <= r < Size(version) && 0 <= c < Size(version) &&
      SymbolModule(version, codewords, r, c) == (Bit(Mask0Format, i) == 1)
    ensures SymbolModule(version, codewords, Size(version) - 8, 8)
  {
    FormatCopies(Size(version), i, 0, 0);
  }

  /* ---------------------------------------------------------------- */
  /* renderQR                                                          */
  /* ---------------------------------------------------------------- */

  /** The data codewords and their error-correction codewords. */
  function SymbolCodewords(text: seq<Byte>, version: int): seq<Byte>
    requires EncodeChecked(text, version).Encoded?
  {
    var data := EncodeChecked(text, version).data;
    data + Remainder(data, GenPoly(SpecOf(version).value.ecCodewords))
  }

  /** `buildMatrix` followed by `applyMaskAndFormat` with the mask-0
      format word. */
  method FinishSymbol(codewords: seq<Byte>, version: int) returns (matrix: array2<bool>)
    requires Supported(version)
    ensures fresh(matrix) && Square(matrix, Size(version))
    ensures forall r, c :: 0 <= r < Size(version) && 0 <= c < Size(version) ==>
      matrix[r, c] == SymbolModule(version, codewords, r, c)
  {
    var reserve;
    matrix, reserve := BuildMatrix(codewords, version);
    var formatBits := FormatBitsForMask0();
    ApplyMaskAndFormat(matrix, reserve, version, formatBits);
  }

  /** `renderQR` with the corrected version choice and capacity check, on
      the UTF-8 bytes of the text: false when the canvas or the text is
      missing, or when the payload and its two codewords of overhead do not
      fit version 3 (more than 53 bytes); otherwise the finished symbol of
      the smallest version that holds the payload. */
  method RenderQR(gfExp: array<bv8>, gfLog: array<int>, cache: GeneratorCache, canvasPresent: bool, text: seq<Byte>)
    returns (ok: bool, modules: array2?<bool>)
    requires cache.Valid() && Filled(gfExp, gfLog)
    modifies cache
    ensures cache.Valid()
    ensures ok <==> canvasPresent && 1 <= |text| <= 53
    ensures !ok ==> modules == null
    ensures ok ==> EncodeChecked(text, ChooseVersion(|text|)).Encoded?
    ensures ok ==> modules != null && fresh(modules) && Square(modules, Size(ChooseVersion(|text|)))
    ensures ok ==> forall r, c :: 0 <= r < Size(ChooseVersion(|text|)) && 0 <= c < Size(ChooseVersion(|text|)) ==>
      modules[r, c] == SymbolModule(ChooseVersion(|text|), SymbolCodewords(text, ChooseVersion(|text|)), r, c)
  {
    if !canvasPresent || |text| == 0 {
      return false, null;
    }
    var version := ChooseVersion(|text|);
    ChooseVersionFits(text);
    var encoded := EncodeDataChecked(text, version);
    if encoded.Failed? {
      return false, null;
    }
    var data := encoded.data;
    var ec := ComputeEC(gfExp, gfLog, cache, data, version);
    var codewords := data + ec;
    var matrix := FinishSymbol(codewords, version);
    return true, matrix;
  }

  /** The data codewords `encodeData` returns as written, followed by their
      error-correction codewords. */
  function AsWrittenCodewords(text: seq<Byte>, version: int): seq<Byte>
    requires EncodeSpec(text, version).Encoded?
  {
    var data := EncodeSpec(text, version).data;
    data + Remainder(data, GenPoly(SpecOf(version).value.ecCodewords))
  }

  /** `renderQR` as written: the version is the first whose data codewords
      hold the bytes, without the two codewords of overhead, and `encodeData`
      throws only above that capacity. It succeeds for every payload of 1 to
      55 bytes and draws the as-written codewords; for 54 and 55 bytes these
      are one or two data codewords more than version 3 holds. */
  method RenderQRAsWritten(gfExp: array<bv8>, gfLog: array<int>, cache: GeneratorCache, canvasPresent: bool, text: seq<Byte>)
    returns (ok: bool, modules: array2?<bool>)
    requires cache.Valid() && Filled(gfExp, gfLog)
    modifies cache
    ensures cache.Valid()
    ensures ok <==> canvasPresent && 1 <= |text| <= 55
    ensures !ok ==> modules == null
    ensures ok ==> EncodeSpec(text, ChooseVersionAsWritten(|text|)).Encoded?
    ensures ok ==> modules != null && fresh(modules) && Square(modules, Size(ChooseVersionAsWritten(|text|)))
    ensures ok ==> forall r, c :: 0 <= r < Size(ChooseVersionAsWritten(|text|)) && 0 <= c < Size(ChooseVersionAsWritten(|text|)) ==>
      modules[r, c] == SymbolModule(ChooseVersionAsWritten(|text|), AsWrittenCodewords(text, ChooseVersionAsWritten(|text|)), r, c)
  {
    if !canvasPresent || |text| == 0 {
      return false, null;
    }
    var version := ChooseVersionAsWritten(|text|);
    ChooseVersionAsWrittenEncodes(text);
    var encoded := EncodeData(text, version);
    if encoded.Failed? {
      return false, null;
    }
    var data := encoded.data;
    var ec := ComputeEC(gfExp, gfLog, cache, data, version);
    var codewords := data + ec;
    var matrix := FinishSymbol(codewords, version);
    return true, matrix;
  }

  /** What the as-written `renderQR` draws differs from what fits: for 54 and
      55 bytes it succeeds with more data codewords than version 3 holds,
      where the corrected one fails. */
  lemma RenderAsWrittenOverfills(text: seq<Byte>)
    requires 54 <= |text| <= 55
    ensures ChooseVersionAsWritten(|text|) == 3
    ensures EncodeSpec(text, 3).Encoded? && |EncodeSpec(text, 3).data| > SpecOf(3).value.dataCodewords
    ensures EncodeChecked(text, ChooseVersion(|text|)).Failed?
  {
    EncodeOverflow(text, 3);
    ChooseVersionFits(text);
  }
}
