/** The module matrix js/qr.js builds for a symbol: the function patterns of
    section 6.3 of ISO/IEC 18004:2015 (finder patterns with their
    separators, timing patterns, the alignment pattern, the format area),
    the upward and downward two-column placement of the codeword bits of
    section 7.7.3, data mask pattern 000 and the format information of
    section 7.9. A JavaScript cell that is never written stays `null`,
    which the model represents by a light (`false`) module. */
module QrMatrix {
  import opened Common
  import opened Bits
  import opened QrSpecs

  /* ---------------------------------------------------------------- */
  /* Geometry                                                          */
  /* ---------------------------------------------------------------- */

  /** The side of the symbol of a supported version. */
  function Size(version: int): (n: int)
    requires Supported(version)
    ensures n == 17 + 4 * version && n % 2 == 1 && 21 <= n <= 29
  {
    SpecOf(version).value.moduleCount
  }

  /** The centre row and column of the one alignment pattern a version
      draws: the last entry of its position list, whose other pairings all
      fall on finder corners. */
  function AlignCentre(version: int): (r: Option<int>)
    requires Supported(version)
    ensures r.None? <==> version == 1
    ensures r.Some? ==> r.value == 4 * version + 10
  {
    var align := SpecOf(version).value.align;
    if |align| == 0 then None else Some(align[|align| - 1])
  }

  predicate Square(m: array2<bool>, n: int) {
    m.Length0 == n && m.Length1 == n
  }

  function Abs(x: int): nat {
    if x < 0 then -x else x
  }

  /** The 9x9 window `placeFinder(r0, c0)` visits: the 7x7 finder pattern
      and the one-module separator around it. */
  predicate InFinderWindow(r0: int, c0: int, r: int, c: int) {
    r0 - 1 <= r <= r0 + 7 && c0 - 1 <= c <= c0 + 7
  }

  /** `inPattern` at offset (y, x) of the finder window: the outer ring,
      the 3x3 core; the ring between them and the separator are light. */
  predicate FinderDark(y: int, x: int) {
    (0 <= y <= 6 && (x == 0 || x == 6)) ||
    (0 <= x <= 6 && (y == 0 || y == 6)) ||
    (2 <= y <= 4 && 2 <= x <= 4)
  }

  /** The 5x5 window `placeAlign(r0, c0)` visits. */
  predicate InAlignWindow(r0: int, c0: int, r: int, c: int) {
    r0 - 2 <= r <= r0 + 2 && c0 - 2 <= c <= c0 + 2
  }

  /** `isBlack` at offset (y, x) of the alignment window. */
  predicate AlignDark(y: int, x: int) {
    Max(Abs(x), Abs(y)) != 1
  }

  /** The three finder windows, at the top-left, top-right and bottom-left
      corners. */
  predicate InFinder(mc: int, r: int, c: int) {
    InFinderWindow(0, 0, r, c) || InFinderWindow(0, mc - 7, r, c) || InFinderWindow(mc - 7, 0, r, c)
  }

  predicate InAlign(version: int, r: int, c: int)
    requires Supported(version)
  {
    var a := AlignCentre(version);
    a.Some? && InAlignWindow(a.value, a.value, r, c)
  }

  /** The cells of `formatPositions`: column 8 and row 8 next to the
      top-left finder (without the timing cell), and the eight cells of
      row 8 and of column 8 next to the other two finders. */
  predicate FormatArea(mc: int, r: int, c: int) {
    (c == 8 && ((0 <= r <= 8 && r != 6) || mc - 8 <= r < mc)) ||
    (r == 8 && ((0 <= c <= 8 && c != 6) || mc - 8 <= c < mc))
  }

  /** The cells `reserve` marks before data placement. */
  predicate Reserved(version: int, r: int, c: int)
    requires Supported(version)
  {
    var mc := Size(version);
    InFinder(mc, r, c) || r == 6 || c == 6 || InAlign(version, r, c) || FormatArea(mc, r, c)
  }

  /** The value of a reserved cell after the function patterns are drawn,
      the pattern drawn last winning: alignment over finders, finders over
      timing; the format area is still unwritten. */
  function FunctionValue(version: int, r: int, c: int): bool
    requires Supported(version)
  {
    var mc := Size(version);
    var a := AlignCentre(version);
    if a.Some? && InAlignWindow(a.value, a.value, r, c) then AlignDark(r - a.value, c - a.value)
    else if InFinderWindow(mc - 7, 0, r, c) then FinderDark(r - (mc - 7), c)
    else if InFinderWindow(0, mc - 7, r, c) then FinderDark(r, c - (mc - 7))
    else if InFinderWindow(0, 0, r, c) then FinderDark(r, c)
    else if r == 6 then c % 2 == 0
    else if c == 6 then r % 2 == 0
    else false
  }

  /** The codeword bit with index b, most significant bit of each codeword
      first, as `nextBit` reads it. */
  predicate DataBit(codewords: seq<Byte>, b: nat)
    requires b < 8 * |codewords|
  {
    Bit(codewords[b / 8], 7 - b % 8) == 1
  }

  /* ---------------------------------------------------------------- */
  /* Placement order                                                   */
  /* ---------------------------------------------------------------- */

  /** A point of the placement walk: the column pair (counted from the
      right), the step along it (counted in the direction of travel) and
      the column within the pair (0 the right one, 1 the left one). */
  datatype Step = Step(pair: nat, step: nat, offset: nat)

  /** The number of column pairs: the columns right to left, column 6
      skipped. */
  function Pairs(mc: int): int {
    (mc - 1) / 2
  }

  /** The right column of pair k: `col` after the timing column check. */
  function PairCol(mc: int, k: int): int {
    if mc - 1 - 2 * k > 6 then mc - 1 - 2 * k else mc - 2 - 2 * k
  }

  /** `col` at the head of the outer loop, before the timing column check. */
  function ColAtTop(mc: int, k: int): int {
    if mc - 1 - 2 * k >= 6 then mc - 1 - 2 * k else mc - 2 - 2 * k
  }

  /** The row of step s of pair k: even pairs go upward from the bottom
      row, odd pairs downward from the top row. */
  function StepRow(mc: int, k: int, s: int): int {
    if k % 2 == 0 then mc - 1 - s else s
  }

  function RowOf(mc: int, p: Step): (r: int)
    ensures p.step < mc ==> 0 <= r < mc
  {
    StepRow(mc, p.pair, p.step)
  }

  /** The column of a point: on the symbol and never the timing column. */
  function ColOf(mc: int, p: Step): (c: int)
    ensures mc % 2 == 1 && 21 <= mc && p.pair < Pairs(mc) && p.offset < 2 ==> 0 <= c < mc && c != 6
  {
    PairCol(mc, p.pair) - p.offset
  }

  /** Where the walk visits cell (r, c) of a symbol of odd side mc: the
      inverse of (RowOf, ColOf) off the timing column. */
  function Pos(mc: int, r: int, c: int): (p: Step)
    requires mc % 2 == 1 && mc >= 9 && 0 <= r < mc && 0 <= c < mc
    ensures c != 6 ==> p.pair < Pairs(mc) && p.step < mc && p.offset < 2
    ensures c != 6 ==> RowOf(mc, p) == r && ColOf(mc, p) == c
  {
    var d := if c > 6 then mc - 1 - c else mc - 2 - c;
    var k := d / 2;
    Step(k, if k % 2 == 0 then mc - 1 - r else r, d % 2)
  }

  /** Lexicographic order of the walk. */
  predicate Before(p: Step, q: Step) {
    p.pair < q.pair ||
    (p.pair == q.pair && (p.step < q.step || (p.step == q.step && p.offset < q.offset)))
  }

  /** A reservation map as a value: row by row, true where reserved. */
  type Grid = seq<seq<bool>>

  /** The reservation map of a version. */
  function ReservedGrid(version: int): (g: Grid)
    requires Supported(version)
    ensures |g| == Size(version) && forall r :: 0 <= r < |g| ==> |g[r]| == |g|
  {
    var mc := Size(version);
    seq(mc, r => seq(mc, c => Reserved(version, r, c)))
  }

  /** A reservation map the walk can run on: odd side of at least 21,
      square, with the timing column reserved. */
  ghost predicate WalkGrid(g: Grid) {
    |g| % 2 == 1 && 21 <= |g| &&
    forall r :: 0 <= r < |g| ==> |g[r]| == |g| && g[r][6]
  }

  /** The reservation array holds the map g. */
  ghost predicate Matches(reserve: array2<bool>, g: Grid)
    reads reserve
  {
    WalkGrid(g) && Square(reserve, |g|) &&
    forall r, c :: 0 <= r < |g| && 0 <= c < |g| ==> reserve[r, c] == g[r][c]
  }

  /** 1 when the cell at point p takes a data bit, 0 when it is reserved
      (or off the symbol). */
  function Slot(g: Grid, p: Step): nat {
    var r, c := RowOf(|g|, p), ColOf(|g|, p);
    if 0 <= r < |g| && 0 <= c < |g[r]| && !g[r][c] then 1 else 0
  }

  /** The slots of the walk over reservation map g. */
  function SlotFn(g: Grid): Step -> nat {
    p => Slot(g, p)
  }

  /** Slots among the first s steps of pair k. */
  function RankSteps(slot: Step -> nat, k: nat, s: nat): nat {
    if s == 0 then 0 else RankSteps(slot, k, s - 1) + slot(Step(k, s - 1, 0)) + slot(Step(k, s - 1, 1))
  }

  /** Slots among the first k pairs of n steps each. */
  function RankPairs(slot: Step -> nat, n: nat, k: nat): nat {
    if k == 0 then 0 else RankPairs(slot, n, k - 1) + RankSteps(slot, k - 1, n)
  }

  /** Slots the walk visits before point p. */
  function RankOf(slot: Step -> nat, n: nat, p: Step): nat {
    RankPairs(slot, n, p.pair) + RankSteps(slot, p.pair, p.step) +
    (if p.offset >= 1 then slot(Step(p.pair, p.step, 0)) else 0) +
    (if p.offset >= 2 then slot(Step(p.pair, p.step, 1)) else 0)
  }

  /** The number of data cells the walk visits before point p: the index
      of the bit a data cell at p receives. */
  function Rank(g: Grid, p: Step): nat {
    RankOf(SlotFn(g), |g|, p)
  }

  /** The counter of bits used before each point of the walk. */
  function RankFn(g: Grid): Step -> nat {
    p => Rank(g, p)
  }

  /** The bit a data cell at point p receives under bit counter rank: the
      codeword bit the counter names, or light once the codewords have run
      out. */
  predicate BitValue(rank: Step -> nat, codewords: seq<Byte>, p: Step) {
    var b := rank(p);
    b < 8 * |codewords| && DataBit(codewords, b)
  }

  /** The value a data cell receives under reservation map g. */
  predicate DataValueIn(g: Grid, codewords: seq<Byte>, r: int, c: int)
    requires |g| % 2 == 1 && |g| >= 9 && 0 <= r < |g| && 0 <= c < |g|
  {
    BitValue(RankFn(g), codewords, Pos(|g|, r, c))
  }

  /** The value a data cell of the version's symbol receives. */
  predicate DataValue(version: int, codewords: seq<Byte>, r: int, c: int)
    requires Supported(version) && 0 <= r < Size(version) && 0 <= c < Size(version)
  {
    DataValueIn(ReservedGrid(version), codewords, r, c)
  }

  /** The value of every cell `buildMatrix` returns. */
  predicate MatrixValue(version: int, codewords: seq<Byte>, r: int, c: int)
    requires Supported(version) && 0 <= r < Size(version) && 0 <= c < Size(version)
  {
    if Reserved(version, r, c) then FunctionValue(version, r, c) else DataValue(version, codewords, r, c)
  }

  /* ---------------------------------------------------------------- */
  /* Function patterns                                                 */
  /* ---------------------------------------------------------------- */

  /** Cells of the window at (r0, c0) with offsets in lo..hi that a
      row-by-row scan has passed before offset (y, x). */
  predicate Visited(r0: int, c0: int, lo: int, hi: int, y: int, x: int, r: int, c: int) {
    lo <= r - r0 <= hi && lo <= c - c0 <= hi && (r - r0 < y || (r - r0 == y && c - c0 < x))
  }

  /** `placeFinder(r0, c0)`: the window is drawn and reserved, clipped to
      the symbol; nothing else changes. */
  method PlaceFinder(modules: array2<bool>, reserve: array2<bool>, r0: int, c0: int)
    requires modules != reserve
    requires Square(modules, modules.Length0) && Square(reserve, modules.Length0)
    modifies modules, reserve
    ensures forall r, c :: 0 <= r < modules.Length0 && 0 <= c < modules.Length0 ==>
      modules[r, c] == (if InFinderWindow(r0, c0, r, c) then FinderDark(r - r0, c - c0) else old(modules[r, c]))
    ensures forall r, c :: 0 <= r < modules.Length0 && 0 <= c < modules.Length0 ==>
      reserve[r, c] == (InFinderWindow(r0, c0, r, c) || old(reserve[r, c]))
  {
    var n := modules.Length0;
    for y := -1 to 8
      invariant forall r, c :: 0 <= r < n && 0 <= c < n ==>
        modules[r, c] == (if Visited(r0, c0, -1, 7, y, -1, r, c) then FinderDark(r - r0, c - c0) else old(modules[r, c]))
      invariant forall r, c :: 0 <= r < n && 0 <= c < n ==>
        reserve[r, c] == (Visited(r0, c0, -1, 7, y, -1, r, c) || old(reserve[r, c]))
    {
      for x := -1 to 8
        invariant forall r, c :: 0 <= r < n && 0 <= c < n ==>
          modules[r, c] == (if Visited(r0, c0, -1, 7, y, x, r, c) then FinderDark(r - r0, c - c0) else old(modules[r, c]))
        invariant forall r, c :: 0 <= r < n && 0 <= c < n ==>
          reserve[r, c] == (Visited(r0, c0, -1, 7, y, x, r, c) || old(reserve[r, c]))
      {
        var yy, xx := r0 + y, c0 + x;
        if 0 <= yy < n && 0 <= xx < n {
          var inPattern := (y >= 0 && y <= 6 && (x == 0 || x == 6)) ||
                           (x >= 0 && x <= 6 && (y == 0 || y == 6)) ||
                           (y >= 2 && y <= 4 && x >= 2 && x <= 4);
          modules[yy, xx] := inPattern;
          reserve[yy, xx] := true;
        }
      }
    }
  }

  /** `placeAlign(r0, c0)`: the 5x5 window is drawn and reserved. */
  method PlaceAlign(modules: array2<bool>, reserve: array2<bool>, r0: int, c0: int)
    requires modules != reserve
    requires Square(modules, modules.Length0) && Square(reserve, modules.Length0)
    modifies modules, reserve
    ensures forall r, c :: 0 <= r < modules.Length0 && 0 <= c < modules.Length0 ==>
      modules[r, c] == (if InAlignWindow(r0, c0, r, c) then AlignDark(r - r0, c - c0) else old(modules[r, c]))
    ensures forall r, c :: 0 <= r < modules.Length0 && 0 <= c < modules.Length0 ==>
      reserve[r, c] == (InAlignWindow(r0, c0, r, c) || old(reserve[r, c]))
  {
    var n := modules.Length0;
    for y := -2 to 3
      invariant forall r, c :: 0 <= r < n && 0 <= c < n ==>
        modules[r, c] == (if Visited(r0, c0, -2, 2, y, -2, r, c) then AlignDark(r - r0, c - c0) else old(modules[r, c]))
      invariant forall r, c :: 0 <= r < n && 0 <= c < n ==>
        reserve[r, c] == (Visited(r0, c0, -2, 2, y, -2, r, c) || old(reserve[r, c]))
    {
      for x := -2 to 3
        invariant forall r, c :: 0 <= r < n && 0 <= c < n ==>
          modules[r, c] == (if Visited(r0, c0, -2, 2, y, x, r, c) then AlignDark(r - r0, c - c0) else old(modules[r, c]))
        invariant forall r, c :: 0 <= r < n && 0 <= c < n ==>
          reserve[r, c] == (Visited(r0, c0, -2, 2, y, x, r, c) || old(reserve[r, c]))
      {
        var yy, xx := r0 + y, c0 + x;
        if 0 <= yy < n && 0 <= xx < n {
          var dist := Max(Abs(x), Abs(y));
          modules[yy, xx] := dist != 1;
          reserve[yy, xx] := true;
        }
      }
    }
  }

  /** The timing loop: row 6 and column 6 alternate dark and light from a
      dark cell 0, on the cells not already reserved, and become reserved. */
  method PlaceTiming(modules: array2<bool>, reserve: array2<bool>)
    requires modules != reserve
    requires Square(modules, modules.Length0) && Square(reserve, modules.Length0) && modules.Length0 > 6
    modifies modules, reserve
    ensures forall r, c :: 0 <= r < modules.Length0 && 0 <= c < modules.Length0 ==>
      modules[r, c] == (if old(reserve[r, c]) then old(modules[r, c])
                        else if r == 6 then c % 2 == 0
                        else if c == 6 then r % 2 == 0
                        else old(modules[r, c]))
    ensures forall r, c :: 0 <= r < modules.Length0 && 0 <= c < modules.Length0 ==>
      reserve[r, c] == (old(reserve[r, c]) || r == 6 || c == 6)
  {
    var n := modules.Length0;
    for i := 0 to n
      invariant forall r, c :: 0 <= r < n && 0 <= c < n ==>
        modules[r, c] == (if old(reserve[r, c]) then old(modules[r, c])
                          else if r == 6 && c < i then c % 2 == 0
                          else if c == 6 && r < i then r % 2 == 0
                          else old(modules[r, c]))
      invariant forall r, c :: 0 <= r < n && 0 <= c < n ==>
        reserve[r, c] == (old(reserve[r, c]) || (r == 6 && c < i) || (c == 6 && r < i))
    {
      if !reserve[6, i] {
        modules[6, i] := i % 2 == 0;
        reserve[6, i] := true;
      }
      if !reserve[i, 6] {
        modules[i, 6] := i % 2 == 0;
        reserve[i, 6] := true;
      }
    }
  }

  /** The alignment loop over every pairing of the version's positions,
      skipping the three that fall on finder corners. */
  method PlaceAlignments(modules: array2<bool>, reserve: array2<bool>, version: int)
    requires Supported(version) && modules != reserve
    requires Square(modules, Size(version)) && Square(reserve, Size(version))
    modifies modules, reserve
    ensures forall r, c :: 0 <= r < Size(version) && 0 <= c < Size(version) ==>
      modules[r, c] == (if InAlign(version, r, c) then FunctionValue(version, r, c) else old(modules[r, c]))
    ensures forall r, c :: 0 <= r < Size(version) && 0 <= c < Size(version) ==>
      reserve[r, c] == (InAlign(version, r, c) || old(reserve[r, c]))
  {
    var positions := SpecOf(version).value.align;
    if |positions| > 0 {
      var a := positions[1];
      for i := 0 to |positions|
        invariant forall r, c :: 0 <= r < Size(version) && 0 <= c < Size(version) ==>
          modules[r, c] == (if i == 2 && InAlignWindow(a, a, r, c) then AlignDark(r - a, c - a) else old(modules[r, c]))
        invariant forall r, c :: 0 <= r < Size(version) && 0 <= c < Size(version) ==>
          reserve[r, c] == ((i == 2 && InAlignWindow(a, a, r, c)) || old(reserve[r, c]))
      {
        for j := 0 to |positions|
          invariant forall r, c :: 0 <= r < Size(version) && 0 <= c < Size(version) ==>
            modules[r, c] == (if (i == 1 && j == 2) && InAlignWindow(a, a, r, c) then AlignDark(r - a, c - a) else old(modules[r, c]))
          invariant forall r, c :: 0 <= r < Size(version) && 0 <= c < Size(version) ==>
            reserve[r, c] == (((i == 1 && j == 2) && InAlignWindow(a, a, r, c)) || old(reserve[r, c]))
        {
          var isFinderCorner := (i == 0 && j == 0) ||
            (i == 0 && j == |positions| - 1) ||
            (i == |positions| - 1 && j == 0);
          if !isFinderCorner {
            PlaceAlign(modules, reserve, positions[i], positions[j]);
          }
        }
      }
    }
  }

  /** `formatPositions`: the cells of the format area, in the order the
      two loops push them. */
  method FormatPositions(mc: int) returns (positions: seq<(int, int)>)
    requires mc >= 17
    ensures forall p :: p in positions <==> (0 <= p.0 < mc && 0 <= p.1 < mc && FormatArea(mc, p.0, p.1))
  {
    positions := [];
    for i := 0 to 9
      invariant forall p :: p in positions <==>
        ((p.1 == 8 && 0 <= p.0 < i && p.0 != 6) || (p.0 == 8 && 0 <= p.1 < i && p.1 != 6))
    {
      if i != 6 {
        positions := positions + [(i, 8), (8, i)];
      }
    }
    for i := mc - 8 to mc
      invariant forall p :: p in positions <==>
        ((p.1 == 8 && 0 <= p.0 <= 8 && p.0 != 6) || (p.0 == 8 && 0 <= p.1 <= 8 && p.1 != 6) ||
         (p.1 == 8 && mc - 8 <= p.0 < i) || (p.0 == 8 && mc - 8 <= p.1 < i))
    {
      positions := positions + [(i, 8), (8, i)];
    }
  }

  /** The format area is reserved, together with the dark module, which
      lies in it; no module changes. */
  method ReserveFormat(reserve: array2<bool>, mc: int)
    requires mc >= 17 && Square(reserve, mc)
    modifies reserve
    ensures forall r, c :: 0 <= r < mc && 0 <= c < mc ==>
      reserve[r, c] == (old(reserve[r, c]) || FormatArea(mc, r, c))
  {
    var positions := FormatPositions(mc);
    for k := 0 to |positions|
      invariant forall r, c :: 0 <= r < mc && 0 <= c < mc ==>
        reserve[r, c] == (old(reserve[r, c]) || (r, c) in positions[..k])
    {
      var p := positions[k];
      assert positions[..k + 1] == positions[..k] + [p];
      reserve[p.0, p.1] := true;
    }
    assert positions[..|positions|] == positions;
    reserve[mc - 8, 8] := true;
  }

  /** Everything `buildMatrix` does before data placement, on fresh
      all-light, unreserved arrays: reserved are exactly the Reserved cells,
      which hold their function-pattern values; every other cell is light. */
  method PlaceFunctionPatterns(modules: array2<bool>, reserve: array2<bool>, version: int)
    requires Supported(version) && modules != reserve
    requires Square(modules, Size(version)) && Square(reserve, Size(version))
    requires forall r, c :: 0 <= r < Size(version) && 0 <= c < Size(version) ==> !modules[r, c] && !reserve[r, c]
    modifies modules, reserve
    ensures forall r, c :: 0 <= r < Size(version) && 0 <= c < Size(version) ==>
      reserve[r, c] == Reserved(version, r, c)
    ensures forall r, c :: 0 <= r < Size(version) && 0 <= c < Size(version) ==>
      modules[r, c] == (Reserved(version, r, c) && FunctionValue(version, r, c))
  {
    var mc := Size(version);
    PlaceFinder(modules, reserve, 0, 0);
    PlaceFinder(modules, reserve, 0, mc - 7);
    PlaceFinder(modules, reserve, mc - 7, 0);
    PlaceTiming(modules, reserve);
    PlaceAlignments(modules, reserve, version);
    ReserveFormat(reserve, mc);
  }

  /* ---------------------------------------------------------------- */
  /* Data placement                                                    */
  /* ---------------------------------------------------------------- */

  /** The walk reaches every cell off the timing column, exactly once. */
  lemma PosOfCell(mc: int, p: Step)
    requires mc % 2 == 1 && 21 <= mc && p.pair < Pairs(mc) && p.step < mc && p.offset < 2
    ensures Pos(mc, RowOf(mc, p), ColOf(mc, p)) == p
  {
    var c := ColOf(mc, p);
    var d := if c > 6 then mc - 1 - c else mc - 2 - c;
    assert d == 2 * p.pair + p.offset;
  }

  /** The column arithmetic of the outer placement loop: it runs once per
      pair, the timing check moves column 6 to 5, and `col -= 2` reaches
      the head of the next pair. */
  lemma ColumnWalk(mc: int, k: nat)
    requires mc % 2 == 1 && 21 <= mc && k <= Pairs(mc)
    ensures ColAtTop(mc, k) > 0 <==> k < Pairs(mc)
    ensures k < Pairs(mc) ==> PairCol(mc, k) == (if ColAtTop(mc, k) == 6 then 5 else ColAtTop(mc, k))
    ensures k < Pairs(mc) ==> PairCol(mc, k) - 2 == ColAtTop(mc, k + 1)
  {
  }

  lemma ParityStep(k: int)
    ensures ((k + 1) % 2 == 0) == (k % 2 != 0)
  {
  }

  /** The laws the walk's bit counter keeps: no bit is used before the
      first point; moving past a cell uses one bit exactly when the cell is
      unreserved; the end of a step is the start of the next one, and the
      end of the last step of a pair the start of the next pair. */
  ghost predicate Counts(rank: Step -> nat, g: Grid) {
    rank(Step(0, 0, 0)) == 0 &&
    (forall k: nat, s: nat {:trigger rank(Step(k, s, 1))} ::
      rank(Step(k, s, 1)) == rank(Step(k, s, 0)) + Slot(g, Step(k, s, 0))) &&
    (forall k: nat, s: nat {:trigger rank(Step(k, s, 2))} ::
      rank(Step(k, s, 2)) == rank(Step(k, s, 1)) + Slot(g, Step(k, s, 1))) &&
    (forall k: nat, s: nat {:trigger rank(Step(k, s, 2))} ::
      rank(Step(k, s, 2)) == rank(Step(k, s + 1, 0))) &&
    (forall k: nat, s: nat {:trigger rank(Step(k, s, 2))} ::
      s + 1 == |g| ==> rank(Step(k, s, 2)) == rank(Step(k + 1, 0, 0)))
  }

  /** The counter laws for the slots of one step, over any slots. */
  lemma RankOfStep(slot: Step -> nat, n: nat, k: nat, s: nat)
    ensures RankOf(slot, n, Step(k, s, 1)) == RankOf(slot, n, Step(k, s, 0)) + slot(Step(k, s, 0))
    ensures RankOf(slot, n, Step(k, s, 2)) == RankOf(slot, n, Step(k, s, 1)) + slot(Step(k, s, 1))
    ensures RankOf(slot, n, Step(k, s, 2)) == RankOf(slot, n, Step(k, s + 1, 0))
    ensures s + 1 == n ==> RankOf(slot, n, Step(k, s, 2)) == RankOf(slot, n, Step(k + 1, 0, 0))
  {
    assert RankSteps(slot, k, s + 1) == RankSteps(slot, k, s) + slot(Step(k, s, 0)) + slot(Step(k, s, 1));
  }

  /** The rank keeps the counter laws. */
  lemma RankCounts(g: Grid)
    ensures Counts(RankFn(g), g)
  {
    var rank, slot, n := RankFn(g), SlotFn(g), |g|;
    forall k: nat, s: nat
      ensures rank(Step(k, s, 1)) == rank(Step(k, s, 0)) + Slot(g, Step(k, s, 0))
      ensures rank(Step(k, s, 2)) == rank(Step(k, s, 1)) + Slot(g, Step(k, s, 1))
      ensures rank(Step(k, s, 2)) == rank(Step(k, s + 1, 0))
      ensures s + 1 == n ==> rank(Step(k, s, 2)) == rank(Step(k + 1, 0, 0))
    {
      RankOfStep(slot, n, k, s);
    }
  }

  /** The data value of every cell, as a grid. */
  function DataGrid(g: Grid, codewords: seq<Byte>): (t: Grid)
    requires WalkGrid(g)
    ensures |t| == |g| && forall r :: 0 <= r < |t| ==> |t[r]| == |g|
  {
    seq(|g|, r requires 0 <= r < |g| => seq(|g|, c requires 0 <= c < |g| => DataValueIn(g, codewords, r, c)))
  }

  /** The grid t holds, at the cell of every point of the walk, the bit
      the counter gives that point. */
  ghost predicate Fits(g: Grid, t: Grid, codewords: seq<Byte>, rank: Step -> nat) {
    WalkGrid(g) && |t| == |g| && (forall r :: 0 <= r < |t| ==> |t[r]| == |g|) &&
    forall p: Step {:trigger BitValue(rank, codewords, p)} :: p.pair < Pairs(|g|) && p.step < |g| && p.offset < 2 ==>
      t[RowOf(|g|, p)][ColOf(|g|, p)] == BitValue(rank, codewords, p)
  }

  lemma DataGridFits(g: Grid, codewords: seq<Byte>)
    requires WalkGrid(g)
    ensures Fits(g, DataGrid(g, codewords), codewords, RankFn(g))
  {
    forall p: Step | p.pair < Pairs(|g|) && p.step < |g| && p.offset < 2
      ensures DataGrid(g, codewords)[RowOf(|g|, p)][ColOf(|g|, p)] == BitValue(RankFn(g), codewords, p)
    {
      PosOfCell(|g|, p);
    }
  }

  /** Every unreserved cell the walk has passed before point cur holds
      its target value; the others are still light. */
  ghost predicate DataPlaced(modules: array2<bool>, reserve: array2<bool>, grid: Grid, target: Grid, cur: Step)
    reads modules, reserve
  {
    WalkGrid(grid) && Square(modules, |grid|) && Square(reserve, |grid|) &&
    |target| == |grid| && (forall r :: 0 <= r < |grid| ==> |target[r]| == |grid|) &&
    forall r, c {:trigger modules[r, c]} :: 0 <= r < |grid| && 0 <= c < |grid| && !reserve[r, c] ==>
      modules[r, c] == (Before(Pos(|grid|, r, c), cur) && target[r][c])
  }

  /** The state the placement loops keep: the reservation array holds
      grid, target fits the counter, and the unreserved cells before cur
      are placed. */
  ghost predicate Placing(modules: array2<bool>, reserve: array2<bool>, codewords: seq<Byte>, grid: Grid,
                          target: Grid, rank: Step -> nat, cur: Step)
    reads modules, reserve
  {
    modules != reserve && Matches(reserve, grid) && Fits(grid, target, codewords, rank) && Counts(rank, grid) &&
    DataPlaced(modules, reserve, grid, target, cur)
  }

  /** One pass of the `cOffset` loop: an unreserved cell takes the next
      bit (`nextBit`) while bits remain; the walk moves one point on. */
  method PlaceModule(modules: array2<bool>, reserve: array2<bool>, codewords: seq<Byte>, ghost grid: Grid,
                     ghost target: Grid, ghost rank: Step -> nat, row: int, cc: int, bitIndex: nat, ghost p: Step)
    returns (next: nat)
    requires Placing(modules, reserve, codewords, grid, target, rank, p)
    requires p.pair < Pairs(|grid|) && p.step < |grid| && p.offset < 2
    requires row == RowOf(|grid|, p) && cc == ColOf(|grid|, p)
    requires bitIndex == Min(8 * |codewords|, rank(p))
    modifies modules
    ensures next == Min(8 * |codewords|, rank(Step(p.pair, p.step, p.offset + 1)))
    ensures Placing(modules, reserve, codewords, grid, target, rank, Step(p.pair, p.step, p.offset + 1))
    ensures forall r, c :: 0 <= r < |grid| && 0 <= c < |grid| && reserve[r, c] ==> modules[r, c] == old(modules[r, c])
  {
    ghost var mc := |grid|;
    PosOfCell(mc, p);
    assert Slot(grid, p) == if reserve[row, cc] then 0 else 1;
    assert target[row][cc] == BitValue(rank, codewords, p);
    ghost var q := Step(p.pair, p.step, p.offset + 1);
    if p.offset == 0 {
      assert p == Step(p.pair, p.step, 0) && rank(q) == rank(p) + Slot(grid, p);
    } else {
      assert p == Step(p.pair, p.step, 1) && rank(q) == rank(p) + Slot(grid, p);
    }
    next := bitIndex;
    if !reserve[row, cc] && bitIndex < 8 * |codewords| {
      modules[row, cc] := DataBit(codewords, bitIndex);
      next := bitIndex + 1;
    }
    assert !reserve[row, cc] ==> modules[row, cc] == target[row][cc];
    forall r, c | 0 <= r < mc && 0 <= c < mc && !reserve[r, c]
      ensures modules[r, c] == (Before(Pos(mc, r, c), q) && target[r][c])
    {
      assert c != 6;
      if r != row || c != cc {
        assert Before(Pos(mc, r, c), q) == Before(Pos(mc, r, c), p);
        assert modules[r, c] == old(modules[r, c]);
      } else {
        assert Pos(mc, r, c) == p;
        assert Before(p, q);
      }
    }
  }

  /** Before the walk starts, no data cell is dark. */
  lemma WalkStart(modules: array2<bool>, reserve: array2<bool>, grid: Grid, target: Grid)
    requires WalkGrid(grid) && Square(modules, |grid|) && Square(reserve, |grid|)
    requires |target| == |grid| && forall r :: 0 <= r < |grid| ==> |target[r]| == |grid|
    requires forall r, c :: 0 <= r < |grid| && 0 <= c < |grid| && !reserve[r, c] ==> !modules[r, c]
    ensures DataPlaced(modules, reserve, grid, target, Step(0, 0, 0))
  {
  }

  /** Past both cells of a step, the walk is at the next step. */
  lemma StepDone(modules: array2<bool>, reserve: array2<bool>, grid: Grid, target: Grid, k: nat, s: nat)
    requires Matches(reserve, grid) && DataPlaced(modules, reserve, grid, target, Step(k, s, 2))
    ensures DataPlaced(modules, reserve, grid, target, Step(k, s + 1, 0))
  {
  }

  /** Past the last step of a pair, the walk is at the next pair. */
  lemma PairDone(modules: array2<bool>, reserve: array2<bool>, grid: Grid, target: Grid, k: nat, s: nat)
    requires s + 1 == |grid| && Matches(reserve, grid) && DataPlaced(modules, reserve, grid, target, Step(k, s, 2))
    ensures DataPlaced(modules, reserve, grid, target, Step(k + 1, 0, 0))
  {
  }

  /** Past the last pair, every data cell has its value. */
  lemma WalkComplete(modules: array2<bool>, reserve: array2<bool>, grid: Grid, target: Grid)
    requires Matches(reserve, grid)
    requires DataPlaced(modules, reserve, grid, target, Step(Pairs(|grid|), 0, 0))
    ensures forall r, c :: 0 <= r < |grid| && 0 <= c < |grid| && !reserve[r, c] ==> modules[r, c] == target[r][c]
  {
    forall r, c | 0 <= r < |grid| && 0 <= c < |grid| && !reserve[r, c]
      ensures modules[r, c] == target[r][c]
    {
      assert c != 6;
    }
  }

  /** The `cOffset` loop: the right cell of the pair, then the left one. */
  method PlaceStep(modules: array2<bool>, reserve: array2<bool>, codewords: seq<Byte>, ghost grid: Grid,
                   ghost target: Grid, ghost rank: Step -> nat, row: int, col: int, bitIndex0: nat, ghost k: nat, ghost s: nat)
    returns (bitIndex: nat)
    requires Placing(modules, reserve, codewords, grid, target, rank, Step(k, s, 0))
    requires k < Pairs(|grid|) && s < |grid| && col == PairCol(|grid|, k) && row == StepRow(|grid|, k, s)
    requires bitIndex0 == Min(8 * |codewords|, rank(Step(k, s, 0)))
    modifies modules
    ensures bitIndex == Min(8 * |codewords|, rank(Step(k, s, 2)))
    ensures Placing(modules, reserve, codewords, grid, target, rank, Step(k, s, 2))
    ensures forall r, c :: 0 <= r < |grid| && 0 <= c < |grid| && reserve[r, c] ==> modules[r, c] == old(modules[r, c])
  {
    bitIndex := bitIndex0;
    for cOffset := 0 to 2
      invariant bitIndex == Min(8 * |codewords|, rank(Step(k, s, cOffset)))
      invariant Placing(modules, reserve, codewords, grid, target, rank, Step(k, s, cOffset))
      invariant forall r, c :: 0 <= r < |grid| && 0 <= c < |grid| && reserve[r, c] ==> modules[r, c] == old(modules[r, c])
    {
      var cc := col - cOffset;
      bitIndex := PlaceModule(modules, reserve, codewords, grid, target, rank, row, cc, bitIndex, Step(k, s, cOffset));
    }
  }

  /** The inner `while (true)` loop of the placement: one column pair,
      walked from one end to the other, after which `row` stays on the end
      row and `dir` turns round. */
  method PlacePair(modules: array2<bool>, reserve: array2<bool>, codewords: seq<Byte>, ghost grid: Grid,
                   ghost target: Grid, ghost rank: Step -> nat, row0: int, col: int, dir0: int, bitIndex0: nat, ghost k: nat)
    returns (row: int, dir: int, bitIndex: nat)
    requires Placing(modules, reserve, codewords, grid, target, rank, Step(k, 0, 0))
    requires k < Pairs(|grid|) && col == PairCol(|grid|, k)
    requires row0 == StepRow(|grid|, k, 0) && dir0 == (if k % 2 == 0 then -1 else 1)
    requires bitIndex0 == Min(8 * |codewords|, rank(Step(k, 0, 0)))
    modifies modules
    ensures row == StepRow(|grid|, k, |grid| - 1) && dir == -dir0
    ensures bitIndex == Min(8 * |codewords|, rank(Step(k + 1, 0, 0)))
    ensures Placing(modules, reserve, codewords, grid, target, rank, Step(k + 1, 0, 0))
    ensures forall r, c :: 0 <= r < |grid| && 0 <= c < |grid| && reserve[r, c] ==> modules[r, c] == old(modules[r, c])
  {
    var mc := modules.Length0;
    row, dir, bitIndex := row0, dir0, bitIndex0;
    ghost var s: nat := 0;
    while true
      invariant s < mc && row == StepRow(mc, k, s)
      invariant bitIndex == Min(8 * |codewords|, rank(Step(k, s, 0)))
      invariant Placing(modules, reserve, codewords, grid, target, rank, Step(k, s, 0))
      invariant forall r, c :: 0 <= r < mc && 0 <= c < mc && reserve[r, c] ==> modules[r, c] == old(modules[r, c])
      decreases mc - s
    {
      bitIndex := PlaceStep(modules, reserve, codewords, grid, target, rank, row, col, bitIndex, k, s);
      row := row + dir;
      if row < 0 || row >= mc {
        assert s == mc - 1;
        PairDone(modules, reserve, grid, target, k, s);
        row := row - dir;
        dir := -dir;
        break;
      }
      StepDone(modules, reserve, grid, target, k, s);
      s := s + 1;
    }
  }

  /** The placement loops of `buildMatrix`: starting at the bottom-right
      corner, pairs of columns right to left (column 6 skipped), upward and
      downward in turn, right cell before left cell; every unreserved cell
      takes the next codeword bit while bits remain. Afterwards each data
      cell holds its target bit, and reserved cells are unchanged. */
  method PlaceData(modules: array2<bool>, reserve: array2<bool>, codewords: seq<Byte>, ghost grid: Grid,
                   ghost target: Grid, ghost rank: Step -> nat)
    requires modules != reserve && Matches(reserve, grid) && Fits(grid, target, codewords, rank) && Counts(rank, grid)
    requires Square(modules, |grid|)
    requires forall r, c :: 0 <= r < |grid| && 0 <= c < |grid| && !reserve[r, c] ==> !modules[r, c]
    modifies modules
    ensures forall r, c :: 0 <= r < |grid| && 0 <= c < |grid| ==>
      modules[r, c] == (if reserve[r, c] then old(modules[r, c]) else target[r][c])
  {
    var mc := modules.Length0;
    var row: int, col: int, dir: int, bitIndex: nat := mc - 1, mc - 1, -1, 0;
    var totalBits := |codewords| * 8;
    ghost var k: nat := 0;
    WalkStart(modules, reserve, grid, target);
    while col > 0
      invariant 0 <= k <= Pairs(mc) && col == ColAtTop(mc, k)
      invariant row == (if k % 2 == 0 then mc - 1 else 0) && dir == (if k % 2 == 0 then -1 else 1)
      invariant bitIndex == Min(totalBits, rank(Step(k, 0, 0)))
      invariant Placing(modules, reserve, codewords, grid, target, rank, Step(k, 0, 0))
      invariant forall r, c :: 0 <= r < mc && 0 <= c < mc && reserve[r, c] ==> modules[r, c] == old(modules[r, c])
      decreases col
    {
      ColumnWalk(mc, k);
      if col == 6 {
        col := col - 1;
      }
      row, dir, bitIndex := PlacePair(modules, reserve, codewords, grid, target, rank, row, col, dir, bitIndex, k);
      col := col - 2;
      ParityStep(k);
      k := k + 1;
    }
    WalkComplete(modules, reserve, grid, target);
  }

  /** The reservation map of a version is one the walk can run on. */
  lemma ReservedGridWalks(version: int)
    requires Supported(version)
    ensures WalkGrid(ReservedGrid(version))
  {
    var g := ReservedGrid(version);
    forall r | 0 <= r < |g|
      ensures g[r][6]
    {
      assert Reserved(version, r, 6);
    }
  }

  /** `buildMatrix`: the function patterns, their reservation, then the
      codeword bits in placement order. Every cell has the value
      `MatrixValue` gives it, and the reservation map is `Reserved`. */
  method BuildMatrix(codewords: seq<Byte>, version: int) returns (modules: array2<bool>, reserve: array2<bool>)
    requires Supported(version)
    ensures fresh(modules) && fresh(reserve) && modules != reserve
    ensures Square(modules, Size(version)) && Square(reserve, Size(version))
    ensures forall r, c :: 0 <= r < Size(version) && 0 <= c < Size(version) ==>
      reserve[r, c] == Reserved(version, r, c)
    ensures forall r, c :: 0 <= r < Size(version) && 0 <= c < Size(version) ==>
      modules[r, c] == MatrixValue(version, codewords, r, c)
  {
    var mc := SpecOf(version).value.moduleCount;
    modules := new bool[mc, mc]((_, _) => false);
    reserve := new bool[mc, mc]((_, _) => false);
    PlaceFunctionPatterns(modules, reserve, version);
    ghost var grid := ReservedGrid(version);
    ReservedGridWalks(version);
    ghost var target := DataGrid(grid, codewords);
    DataGridFits(grid, codewords);
    RankCounts(grid);
    PlaceData(modules, reserve, codewords, grid, target, RankFn(grid));
  }

  /* ---------------------------------------------------------------- */
  /* Properties of the matrix                                          */
  /* ---------------------------------------------------------------- */

  /** The three finder patterns with their light separators sit in the
      top-left, top-right and bottom-left corners, whatever the data. */
  lemma FinderCorners(version: int, codewords: seq<Byte>, r: int, c: int)
    requires Supported(version) && 0 <= r < Size(version) && 0 <= c < Size(version)
    ensures InFinderWindow(0, 0, r, c) ==> MatrixValue(version, codewords, r, c) == FinderDark(r, c)
    ensures InFinderWindow(0, Size(version) - 7, r, c) ==>
      MatrixValue(version, codewords, r, c) == FinderDark(r, c - (Size(version) - 7))
    ensures InFinderWindow(Size(version) - 7, 0, r, c) ==>
      MatrixValue(version, codewords, r, c) == FinderDark(r - (Size(version) - 7), c)
    ensures (r == 7 && c <= 7) || (c == 7 && r <= 7) ==> !MatrixValue(version, codewords, r, c)
    ensures (r == 7 && c >= Size(version) - 8) || (c == Size(version) - 8 && r <= 7) ==> !MatrixValue(version, codewords, r, c)
    ensures (r == Size(version) - 8 && c <= 7) || (c == 7 && r >= Size(version) - 8) ==> !MatrixValue(version, codewords, r, c)
  {
  }

  /** Row 6 and column 6 between the finders alternate dark and light,
      dark at even indices. */
  lemma TimingPatterns(version: int, codewords: seq<Byte>, i: int)
    requires Supported(version) && 8 <= i <= Size(version) - 9
    ensures MatrixValue(version, codewords, 6, i) == (i % 2 == 0)
    ensures MatrixValue(version, codewords, i, 6) == (i % 2 == 0)
  {
  }

  /** No codeword bit reaches a reserved cell: two codeword sequences give
      the same value there. */
  lemma ReservedIgnoresData(version: int, codewords: seq<Byte>, other: seq<Byte>, r: int, c: int)
    requires Supported(version) && 0 <= r < Size(version) && 0 <= c < Size(version)
    requires Reserved(version, r, c)
    ensures MatrixValue(version, codewords, r, c) == MatrixValue(version, other, r, c)
  {
  }

  /** The timing column holds no data: every cell of column 6 is reserved. */
  lemma TimingColumnReserved(version: int, r: int)
    requires Supported(version) && 0 <= r < Size(version)
    ensures Reserved(version, r, 6)
  {
  }

  lemma {:induction false} RankStepsMono(slot: Step -> nat, k: nat, s: nat, t: nat)
    requires s <= t
    ensures RankSteps(slot, k, s) <= RankSteps(slot, k, t)
    decreases t
  {
    if s < t {
      RankStepsMono(slot, k, s, t - 1);
    }
  }

  lemma {:induction false} RankPairsMono(slot: Step -> nat, n: nat, k: nat, j: nat)
    requires k <= j
    ensures RankPairs(slot, n, k) <= RankPairs(slot, n, j)
    decreases j
  {
    if k < j {
      RankPairsMono(slot, n, k, j - 1);
    }
  }

  /** A point's own slot is counted in the rank of every later point of
      the walk. */
  lemma RankAdvance(slot: Step -> nat, n: nat, p: Step, q: Step)
    requires Before(p, q) && p.offset < 2 && p.step < n
    ensures RankOf(slot, n, p) + slot(p) <= RankOf(slot, n, q)
  {
    var k, s := p.pair, p.step;
    assert p == Step(k, s, p.offset);
    var base := RankPairs(slot, n, k) + RankSteps(slot, k, s);
    assert RankOf(slot, n, p) + slot(p) <= base + slot(Step(k, s, 0)) + slot(Step(k, s, 1));
    if q.pair > k {
      RankStepsMono(slot, k, s + 1, n);
      RankPairsMono(slot, n, k + 1, q.pair);
    } else if q.step > s {
      RankStepsMono(slot, k, s + 1, q.step);
    } else {
      assert q == Step(k, s, q.offset) && q.offset > p.offset;
    }
  }

  /** The rank of a data cell: the index of the codeword bit it takes. */
  function BitIndex(version: int, r: int, c: int): nat
    requires Supported(version) && 0 <= r < Size(version) && 0 <= c < Size(version)
  {
    Rank(ReservedGrid(version), Pos(Size(version), r, c))
  }

  /** Codeword bits go to the data cells in placement order: a data cell
      the walk reaches earlier takes an earlier bit. */
  lemma PlacementOrder(version: int, r1: int, c1: int, r2: int, c2: int)
    requires Supported(version)
    requires 0 <= r1 < Size(version) && 0 <= c1 < Size(version) && !Reserved(version, r1, c1)
    requires 0 <= r2 < Size(version) && 0 <= c2 < Size(version) && !Reserved(version, r2, c2)
    requires Before(Pos(Size(version), r1, c1), Pos(Size(version), r2, c2))
    ensures BitIndex(version, r1, c1) < BitIndex(version, r2, c2)
  {
    var g, mc := ReservedGrid(version), Size(version);
    assert c1 != 6;
    var p := Pos(mc, r1, c1);
    assert SlotFn(g)(p) == 1;
    RankAdvance(SlotFn(g), mc, p, Pos(mc, r2, c2));
  }

  /** No two data cells take the same codeword bit. */
  lemma DataCellsDistinct(version: int, r1: int, c1: int, r2: int, c2: int)
    requires Supported(version)
    requires 0 <= r1 < Size(version) && 0 <= c1 < Size(version) && !Reserved(version, r1, c1)
    requires 0 <= r2 < Size(version) && 0 <= c2 < Size(version) && !Reserved(version, r2, c2)
    requires (r1, c1) != (r2, c2)
    ensures BitIndex(version, r1, c1) != BitIndex(version, r2, c2)
  {
    var mc := Size(version);
    assert c1 != 6 && c2 != 6;
    var p, q := Pos(mc, r1, c1), Pos(mc, r2, c2);
    assert p != q;
    if Before(p, q) {
      PlacementOrder(version, r1, c1, r2, c2);
    } else {
      PlacementOrder(version, r2, c2, r1, c1);
    }
  }
}
