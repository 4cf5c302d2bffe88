/** Kernel geometry: centred coordinate grids, the squared distance field,
    shell indexing, the kernel cores, normalisation and the centring roll. */
module KernelGen {
  import opened Wrappers
  import opened SeqUtil
  import opened Values
  import opened Arith
  import opened GridUtils

  // ---------------------------------------------------------------------
  // Coordinate grids

  /** `tf.range(start, stop, 1)`: the integers from `start` up to, not
      including, `stop`. */
  function Range(start: int, stop: int): (r: seq<int>)
    ensures |r| == if stop > start then stop - start else 0
    ensures forall j :: 0 <= j < |r| ==> r[j] == start + j
    decreases stop - start
  {
    if start >= stop then [] else [start] + Range(start + 1, stop)
  }

  /** The range of one axis of size `n`: from `-mid` to `mid + extra`,
      where `mid = floor(n / 2)` and `extra = n % 2`. It holds exactly `n`
      values, index `j` holding `j - floor(n / 2)`, so the values run from
      `-floor(n / 2)` to `ceil(n / 2) - 1` and index `floor(n / 2)` holds 0. */
  function AxisCoords(n: nat): (r: seq<int>)
    ensures |r| == n
    ensures forall j :: 0 <= j < n ==> r[j] == j - n / 2
    ensures n > 0 ==> r[0] == -(n / 2) && r[n - 1] == (n + 1) / 2 - 1 && r[n / 2] == 0
  {
    Range(-(n / 2), n / 2 + n % 2)
  }

  /** The index of a cell along `axis`. */
  function Along(axis: nat, i: int, j: int, k: int): int {
    if axis == 0 then i else if axis == 1 then j else k
  }

  /** The full-shape grid of one axis's coordinates: the range reshaped
      along `axis` and tiled along the other two axes, so it varies only
      along `axis`. */
  function CoordGrid(size: seq<nat>, axis: nat): (g: Grid<int>)
    requires |size| == 3 && axis < 3
    ensures Valid(g) && g.d0 == size[0] && g.d1 == size[1] && g.d2 == size[2]
    ensures forall i, j, k :: 0 <= i < size[0] && 0 <= j < size[1] && 0 <= k < size[2] ==>
      g.cells[i][j][k] == Along(axis, i, j, k) - size[axis] / 2
  {
    var c := AxisCoords(size[axis]);
    Grid(size[0], size[1], size[2], seq(size[0], i requires 0 <= i < size[0] =>
      seq(size[1], j requires 0 <= j < size[1] =>
        seq(size[2], k requires 0 <= k < size[2] => c[Along(axis, i, j, k)]))))
  }

  /** `createCoordinateGrids(size)`: one coordinate grid per axis, pushed in
      axis order. */
  method CreateCoordinateGrids(size: seq<nat>) returns (coords: seq<Grid<int>>)
    requires |size| == 3
    ensures |coords| == 3
    ensures forall a :: 0 <= a < 3 ==> coords[a] == CoordGrid(size, a)
  {
    coords := [];
    for i := 0 to 3
      invariant |coords| == i
      invariant forall a :: 0 <= a < i ==> coords[a] == CoordGrid(size, a)
    {
      coords := coords + [CoordGrid(size, i)];
    }
  }

  // ---------------------------------------------------------------------
  // Distance field

  /** Cellwise sum of two same-shape grids. */
  function AddGrid(a: Grid<int>, b: Grid<int>): (r: Grid<int>)
    requires Valid(a) && Valid(b) && SameShape(a, b)
    ensures Valid(r) && SameShape(r, a)
    ensures forall i, j, k :: 0 <= i < a.d0 && 0 <= j < a.d1 && 0 <= k < a.d2 ==>
      r.cells[i][j][k] == a.cells[i][j][k] + b.cells[i][j][k]
  {
    Grid(a.d0, a.d1, a.d2, seq(a.d0, i requires 0 <= i < a.d0 =>
      seq(a.d1, j requires 0 <= j < a.d1 =>
        seq(a.d2, k requires 0 <= k < a.d2 => a.cells[i][j][k] + b.cells[i][j][k]))))
  }

  function Square(x: int): int {
    x * x
  }

  /** The squared distance to the centre over the first `a` axes. */
  function PartialSquares(n: seq<nat>, i: int, j: int, k: int, a: nat): int
    requires |n| == 3 && a <= 3
  {
    if a == 0 then 0
    else PartialSquares(n, i, j, k, a - 1) + Square(Along(a - 1, i, j, k) - n[a - 1] / 2)
  }

  /** Adding the squared coordinates of axis `a` extends the partial sum
      of squares by that axis. */
  lemma AddSquareStep(d: Grid<int>, c: Grid<int>, size: seq<nat>, a: nat)
    requires |size| == 3 && a < 3
    requires Valid(d) && d.d0 == size[0] && d.d1 == size[1] && d.d2 == size[2]
    requires Valid(c) && SameShape(c, d)
    requires forall i, j, k :: 0 <= i < size[0] && 0 <= j < size[1] && 0 <= k < size[2] ==>
      c.cells[i][j][k] == Along(a, i, j, k) - size[a] / 2
    requires forall i, j, k :: 0 <= i < size[0] && 0 <= j < size[1] && 0 <= k < size[2] ==>
      d.cells[i][j][k] == PartialSquares(size, i, j, k, a)
    ensures var r := AddGrid(d, MapGrid(c, Square));
      Valid(r) && r.d0 == size[0] && r.d1 == size[1] && r.d2 == size[2] &&
      forall i, j, k :: 0 <= i < size[0] && 0 <= j < size[1] && 0 <= k < size[2] ==>
        r.cells[i][j][k] == PartialSquares(size, i, j, k, a + 1)
  {
    var sq := MapGrid(c, Square);
    var r := AddGrid(d, sq);
    forall i, j, k | 0 <= i < size[0] && 0 <= j < size[1] && 0 <= k < size[2]
      ensures r.cells[i][j][k] == PartialSquares(size, i, j, k, a + 1)
    {
      var x := c.cells[i][j][k];
      assert sq.cells[i][j][k] == Square(x);
      assert r.cells[i][j][k] == d.cells[i][j][k] + sq.cells[i][j][k];
      PartialSquaresStep(size, i, j, k, a, x);
    }
  }

  lemma PartialSquaresStep(n: seq<nat>, i: int, j: int, k: int, a: nat, x: int)
    requires |n| == 3 && a < 3 && x == Along(a, i, j, k) - n[a] / 2
    ensures PartialSquares(n, i, j, k, a + 1) == PartialSquares(n, i, j, k, a) + Square(x)
  {
  }

  /** The integer part of `createDistanceField`: starting from zeros, the
      square of each axis's coordinate grid is added in turn, so every cell
      holds its squared distance to the centre cell. */
  method SquaredDistance(size: seq<nat>) returns (d: Grid<int>)
    requires |size| == 3
    ensures Valid(d) && d.d0 == size[0] && d.d1 == size[1] && d.d2 == size[2]
    ensures forall i, j, k :: 0 <= i < size[0] && 0 <= j < size[1] && 0 <= k < size[2] ==>
      d.cells[i][j][k] == Square(i - size[0] / 2) + Square(j - size[1] / 2) + Square(k - size[2] / 2)
  {
    var coords := CreateCoordinateGrids(size);
    d := MapGrid(coords[0], (x: int) => 0);
    for a := 0 to 3
      invariant Valid(d) && d.d0 == size[0] && d.d1 == size[1] && d.d2 == size[2]
      invariant forall i, j, k :: 0 <= i < size[0] && 0 <= j < size[1] && 0 <= k < size[2] ==>
        d.cells[i][j][k] == PartialSquares(size, i, j, k, a)
    {
      var c := coords[a];
      AddSquareStep(d, c, size, a);
      d := AddGrid(d, MapGrid(c, Square));
    }
    forall i: int, j: int, k: int | 0 <= i < size[0] && 0 <= j < size[1] && 0 <= k < size[2]
      ensures PartialSquares(size, i, j, k, 3) ==
        Square(i - size[0] / 2) + Square(j - size[1] / 2) + Square(k - size[2] / 2)
    {
      PartialSquaresAll(size, i, j, k);
    }
  }

  lemma PartialSquaresAll(n: seq<nat>, i: int, j: int, k: int)
    requires |n| == 3
    ensures PartialSquares(n, i, j, k, 3) == Square(i - n[0] / 2) + Square(j - n[1] / 2) + Square(k - n[2] / 2)
  {
    assert PartialSquares(n, i, j, k, 1) == Square(i - n[0] / 2);
    assert PartialSquares(n, i, j, k, 2) == Square(i - n[0] / 2) + Square(j - n[1] / 2);
  }

  // ---------------------------------------------------------------------
  // Shells

  /** `min(floor(r * B), B - 1)`: which shell coefficient a distance uses. */
  function ShellIndex(r: real, count: nat): (idx: int)
    ensures r >= 0.0 && count >= 1 ==> 0 <= idx < count
    ensures idx <= (r * count as real).Floor
    ensures (r * count as real).Floor <= count - 1 ==> idx == (r * count as real).Floor
  {
    var f := (r * count as real).Floor;
    assert r >= 0.0 ==> f >= 0 by {
      if r >= 0.0 {
        MulNonNeg(r, count as real);
      }
    }
    if f < count - 1 then f else count - 1
  }

  /** `tf.mod(r * B, 1)`: the position inside the shell, in [0, 1). */
  function Fraction(r: real, count: nat): (fr: real)
    ensures 0.0 <= fr < 1.0
  {
    var x := r * count as real;
    x - x.Floor as real
  }

  /** The cores `kernel_core` holds, by key. The exponential bump at key 1
      is `exp`-based; it is applied through a supplied function. */
  datatype Core = Polynomial | Exponential | StepCore | Staircase

  /** `kernel_core[kn - 1]`: keys 0 to 3 exist, every other `kn` selects
      `undefined`. */
  function SelectCore(kn: real): (c: Option<Core>)
    ensures c.Some? <==> kn == 1.0 || kn == 2.0 || kn == 3.0 || kn == 4.0
    ensures c == Some(Polynomial) <==> kn == 1.0
    ensures c == Some(StepCore) <==> kn == 3.0
    ensures c == Some(Staircase) <==> kn == 4.0
  {
    if kn == 1.0 then Some(Polynomial)
    else if kn == 2.0 then Some(Exponential)
    else if kn == 3.0 then Some(StepCore)
    else if kn == 4.0 then Some(Staircase)
    else None
  }

  /** `kernel_core[0]`: `(4 r (1 - r))^4`. */
  function PolynomialCore(r: real): real {
    var x := 4.0 * r * (1.0 - r);
    x * x * x * x
  }

  /** `kernel_core[2]` with its default `q = 1/4`: 1 on [q, 1 - q]. */
  function StepCoreValue(r: real): (v: real)
    ensures v == 1.0 || v == 0.0
    ensures v == 1.0 <==> 0.25 <= r <= 0.75
  {
    if 0.25 <= r && r <= 0.75 then 1.0 else 0.0
  }

  /** `kernel_core[3]` with `q = 1/4`: the step plus `logicalAnd(r < q, 0.5)`.
      The number 0.5 is truthy, so the second term is 1 wherever `r < q`. */
  function StaircaseCore(r: real): (v: real)
    ensures r < 0.25 ==> v == 1.0
    ensures 0.25 <= r <= 0.75 ==> v == 1.0
    ensures r > 0.75 ==> v == 0.0
  {
    StepCoreValue(r) + (if r < 0.25 then 1.0 else 0.0)
  }

  function CoreValue(c: Core, r: real, bump: real -> real): real {
    match c
    case Polynomial => PolynomialCore(r)
    case Exponential => bump(r)
    case StepCore => StepCoreValue(r)
    case Staircase => StaircaseCore(r)
  }

  /** The polynomial core lies in [0, 1] on [0, 1], peaks at 1 at the middle
      and vanishes at both ends. */
  lemma PolynomialCoreBounds(r: real)
    requires 0.0 <= r <= 1.0
    ensures 0.0 <= PolynomialCore(r) <= 1.0
    ensures PolynomialCore(0.5) == 1.0 && PolynomialCore(0.0) == 0.0 && PolynomialCore(1.0) == 0.0
  {
    var x := 4.0 * r * (1.0 - r);
    assert 1.0 - x == (2.0 * r - 1.0) * (2.0 * r - 1.0);
    MulNonNeg(r, 1.0 - r);
    assert 0.0 <= x <= 1.0;
    var y := x * x;
    assert 0.0 <= y <= 1.0 by {
      assert x * x <= x * 1.0;
    }
    assert x * x * x * x == y * y;
    assert y * y <= y * 1.0;
  }

  /** True when every cell's shell index is a valid index into `b`. */
  predicate ShellIndicesValid(d: Grid<real>, count: nat)
    requires Valid(d)
  {
    forall i, j, k :: 0 <= i < d.d0 && 0 <= j < d.d1 && 0 <= k < d.d2 ==>
      0 <= ShellIndex(d.cells[i][j][k], count) < count
  }

  /** One cell of `kernelShell`: the mask `r < 1` times the core at the
      fraction times the selected coefficient. */
  function ShellValue(r: real, b: seq<real>, c: Core, bump: real -> real): (w: real)
    ensures r >= 1.0 ==> w == 0.0
  {
    var idx := ShellIndex(r, |b|);
    if 0 <= idx < |b| then
      (if r < 1.0 then 1.0 else 0.0) * CoreValue(c, Fraction(r, |b|), bump) * b[idx]
    else 0.0
  }

  /** `kernelShell(r, params, kernelCoreFn)` over a whole distance field.
      It fails when the core is `undefined` or a shell index falls outside
      `b`; the indices are always valid for non-negative distances and a
      non-empty `b`. */
  function KernelShell(d: Grid<real>, b: seq<real>, core: Option<Core>, bump: real -> real): (r: Result<Grid<real>>)
    requires Valid(d)
    ensures r.Ok? <==> core.Some? && ShellIndicesValid(d, |b|)
    ensures r.Ok? ==> Valid(r.value) && SameShape(r.value, d)
    ensures r.Ok? ==> forall i, j, k :: 0 <= i < d.d0 && 0 <= j < d.d1 && 0 <= k < d.d2 ==>
      var x := d.cells[i][j][k];
      r.value.cells[i][j][k] ==
        if x < 1.0 then CoreValue(core.value, Fraction(x, |b|), bump) * b[ShellIndex(x, |b|)] else 0.0
  {
    if core.None? then Err("kernelCoreFn is not a function")
    else if !ShellIndicesValid(d, |b|) then Err("gather index out of range")
    else Ok(MapGrid(d, (x: real) => ShellValue(x, b, core.value, bump)))
  }

  /** Non-negative distances and at least one coefficient make every shell
      index valid, so a defined core never fails. */
  lemma ShellIndicesValidWhenNonNegative(d: Grid<real>, b: seq<real>, core: Core, bump: real -> real)
    requires Valid(d) && |b| >= 1
    requires forall i, j, k :: 0 <= i < d.d0 && 0 <= j < d.d1 && 0 <= k < d.d2 ==> d.cells[i][j][k] >= 0.0
    ensures KernelShell(d, b, Some(core), bump).Ok?
  {
    forall i, j, k | 0 <= i < d.d0 && 0 <= j < d.d1 && 0 <= k < d.d2
      ensures 0 <= ShellIndex(d.cells[i][j][k], |b|) < |b|
    {
    }
  }

  // ---------------------------------------------------------------------
  // Normalisation

  function Scaled(s: seq<real>, t: real): (r: seq<real>)
    requires t != 0.0
    ensures |r| == |s|
    ensures forall i :: 0 <= i < |s| ==> r[i] == s[i] / t
  {
    seq(|s|, i requires 0 <= i < |s| => s[i] / t)
  }

  /** Dividing every entry by `t` divides the sum by `t`. */
  lemma {:induction false} SumScaled(s: seq<real>, t: real)
    requires t != 0.0
    ensures Sum(Scaled(s, t)) == Sum(s) / t
    decreases |s|
  {
    if s != [] {
      var init := s[..|s| - 1];
      SumScaled(init, t);
      assert Scaled(s, t)[..|s| - 1] == Scaled(init, t);
    }
  }

  /** The sums of the rows of one plane. */
  function RowSums(p: seq<seq<real>>): (r: seq<real>)
    ensures |r| == |p|
    ensures forall j :: 0 <= j < |p| ==> r[j] == Sum(p[j])
  {
    seq(|p|, j requires 0 <= j < |p| => Sum(p[j]))
  }

  /** `K.sum()`: the sum over all cells, plane by plane and row by row. */
  function GridSum(g: Grid<real>): real
    requires Valid(g)
  {
    Sum(seq(g.d0, i requires 0 <= i < g.d0 => Sum(RowSums(g.cells[i]))))
  }

  /** Dividing every cell by `t` divides the grid sum by `t`. */
  lemma GridSumScaled(g: Grid<real>, h: Grid<real>, t: real)
    requires Valid(g) && Valid(h) && SameShape(h, g) && t != 0.0
    requires forall i, j, k :: 0 <= i < g.d0 && 0 <= j < g.d1 && 0 <= k < g.d2 ==>
      h.cells[i][j][k] == g.cells[i][j][k] / t
    ensures GridSum(h) == GridSum(g) / t
  {
    var outer := seq(g.d0, i requires 0 <= i < g.d0 => Sum(RowSums(g.cells[i])));
    forall i | 0 <= i < g.d0
      ensures Sum(RowSums(h.cells[i])) == Sum(RowSums(g.cells[i])) / t
    {
      forall j | 0 <= j < g.d1
        ensures Sum(h.cells[i][j]) == Sum(g.cells[i][j]) / t
      {
        assert h.cells[i][j] == Scaled(g.cells[i][j], t);
        SumScaled(g.cells[i][j], t);
      }
      assert RowSums(h.cells[i]) == Scaled(RowSums(g.cells[i]), t);
      SumScaled(RowSums(g.cells[i]), t);
    }
    assert seq(h.d0, i requires 0 <= i < h.d0 => Sum(RowSums(h.cells[i]))) == Scaled(outer, t);
    SumScaled(outer, t);
  }

  /** `K.div(K.sum())` with JavaScript division: a cell is 0/0 or x/0 when
      the sum is zero, since nothing guards against it. */
  function Normalise(g: Grid<real>): (r: Grid<Number>)
    requires Valid(g)
    ensures Valid(r) && SameShape(r, g)
    ensures GridSum(g) == 0.0 ==> forall i, j, k :: 0 <= i < g.d0 && 0 <= j < g.d1 && 0 <= k < g.d2 ==>
      !r.cells[i][j][k].Finite?
  {
    var t := GridSum(g);
    MapGrid(g, (x: real) => Divide(Finite(x), Finite(t)))
  }

  /** The finite values of a grid of numbers, 0 for the special values. */
  function FiniteValues(g: Grid<Number>): (r: Grid<real>)
    requires Valid(g)
    ensures Valid(r) && SameShape(r, g)
    ensures forall i, j, k :: 0 <= i < g.d0 && 0 <= j < g.d1 && 0 <= k < g.d2 ==>
      r.cells[i][j][k] == if g.cells[i][j][k].Finite? then g.cells[i][j][k].v else 0.0
  {
    MapGrid(g, (n: Number) => if n.Finite? then n.v else 0.0)
  }

  /** With a nonzero sum, every normalised cell is finite and the cells
      sum to 1. */
  lemma NormaliseSumsToOne(g: Grid<real>)
    requires Valid(g) && GridSum(g) != 0.0
    ensures forall i, j, k :: 0 <= i < g.d0 && 0 <= j < g.d1 && 0 <= k < g.d2 ==>
      Normalise(g).cells[i][j][k] == Finite(g.cells[i][j][k] / GridSum(g))
    ensures GridSum(FiniteValues(Normalise(g))) == 1.0
  {
    var t := GridSum(g);
    var n := Normalise(g);
    var f := FiniteValues(n);
    forall i, j, k | 0 <= i < g.d0 && 0 <= j < g.d1 && 0 <= k < g.d2
      ensures n.cells[i][j][k] == Finite(g.cells[i][j][k] / t)
      ensures f.cells[i][j][k] == g.cells[i][j][k] / t
    {
      NormaliseCell(g, i, j, k);
    }
    GridSumScaled(g, f, t);
    DivSelf(t);
  }

  /** One normalised cell is the cell divided by a nonzero sum. */
  lemma NormaliseCell(g: Grid<real>, i: int, j: int, k: int)
    requires Valid(g) && GridSum(g) != 0.0
    requires 0 <= i < g.d0 && 0 <= j < g.d1 && 0 <= k < g.d2
    ensures Normalise(g).cells[i][j][k] == Finite(g.cells[i][j][k] / GridSum(g))
  {
    assert Normalise(g).cells[i][j][k] == Divide(Finite(g.cells[i][j][k]), Finite(GridSum(g)));
  }

  lemma DivSelf(t: real)
    requires t != 0.0
    ensures t / t == 1.0
  {
  }

  // ---------------------------------------------------------------------
  // Centring roll and the whole kernel

  /** `mid = size.map(x => floor(x / 2))` as roll shifts. */
  function Mid<T>(g: Grid<T>): seq<int> {
    [g.d0 / 2, g.d1 / 2, g.d2 / 2]
  }

  /** Where the centre cell `floor(n / 2)` lands after the roll. */
  function CentreAfterRoll(n: nat): nat {
    if n % 2 == 0 then 0 else n - 1
  }

  /** Rolling one axis of size `n` by `floor(n / 2)` moves index
      `floor(n / 2)` to index 0 for even `n` and to `n - 1` for odd `n`. */
  lemma CentreLands(n: nat)
    requires n > 0
    ensures CentreAfterRoll(n) < n
    ensures Back(CentreAfterRoll(n), EffectiveShift(n / 2, n), n) == n / 2
  {
    var h := n / 2;
    EffectiveShiftIsMod(h, n);
    ModUnique(n, 2, h, n % 2);
    assert h < n;
    ModUnique(h, n, 0, h);
    if n % 2 == 0 {
      assert n == h + h;
    } else {
      assert n == h + h + 1;
    }
  }

  /** The roll along axes [0, 1, 2] by `mid` puts the centre cell at
      `CentreAfterRoll` along every axis. */
  lemma RollingByMidMovesCentre<T>(g: Grid<T>)
    requires Valid(g) && g.d0 > 0 && g.d1 > 0 && g.d2 > 0
    ensures RollAll(g, [0, 1, 2], Mid(g)).Ok?
    ensures var r := RollAll(g, [0, 1, 2], Mid(g)).value;
      Valid(r) && SameShape(r, g) &&
      CentreAfterRoll(g.d0) < g.d0 && CentreAfterRoll(g.d1) < g.d1 && CentreAfterRoll(g.d2) < g.d2 &&
      r.cells[CentreAfterRoll(g.d0)][CentreAfterRoll(g.d1)][CentreAfterRoll(g.d2)] ==
        g.cells[g.d0 / 2][g.d1 / 2][g.d2 / 2]
  {
    RollAllThree(g, g.d0 / 2, g.d1 / 2, g.d2 / 2);
    CentreLands(g.d0);
    CentreLands(g.d1);
    CentreLands(g.d2);
  }

  /** `generateKernel(size, params)` before the final transform: select the
      core, weigh the shells of the normalised distance field `d`, divide by
      the sum and roll the centre to the corner. */
  function GenerateKernel(d: Grid<real>, b: seq<real>, kn: real, bump: real -> real): (r: Result<Grid<Number>>)
    requires Valid(d)
    ensures r.Ok? <==> SelectCore(kn).Some? && ShellIndicesValid(d, |b|) && d.d0 > 0 && d.d1 > 0 && d.d2 > 0
    ensures r.Ok? ==> Valid(r.value) && SameShape(r.value, d)
  {
    match KernelShell(d, b, SelectCore(kn), bump)
    case Err(m) => Err(m)
    case Ok(k) =>
      RollAllThreeOk(Normalise(k), k.d0 / 2, k.d1 / 2, k.d2 / 2);
      RollAll(Normalise(k), [0, 1, 2], Mid(k))
  }

  /** The generated kernel is the normalised shell grid with its centre
      cell moved to the corner given by `CentreAfterRoll`. */
  lemma GenerateKernelCentre(d: Grid<real>, b: seq<real>, kn: real, bump: real -> real)
    requires Valid(d) && GenerateKernel(d, b, kn, bump).Ok?
    ensures var k := KernelShell(d, b, SelectCore(kn), bump).value;
      var r := GenerateKernel(d, b, kn, bump).value;
      CentreAfterRoll(d.d0) < d.d0 && CentreAfterRoll(d.d1) < d.d1 && CentreAfterRoll(d.d2) < d.d2 &&
      r.cells[CentreAfterRoll(d.d0)][CentreAfterRoll(d.d1)][CentreAfterRoll(d.d2)] ==
        Normalise(k).cells[d.d0 / 2][d.d1 / 2][d.d2 / 2]
  {
    var k := KernelShell(d, b, SelectCore(kn), bump).value;
    RollingByMidMovesCentre(Normalise(k));
  }
}
