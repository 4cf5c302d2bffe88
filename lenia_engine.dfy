/** The simulation engine: its growth maps, its recorded state and the
    transitions `setShape`, `setParams`, `loadAnimal`, `loadRandom`, `reset`
    and the pointwise half of `step`.

    The Fourier-space convolution is not modelled: `step` receives the
    potential `U` it would compute. The kernel is recorded as the shape
    and parameters `generateKernel` was called with. The environment the
    engine cannot see (the pattern catalogue, the random stream, what
    `tf.pad` does with negative padding, and the rounding `toFixed(1)`)
    is supplied at construction. */
module LeniaEngine {
  import opened Wrappers
  import opened Values
  import opened GridUtils
  import opened PatternCodec
  import opened KernelGen
  import Arith

  // ---------------------------------------------------------------------
  // Growth maps

  /** The base `max(0, 1 - (n - m)^2 / (9 s^2))` of the polynomial growth. */
  function QuadBase(u: real, m: real, s: real): real
    requires s != 0.0
  {
    Arith.SqPos(s);
    var x := 1.0 - Arith.Sq(u - m) / (9.0 * Arith.Sq(s));
    if x > 0.0 then x else 0.0
  }

  /** `polynomialQuad(n, m, s)`: `2 max(0, 1 - (n - m)^2 / (9 s^2))^4 - 1`. */
  function PolynomialQuad(u: real, m: real, s: real): real
    requires s != 0.0
  {
    2.0 * Arith.Sq(Arith.Sq(QuadBase(u, m, s))) - 1.0
  }

  /** Facts about the ratio of a non-negative number to a positive one. */
  lemma RatioBounds(d: real, q: real)
    requires d >= 0.0 && q > 0.0
    ensures d / q >= 0.0
    ensures d >= q ==> d / q >= 1.0
  {
  }

  /** The base lies in [0, 1], is 1 at `U = m` and 0 once `(U - m)^2 >= 9 s^2`. */
  lemma QuadBaseBounds(u: real, m: real, s: real)
    requires s != 0.0
    ensures 0.0 <= QuadBase(u, m, s) <= 1.0
    ensures u == m ==> QuadBase(u, m, s) == 1.0
    ensures Arith.Sq(u - m) >= 9.0 * Arith.Sq(s) ==> QuadBase(u, m, s) == 0.0
  {
    Arith.SqPos(s);
    Arith.SqNonNeg(u - m);
    RatioBounds(Arith.Sq(u - m), 9.0 * Arith.Sq(s));
  }

  /** The polynomial growth lies in [-1, 1], is 1 at `U = m` and -1 once
      `(U - m)^2 >= 9 s^2`. */
  lemma PolynomialQuadRange(u: real, m: real, s: real)
    requires s != 0.0
    ensures -1.0 <= PolynomialQuad(u, m, s) <= 1.0
    ensures u == m ==> PolynomialQuad(u, m, s) == 1.0
    ensures Arith.Sq(u - m) >= 9.0 * Arith.Sq(s) ==> PolynomialQuad(u, m, s) == -1.0
  {
    QuadBaseBounds(u, m, s);
    var y := QuadBase(u, m, s);
    Arith.SqUnit(y);
    Arith.SqUnit(Arith.Sq(y));
  }

  function Abs(x: real): real {
    if x < 0.0 then -x else x
  }

  /** `stepz(n, m, s)`: the mask `|n - m| <= s` (or'd with the truthy 2)
      minus 1, so the growth is 0 inside the band and -1 outside; it never
      reaches +1. */
  function Stepz(u: real, m: real, s: real): (g: real)
    ensures g == 0.0 <==> Abs(u - m) <= s
    ensures g == -1.0 <==> Abs(u - m) > s
  {
    (if Abs(u - m) <= s then 1.0 else 0.0) - 1.0
  }

  /** `growthFunctions`, by index `gn - 1`. */
  datatype Growth = Quad | Gauss | StepGrowth

  function SelectGrowth(gn: real): (g: Option<Growth>)
    ensures g.Some? <==> gn == 1.0 || gn == 2.0 || gn == 3.0
  {
    if gn == 1.0 then Some(Quad)
    else if gn == 2.0 then Some(Gauss)
    else if gn == 3.0 then Some(StepGrowth)
    else None
  }

  /** `clipByValue(x, 0, 1)`. */
  function Clamp(x: real): (c: real)
    ensures 0.0 <= c <= 1.0
    ensures 0.0 <= x <= 1.0 ==> c == x
    ensures x < 0.0 ==> c == 0.0
    ensures x > 1.0 ==> c == 1.0
  {
    if x < 0.0 then 0.0 else if x > 1.0 then 1.0 else x
  }

  // ---------------------------------------------------------------------
  // Parameters

  /** A parameter that holds a finite number. */
  predicate HasNumber(p: Params, key: string) {
    key in p && p[key].Num? && p[key].n.Finite?
  }

  function NumberOf(p: Params, key: string): real
    requires HasNumber(p, key)
  {
    p[key].n.v
  }

  /** `D.sqrt().div(R)` and the gather after it go through: `R` is a
      number, and not a finite negative one on a shape with a cell off the
      centre (those cells get a negative shell index). A zero, infinite or
      NaN `R` gives non-finite distances, which index validly. */
  predicate RadiusOk(shape: seq<nat>, p: Params)
    requires |shape| == 3
  {
    "R" in p && p["R"].Num? &&
    !(p["R"].n.Finite? && p["R"].n.v < 0.0 && (shape[0] > 1 || shape[1] > 1 || shape[2] > 1))
  }

  /** `generateKernel(shape, params)` completes: no axis is empty (the
      roll splits every axis), `R` divides the distances into valid shell
      indices, `kn` selects a core and `b` is a nonempty array. */
  predicate KernelBuilds(shape: seq<nat>, p: Params) {
    |shape| == 3 && shape[0] > 0 && shape[1] > 0 && shape[2] > 0 &&
    RadiusOk(shape, p) &&
    HasNumber(p, "kn") && SelectCore(NumberOf(p, "kn")).Some? &&
    "b" in p && p["b"].Numbers? && |p["b"].ns| >= 1
  }

  /** For a positive finite `R` the distance field `D / R` is non-negative,
      and then `KernelBuilds` is exactly the condition under which
      `GenerateKernel` on that field and the coefficients of `b` returns. */
  lemma KernelBuildsIsGeneration(shape: seq<nat>, p: Params, d: Grid<real>, bs: seq<real>, bump: real -> real)
    requires |shape| == 3 && Valid(d) && d.d0 == shape[0] && d.d1 == shape[1] && d.d2 == shape[2]
    requires forall i, j, k :: 0 <= i < d.d0 && 0 <= j < d.d1 && 0 <= k < d.d2 ==> d.cells[i][j][k] >= 0.0
    requires HasNumber(p, "R") && NumberOf(p, "R") > 0.0 && HasNumber(p, "kn")
    requires "b" in p && p["b"].Numbers? && |bs| == |p["b"].ns|
    ensures KernelBuilds(shape, p) <==> GenerateKernel(d, bs, NumberOf(p, "kn"), bump).Ok?
  {
    var kn := NumberOf(p, "kn");
    if KernelBuilds(shape, p) {
      ShellIndicesValidWhenNonNegative(d, bs, SelectCore(kn).value, bump);
    }
    if GenerateKernel(d, bs, kn, bump).Ok? {
      assert 0 <= ShellIndex(d.cells[0][0][0], |bs|) < |bs|;
    }
  }

  /** A distance field with a negative cell, which a finite negative `R`
      gives off the centre, makes `GenerateKernel` throw. */
  lemma NegativeDistanceThrows(d: Grid<real>, bs: seq<real>, kn: real, bump: real -> real, i: nat, j: nat, k: nat)
    requires Valid(d) && i < d.d0 && j < d.d1 && k < d.d2 && d.cells[i][j][k] < 0.0
    ensures GenerateKernel(d, bs, kn, bump).Err?
  {
    var x := d.cells[i][j][k];
    if |bs| > 0 {
      assert x * |bs| as real < 0.0;
      assert ShellIndex(x, |bs|) < 0;
    }
    assert !ShellIndicesValid(d, |bs|);
  }

  // ---------------------------------------------------------------------
  // State

  /** What `generateKernel` was last called with successfully. */
  datatype KernelSpec = KernelSpec(shape: seq<nat>, params: Params)

  /** What a call leads to: it returns, or it throws part-way through. */
  datatype Outcome = Completed | Threw(msg: string)

  /** What the engine cannot compute itself. `shrink` is `tf.pad` with
      negative padding, `unit(seed, t)` is the `t`-th draw in [0, 1) of the
      stream `seed` starts, `roundTenth` is `Number(x.toFixed(1))`. */
  datatype Env = Env(catalogue: seq<Entry>,
                     shrink: (Grid<real>, seq<nat>) -> Grid<real>,
                     unit: (int, nat) -> real,
                     roundTenth: real -> real)

  /** The supplied resize of a shrinking axis keeps the requested shape. */
  ghost predicate EnvOk(env: Env) {
    forall g: Grid<real>, size: seq<nat> :: |size| == 3 ==>
      var r := env.shrink(g, size);
      Valid(r) && r.d0 == size[0] && r.d1 == size[1] && r.d2 == size[2]
  }

  /** The engine's fields. `onParamChange` and `onStep` are true when set to
      `true` and false when `null` or never set; `None` is `null` or
      `undefined`. */
  datatype Snapshot = Snapshot(
    params: Params,
    shape: seq<nat>,
    genShape: seq<int>,
    generation: nat,
    time: real,
    grid: Grid<real>,
    kernel: KernelSpec,
    isRunning: bool,
    onParamChange: bool,
    onStep: bool,
    id: Option<int>,
    name: Option<string>,
    seed: Option<int>,
    bounds: Option<seq<nat>>,
    min: Option<real>,
    max: Option<real>,
    density: Option<real>)

  /** Three axes for the shape and the kernel, a well-shaped grid, and
      recorded bounds of rank 3. The grid's and the kernel's own shapes
      need not be the recorded shape: a call that throws half-way can leave
      them behind. */
  predicate Good(s: Snapshot) {
    |s.shape| == 3 && |s.kernel.shape| == 3 && Valid(s.grid) && (s.bounds.Some? ==> |s.bounds.value| == 3)
  }

  /** The shape of a grid tensor. */
  function Dims(g: Grid<real>): (r: seq<nat>)
    ensures |r| == 3 && r[0] == g.d0 && r[1] == g.d1 && r[2] == g.d2
  {
    [g.d0, g.d1, g.d2]
  }

  datatype Transition = Transition(state: Snapshot, outcome: Outcome)

  /** `shape.map(x => Math.floor(x * 0.8))`. */
  function GenShape(shape: seq<nat>): (g: seq<int>)
    ensures |g| == |shape|
    ensures forall i :: 0 <= i < |shape| ==> 0 <= g[i] <= shape[i]
  {
    seq(|shape|, i requires 0 <= i < |shape| => (shape[i] as real * 0.8).Floor)
  }

  /** `tf.zeros(shape)`. */
  function Zeros(shape: seq<nat>): (g: Grid<real>)
    requires |shape| == 3
    ensures Valid(g) && g.d0 == shape[0] && g.d1 == shape[1] && g.d2 == shape[2]
    ensures forall i, j, k :: 0 <= i < g.d0 && 0 <= j < g.d1 && 0 <= k < g.d2 ==> g.cells[i][j][k] == 0.0
  {
    Grid(shape[0], shape[1], shape[2], seq(shape[0], i =>
      seq(shape[1], j => seq(shape[2], k => 0.0))))
  }

  /** `resize(grid, size)` on a real tensor: padding where every axis grows,
      the supplied `tf.pad` behaviour otherwise. */
  function Fit(env: Env, g: Grid<real>, size: seq<nat>): (r: Grid<real>)
    requires EnvOk(env) && Valid(g) && |size| == 3
    ensures Valid(r) && r.d0 == size[0] && r.d1 == size[1] && r.d2 == size[2]
  {
    if Grows(g, size) then Resize(Real(g), size).r else env.shrink(g, size)
  }

  /** `tf.tensor(A)` infers its shape from the first entry at each depth, so
      a decoded pattern is a rank-3 tensor only when it has a plane and its
      planes have a row: with no planes it has rank 1 and with empty planes
      rank 2. */
  predicate RankThree(c: Cube) {
    |c| > 0 && MaxLen(c) > 0
  }

  /** `tf.tensor(A)` for a decoded pattern. */
  function ToGrid(c: Cube): (g: Grid<real>)
    requires IsBox(c, MaxLen(c), MaxRowLen(c))
    ensures Valid(g) && g.cells == c
  {
    Grid(|c|, MaxLen(c), MaxRowLen(c), c)
  }

  /** `random(size, bounds, min, max, density, seed)`: both uniform draws
      use the same seed, so they read the same unit draw `u` of each cell;
      a cell keeps `min + (max - min) u` when `u < density` and is 0
      otherwise, and the result is resized to `size`. */
  function RandomGrid(env: Env, size: seq<nat>, bounds: seq<nat>, lo: real, hi: real,
                      density: real, seed: int): (g: Grid<real>)
    requires EnvOk(env) && |size| == 3 && |bounds| == 3
    ensures Valid(g) && g.d0 == size[0] && g.d1 == size[1] && g.d2 == size[2]
  {
    var raw := Grid(bounds[0], bounds[1], bounds[2], seq(bounds[0], i requires 0 <= i < bounds[0] =>
      seq(bounds[1], j requires 0 <= j < bounds[1] =>
        seq(bounds[2], k requires 0 <= k < bounds[2] =>
          var u := env.unit(seed, (i * bounds[1] + j) * bounds[2] + k);
          if u < density then lo + (hi - lo) * u else 0.0))));
    Fit(env, raw, size)
  }

  // ---------------------------------------------------------------------
  // Transitions as functions of the state

  /** The engine right after `new LeniaEngine(params, shape)`. */
  function Start(params: Params, shape: seq<nat>): (s: Snapshot)
    requires |shape| == 3
    ensures Good(s)
  {
    Snapshot(params, shape, GenShape(shape), 0, 0.0, Zeros(shape), KernelSpec(shape, params),
             false, false, false, None, None, None, None, None, None, None)
  }

  /** `setShape(newShape)`: the shape and the resized grid are assigned
      before `generateKernel` runs. */
  function AfterSetShape(env: Env, s: Snapshot, newShape: seq<nat>): (t: Transition)
    requires EnvOk(env) && Good(s) && |newShape| == 3
    ensures Good(t.state)
  {
    var s1 := s.(shape := newShape, grid := Fit(env, s.grid, newShape));
    if KernelBuilds(newShape, s.params) then
      Transition(s1.(kernel := KernelSpec(newShape, s.params)), Completed)
    else Transition(s1, Threw("generateKernel threw"))
  }

  /** `setParams(newParams)`: the merge is assigned before `generateKernel`
      runs; `kernel.assign` then throws unless the kernel variable already
      has the recorded shape; `onParamChange` is raised only after both. */
  function AfterSetParams(env: Env, s: Snapshot, newParams: Params): (t: Transition)
    requires Good(s)
    ensures Good(t.state)
  {
    var merged := Merge(s.params, newParams);
    if !KernelBuilds(s.shape, merged) then Transition(s.(params := merged), Threw("generateKernel threw"))
    else if s.kernel.shape != s.shape then Transition(s.(params := merged), Threw("kernel.assign: shape mismatch"))
    else Transition(s.(params := merged, kernel := KernelSpec(s.shape, merged), onParamChange := true), Completed)
  }

  /** The counters a completed load starts from: generation and time
      zeroed, `onStep` raised when the engine is not running. */
  function Restarted(s: Snapshot): (r: Snapshot)
    ensures r.generation == 0 && r.time == 0.0 && r.onStep == !s.isRunning
  {
    s.(generation := 0, time := 0.0, onStep := !s.isRunning)
  }

  /** What `loadRandom` records before drawing: a seed when none is kept,
      the shape and the arguments. */
  function WithRandomArgs(s: Snapshot, size: seq<nat>, bounds: Option<seq<nat>>, lo: Option<real>,
                          hi: Option<real>, density: Option<real>, freshSeed: int): (r: Snapshot)
    ensures r.seed.Some?
  {
    var seed := if s.seed.None? then Some(freshSeed) else s.seed;
    s.(seed := seed, shape := size, bounds := bounds, min := lo, max := hi, density := density)
  }

  /** The part of `loadAnimal` after a pattern `p` was selected: id,
      seed and name are assigned before `setParams` runs, the grid and the
      counters after it returns. The selection carries no name, so `name`
      becomes `undefined`. */
  function AfterPattern(env: Env, s: Snapshot, p: Pattern): (t: Transition)
    requires EnvOk(env) && Good(s) && IsBox(p.tensor, MaxLen(p.tensor), MaxRowLen(p.tensor))
    ensures Good(t.state)
  {
    var t := AfterSetParams(env, s.(id := Some(p.id), seed := None, name := None), p.params);
    if t.outcome.Threw? then t
    else Placed(env, t.state, p.tensor)
  }

  /** The end of `loadAnimal`: the pattern resized to the engine's shape is
      assigned to the grid variable. A pattern tensor of rank below 3 has
      `undefined` axes, so the `resize` paddings are NaN and the assignment
      throws; it also throws unless the grid variable has the recorded
      shape. Otherwise the counters restart. */
  function Placed(env: Env, s: Snapshot, c: Cube): (t: Transition)
    requires EnvOk(env) && Good(s) && IsBox(c, MaxLen(c), MaxRowLen(c))
    ensures Good(t.state)
  {
    var fitted := Fit(env, ToGrid(c), s.shape);
    if !RankThree(c) then Transition(s, Threw("grid.assign: pattern tensor is not rank 3"))
    else if Dims(s.grid) != s.shape then Transition(s, Threw("grid.assign: shape mismatch"))
    else Transition(Restarted(s.(grid := fitted)), Completed)
  }

  /** `loadAnimal(animalID)`. Reading `.id` of an undefined selection
      throws before anything is assigned. */
  function AfterLoadAnimal(env: Env, s: Snapshot, animalID: int): (t: Transition)
    requires EnvOk(env) && Good(s)
    ensures Good(t.state)
  {
    match Selected(env.catalogue, animalID)
    case Err(e) => Transition(s, Threw(e))
    case Ok(None) => Transition(s, Threw("AnimalCode is undefined"))
    case Ok(Some(p)) =>
      AfterPattern(env, s, p)
  }

  /** `loadRandom(size, bounds, min, max, density)`. A seed is drawn only
      when none is kept; the arguments are recorded before the grid is
      drawn, which throws when `bounds` or `density` is undefined; an
      undefined `min` or `max` takes the defaults 0 and 1. */
  function AfterLoadRandom(env: Env, s: Snapshot, size: seq<nat>, bounds: Option<seq<nat>>,
                           lo: Option<real>, hi: Option<real>, density: Option<real>,
                           freshSeed: int): (t: Transition)
    requires EnvOk(env) && Good(s) && |size| == 3 && (bounds.Some? ==> |bounds.value| == 3)
    ensures Good(t.state)
  {
    var s1 := WithRandomArgs(s, size, bounds, lo, hi, density, freshSeed);
    if bounds.None? || density.None? then Transition(s1, Threw("randomUniform argument is undefined"))
    else
      var g := RandomGrid(env, size, bounds.value, if lo.Some? then lo.value else 0.0,
                          if hi.Some? then hi.value else 1.0, density.value, s1.seed.value);
      var s2 := s1.(grid := g);
      if !KernelBuilds(size, s.params) then Transition(s2, Threw("generateKernel threw"))
      else Transition(RandomStarted(s2), Completed)
  }

  /** The end of a completed `loadRandom`: the kernel for the new shape,
      no pattern id or name, and restarted counters. */
  function RandomStarted(s: Snapshot): (r: Snapshot)
    ensures r.kernel == KernelSpec(s.shape, s.params) && r.id.None? && r.name.None?
  {
    Restarted(s.(kernel := KernelSpec(s.shape, s.params), id := None, name := None))
  }

  /** `reset()`: a truthy id reloads that pattern; otherwise the random
      fill is redrawn from the recorded shape and arguments, drawing a fresh
      seed when none is kept (always, after `loadAnimal(0)`). */
  function AfterReset(env: Env, s: Snapshot, freshSeed: int): (t: Transition)
    requires EnvOk(env) && Good(s)
    ensures Good(t.state)
  {
    if s.id.Some? && s.id.value != 0 then AfterLoadAnimal(env, s, s.id.value)
    else AfterLoadRandom(env, s, s.shape, s.bounds, s.min, s.max, s.density, freshSeed)
  }

  /** `polynomialQuad(n, m, s)` of one cell in IEEE arithmetic: a NaN
      parameter, `m` and `s` both infinite, or `s = 0` at `n = m` give NaN;
      an infinite `m` puts every cell far outside the band (-1), an infinite
      `s` makes the band everything (1); otherwise the finite formula. */
  function QuadValue(u: real, m: Number, sd: Number): (r: Number)
    ensures r.NaN? <==> (m.NaN? || sd.NaN? || (m.Infinite? && sd.Infinite?) ||
      (m.Finite? && sd == Finite(0.0) && u == m.v))
    ensures r.Finite? ==> -1.0 <= r.v <= 1.0
    ensures m.Infinite? && sd.Finite? ==> r == Finite(-1.0)
    ensures m.Finite? && sd.Infinite? ==> r == Finite(1.0)
    ensures m.Finite? && sd.Finite? && sd.v != 0.0 ==> r == Finite(PolynomialQuad(u, m.v, sd.v))
  {
    if m.NaN? || sd.NaN? || (m.Infinite? && sd.Infinite?) then NaN
    else if m.Infinite? then Finite(-1.0)
    else if sd.Infinite? then Finite(1.0)
    else if sd.v == 0.0 then (if u == m.v then NaN else Finite(-1.0))
    else
      PolynomialQuadRange(u, m.v, sd.v);
      Finite(PolynomialQuad(u, m.v, sd.v))
  }

  /** `stepz(n, m, s)` of one cell in IEEE arithmetic: a comparison with
      NaN is false, so NaN parameters give -1; `|n - m|` is infinite for an
      infinite `m`, which only `s = Infinity` admits. */
  function StepzValue(u: real, m: Number, sd: Number): (g: real)
    ensures g == 0.0 || g == -1.0
    ensures m.Finite? && sd.Finite? ==> g == Stepz(u, m.v, sd.v)
    ensures m.NaN? || sd.NaN? || (sd.Infinite? && sd.negative) ==> g == -1.0
    ensures !m.NaN? && sd == Infinite(false) ==> g == 0.0
    ensures m.Infinite? && sd.Finite? ==> g == -1.0
  {
    match (m, sd)
    case (Finite(x), Finite(y)) => Stepz(u, x, y)
    case (Finite(_), Infinite(negative)) => if negative then -1.0 else 0.0
    case (Infinite(_), Infinite(negative)) => if negative then -1.0 else 0.0
    case _ => -1.0
  }

  /** The growth `g(U, m, s)` of one cell. */
  function GrowthValue(g: Growth, u: real, m: Number, sd: Number): (r: Number)
    requires g != Gauss
    ensures r.Finite? ==> -1.0 <= r.v <= 1.0
    ensures g == StepGrowth ==> r.Finite?
  {
    if g == Quad then QuadValue(u, m, sd) else Finite(StepzValue(u, m, sd))
  }

  /** The parameters `step` needs to get past the growth map: `gn` selects
      a growth function other than the gaussian (which calls `tf.mul` with
      one argument and throws) and `m`, `s` are numbers (any numbers, the
      IEEE special values included). */
  predicate GrowthRuns(p: Params) {
    HasNumber(p, "gn") && SelectGrowth(NumberOf(p, "gn")).Some? &&
    SelectGrowth(NumberOf(p, "gn")).value != Gauss &&
    "m" in p && p["m"].Num? && "s" in p && p["s"].Num?
  }

  function GrowthOf(p: Params): (g: Growth)
    requires GrowthRuns(p)
    ensures g != Gauss
  {
    SelectGrowth(NumberOf(p, "gn")).value
  }

  /** `T` is a number whose reciprocal `dt` is finite: not NaN and not 0
      (an infinite `T` gives `dt = 0`). */
  predicate TimeStepFinite(p: Params) {
    "T" in p && p["T"].Num? && !p["T"].n.NaN? && p["T"].n != Finite(0.0)
  }

  /** `dt = 1 / T`. */
  function Dt(p: Params): (dt: real)
    requires TimeStepFinite(p)
    ensures Divide(Finite(1.0), p["T"].n) == Finite(dt)
    ensures p["T"].n.Infinite? ==> dt == 0.0
  {
    Divide(Finite(1.0), p["T"].n).v
  }

  /** What the model represents: every new cell and the new time are real
      numbers. This needs a `T` that is a number other than 0 and NaN, and a
      growth that is not NaN at any cell of `u`; otherwise `dt`, the new
      grid or the time would be NaN or `Infinity`. */
  predicate StepComputable(p: Params, u: Grid<real>)
    requires Valid(u)
  {
    GrowthRuns(p) ==>
      TimeStepFinite(p) &&
      forall i, j, k :: 0 <= i < u.d0 && 0 <= j < u.d1 && 0 <= k < u.d2 ==>
        !GrowthValue(GrowthOf(p), u.cells[i][j][k], p["m"].n, p["s"].n).NaN?
  }

  /** One cell of `grid.add(field.mul(dt)).clipByValue(0, 1)`. */
  function StepCell(x: real, f: real, dt: real): (c: real)
    ensures 0.0 <= c <= 1.0
    ensures 0.0 <= x + f * dt <= 1.0 ==> c == x + f * dt
  {
    Clamp(x + f * dt)
  }

  /** `grid.add(field.mul(dt)).clipByValue(0, 1)`. */
  function StepGrid(grid: Grid<real>, u: Grid<real>, g: Growth, m: Number, sd: Number, dt: real): (r: Grid<real>)
    requires Valid(grid) && Valid(u) && SameShape(grid, u) && g != Gauss
    requires forall i, j, k :: 0 <= i < u.d0 && 0 <= j < u.d1 && 0 <= k < u.d2 ==>
      !GrowthValue(g, u.cells[i][j][k], m, sd).NaN?
    ensures Valid(r) && SameShape(r, grid)
    ensures forall i, j, k :: 0 <= i < grid.d0 && 0 <= j < grid.d1 && 0 <= k < grid.d2 ==>
      r.cells[i][j][k] == StepCell(grid.cells[i][j][k], GrowthValue(g, u.cells[i][j][k], m, sd).v, dt)
  {
    Grid(grid.d0, grid.d1, grid.d2, seq(grid.d0, i requires 0 <= i < grid.d0 =>
      seq(grid.d1, j requires 0 <= j < grid.d1 =>
        seq(grid.d2, k requires 0 <= k < grid.d2 =>
          StepCell(grid.cells[i][j][k], GrowthValue(g, u.cells[i][j][k], m, sd).v, dt)))))
  }

  /** `tf.mul(gridFFT, kernel)` broadcasts: on every axis the two sizes
      agree or one of them is 1. */
  predicate Broadcasts(kernel: seq<nat>, grid: seq<nat>)
    requires |kernel| == 3 && |grid| == 3
  {
    forall i :: 0 <= i < 3 ==> kernel[i] == grid[i] || kernel[i] == 1 || grid[i] == 1
  }

  /** The broadcast result has the grid's shape, so `grid.assign` accepts
      the new grid: on every axis the kernel's size is the grid's or 1. */
  predicate KernelFits(kernel: seq<nat>, grid: seq<nat>)
    requires |kernel| == 3 && |grid| == 3
  {
    forall i :: 0 <= i < 3 ==> kernel[i] == grid[i] || kernel[i] == 1
  }

  /** `step()` given the potential `u`: a throw inside the `tidy` block
      (operands that do not broadcast, a growth function that throws, or a
      new grid of another shape than the grid variable) changes nothing;
      otherwise the grid is replaced and the counters move. */
  function AfterStep(env: Env, s: Snapshot, u: Grid<real>): (t: Transition)
    requires Good(s) && Valid(u) && SameShape(u, s.grid) && StepComputable(s.params, u)
    ensures Good(t.state)
  {
    if !Broadcasts(s.kernel.shape, Dims(s.grid)) then Transition(s, Threw("tf.mul: operands could not be broadcast"))
    else if !GrowthRuns(s.params) then Transition(s, Threw("growth function threw"))
    else if !KernelFits(s.kernel.shape, Dims(s.grid)) then Transition(s, Threw("grid.assign: shape mismatch"))
    else
      var dt := Dt(s.params);
      var grid := StepGrid(s.grid, u, GrowthOf(s.params), s.params["m"].n, s.params["s"].n, dt);
      Transition(s.(grid := grid, generation := s.generation + 1, time := env.roundTenth(s.time + dt)), Completed)
  }

  // ---------------------------------------------------------------------
  // What the transitions promise

  /** `setParams` merges: keys of the argument overwrite, the others keep
      their values; shape, grid and counters are untouched; the kernel is
      regenerated and `onParamChange` raised exactly when generation
      completes and the kernel variable already has the recorded shape. */
  lemma SetParamsMerges(env: Env, s: Snapshot, p: Params)
    requires Good(s)
    ensures var t := AfterSetParams(env, s, p);
      t.state.params.Keys == s.params.Keys + p.Keys &&
      (forall k :: k in p ==> t.state.params[k] == p[k]) &&
      (forall k :: k in s.params && k !in p ==> t.state.params[k] == s.params[k]) &&
      t.state.shape == s.shape && t.state.grid == s.grid &&
      t.state.generation == s.generation && t.state.time == s.time &&
      (t.outcome.Completed? <==> KernelBuilds(s.shape, Merge(s.params, p)) && s.kernel.shape == s.shape) &&
      (t.outcome.Completed? ==> t.state.onParamChange && t.state.kernel == KernelSpec(s.shape, t.state.params)) &&
      (t.outcome.Threw? ==> t.state.onParamChange == s.onParamChange && t.state.kernel == s.kernel)
  {
  }

  /** A `setShape` whose kernel does not build, to a shape other than the
      kernel's, leaves the old kernel variable behind: every later
      `setParams` throws, even with parameters whose kernel builds. */
  lemma FailedSetShapeBlocksSetParams(env: Env, s: Snapshot, newShape: seq<nat>, p: Params)
    requires EnvOk(env) && Good(s) && |newShape| == 3
    requires !KernelBuilds(newShape, s.params) && newShape != s.kernel.shape
    ensures var t := AfterSetShape(env, s, newShape);
      t.outcome.Threw? && t.state.kernel == s.kernel &&
      AfterSetParams(env, t.state, p).outcome.Threw?
  {
  }

  /** A new engine holds a copy of its parameters and shape, a zero grid of
      that shape, zeroed counters, and is not running. */
  lemma StartFields(params: Params, shape: seq<nat>)
    requires |shape| == 3
    ensures var s := Start(params, shape);
      s.params == params && s.shape == shape && s.generation == 0 && s.time == 0.0 &&
      !s.isRunning && s.kernel == KernelSpec(shape, params) &&
      s.grid.d0 == shape[0] && s.grid.d1 == shape[1] && s.grid.d2 == shape[2] &&
      (forall i, j, k :: 0 <= i < shape[0] && 0 <= j < shape[1] && 0 <= k < shape[2] ==> s.grid.cells[i][j][k] == 0.0)
  {
  }

  /** `setShape` assigns the new shape and the resized grid whether or not
      the kernel then builds; a grid that grows on every axis keeps its data
      centred, with zeros around it. Parameters and counters are untouched. */
  lemma SetShapeEffects(env: Env, s: Snapshot, newShape: seq<nat>)
    requires EnvOk(env) && Good(s) && |newShape| == 3
    ensures var t := AfterSetShape(env, s, newShape);
      t.state.shape == newShape && t.state.params == s.params &&
      t.state.generation == s.generation && t.state.time == s.time &&
      t.state.grid.d0 == newShape[0] && t.state.grid.d1 == newShape[1] && t.state.grid.d2 == newShape[2] &&
      (Grows(s.grid, newShape) ==> PaddedFrom(t.state.grid, s.grid, ResizePadding(s.grid, newShape), 0.0)) &&
      (t.outcome.Completed? <==> KernelBuilds(newShape, s.params)) &&
      (t.outcome.Completed? ==> t.state.kernel == KernelSpec(newShape, s.params)) &&
      (t.outcome.Threw? ==> t.state.kernel == s.kernel)
  {
    if Grows(s.grid, newShape) {
      PadGridCells(s.grid, newShape, 0.0);
    }
  }

  /** `loadAnimal` completes exactly when the catalogue selects a pattern,
      its merged parameters build a kernel and both tensor variables have
      the recorded shape. A completed call records the pattern's id, clears
      the seed, zeroes the counters, merges the pattern's parameters and
      raises `onStep` exactly when not running. An id the catalogue does not
      select throws and changes nothing. */
  lemma LoadAnimalEffects(env: Env, s: Snapshot, animalID: int)
    requires EnvOk(env) && Good(s)
    ensures var t := AfterLoadAnimal(env, s, animalID);
      (Selected(env.catalogue, animalID) == Ok(None) ==> t == Transition(s, Threw("AnimalCode is undefined"))) &&
      (t.outcome.Completed? <==>
        Selected(env.catalogue, animalID).Ok? && Selected(env.catalogue, animalID).value.Some? &&
        KernelBuilds(s.shape, Merge(s.params, Selected(env.catalogue, animalID).value.value.params)) &&
        s.kernel.shape == s.shape && RankThree(Selected(env.catalogue, animalID).value.value.tensor) &&
        Dims(s.grid) == s.shape) &&
      (t.outcome.Completed? ==>
        var p := Selected(env.catalogue, animalID).value.value;
        t.state.id == Some(animalID) && t.state.seed.None? && t.state.name.None? &&
        t.state.generation == 0 && t.state.time == 0.0 &&
        t.state.params == Merge(s.params, p.params) && t.state.onStep == !s.isRunning &&
        t.state.shape == s.shape && t.state.grid == Fit(env, ToGrid(p.tensor), s.shape))
  {
    match Selected(env.catalogue, animalID)
    case Err(e) =>
    case Ok(None) =>
    case Ok(Some(p)) =>
  }

  /** `loadRandom` draws a seed only when none is kept, whether or not it
      then throws; a completed call records its arguments, clears id and
      name and zeroes the counters. */
  lemma LoadRandomEffects(env: Env, s: Snapshot, size: seq<nat>, bounds: seq<nat>,
                          lo: real, hi: real, density: real, freshSeed: int)
    requires EnvOk(env) && Good(s) && |size| == 3 && |bounds| == 3
    ensures var t := AfterLoadRandom(env, s, size, Some(bounds), Some(lo), Some(hi), Some(density), freshSeed);
      t.state.seed == (if s.seed.None? then Some(freshSeed) else s.seed) &&
      t.state.shape == size && t.state.bounds == Some(bounds) &&
      t.state.min == Some(lo) && t.state.max == Some(hi) && t.state.density == Some(density) &&
      (t.outcome.Completed? <==> KernelBuilds(size, s.params)) &&
      (t.outcome.Completed? ==>
        t.state.id.None? && t.state.name.None? && t.state.generation == 0 && t.state.time == 0.0 &&
        t.state.onStep == !s.isRunning && t.state.params == s.params &&
        t.state.grid == RandomGrid(env, size, bounds, lo, hi, density, t.state.seed.value))
  {
    var s1 := WithRandomArgs(s, size, Some(bounds), Some(lo), Some(hi), Some(density), freshSeed);
    var s2 := s1.(grid := RandomGrid(env, size, bounds, lo, hi, density, s1.seed.value));
    assert AfterLoadRandom(env, s, size, Some(bounds), Some(lo), Some(hi), Some(density), freshSeed) ==
      if KernelBuilds(size, s.params) then Transition(RandomStarted(s2), Completed)
      else Transition(s2, Threw("generateKernel threw"));
  }

  /** Id 0 is falsy: `reset` takes the random branch for it, exactly as when
      no pattern was loaded. */
  lemma ResetIdZeroIsRandom(env: Env, s: Snapshot, freshSeed: int)
    requires EnvOk(env) && Good(s) && (s.id == Some(0) || s.id.None?)
    ensures AfterReset(env, s, freshSeed) ==
      AfterLoadRandom(env, s, s.shape, s.bounds, s.min, s.max, s.density, freshSeed)
  {
  }

  /** The cells string "p" ends in a pending prefix letter, so the appended
      `%` is read as a value token and no plane is flushed: the pattern
      decodes to no planes, and placing it throws and changes nothing. */
  lemma PrefixOnlyPatternThrows(env: Env, s: Snapshot)
    requires EnvOk(env) && Good(s)
    ensures Decode("p") == Ok([])
    ensures Placed(env, s, []) == Transition(s, Threw("grid.assign: pattern tensor is not rank 3"))
  {
    DecodePrefixOnly();
  }

  /** `loadAnimal(0)` stores the falsy id 0 and clears the seed, so the next
      `reset` takes the random branch and draws a fresh seed. */
  lemma ResetAfterAnimalZeroDrawsSeed(env: Env, s: Snapshot, freshSeed: int)
    requires EnvOk(env) && Good(s)
    ensures var t := AfterLoadAnimal(env, s, 0);
      t.outcome.Completed? ==> AfterReset(env, t.state, freshSeed).state.seed == Some(freshSeed)
  {
    var t := AfterLoadAnimal(env, s, 0);
    if t.outcome.Completed? {
      LoadAnimalEffects(env, s, 0);
      ResetIdZeroIsRandom(env, t.state, freshSeed);
    }
  }

  /** A step completes exactly when the growth runs and the kernel's shape
      fits the grid's; then it keeps every cell in [0, 1], whatever the
      growth returned, adds `g(U) dt` to every cell the clip leaves alone,
      counts exactly one generation and advances the time by `dt` before
      rounding. A throwing step changes nothing. */
  lemma StepEffects(env: Env, s: Snapshot, u: Grid<real>)
    requires Good(s) && Valid(u) && SameShape(u, s.grid) && StepComputable(s.params, u)
    ensures var t := AfterStep(env, s, u);
      (t.outcome.Completed? <==> GrowthRuns(s.params) && KernelFits(s.kernel.shape, Dims(s.grid))) &&
      (t.outcome.Threw? ==> t.state == s) &&
      (t.outcome.Completed? ==>
        t.state.generation == s.generation + 1 && SameShape(t.state.grid, s.grid) &&
        t.state.params == s.params && t.state.shape == s.shape && t.state.kernel == s.kernel &&
        t.state.time == env.roundTenth(s.time + Dt(s.params)) &&
        forall i, j, k :: 0 <= i < s.grid.d0 && 0 <= j < s.grid.d1 && 0 <= k < s.grid.d2 ==>
          var x := s.grid.cells[i][j][k];
          var y := x + GrowthValue(GrowthOf(s.params), u.cells[i][j][k], s.params["m"].n, s.params["s"].n).v * Dt(s.params);
          0.0 <= t.state.grid.cells[i][j][k] <= 1.0 && (0.0 <= y <= 1.0 ==> t.state.grid.cells[i][j][k] == y))
  {
  }

  // ---------------------------------------------------------------------
  // The engine object

  class Engine {
    var params: Params
    var shape: seq<nat>
    var genShape: seq<int>
    var generation: nat
    var time: real
    var grid: Grid<real>
    var kernel: KernelSpec
    var isRunning: bool
    var onParamChange: bool
    var onStep: bool
    var id: Option<int>
    var name: Option<string>
    var seed: Option<int>
    var bounds: Option<seq<nat>>
    var min: Option<real>
    var max: Option<real>
    var density: Option<real>
    const env: Env

    function State(): Snapshot
      reads this
    {
      Snapshot(params, shape, genShape, generation, time, grid, kernel, isRunning, onParamChange,
               onStep, id, name, seed, bounds, min, max, density)
    }

    ghost predicate Ok()
      reads this
    {
      Good(State())
    }

    /** `new LeniaEngine(params, shape)`; a kernel that cannot be generated
        leaves no engine behind. */
    constructor(params0: Params, shape0: seq<nat>, env0: Env)
      requires EnvOk(env0) && |shape0| == 3 && KernelBuilds(shape0, params0)
      ensures EnvOk(env) && Ok() && env == env0
      ensures State() == Start(params0, shape0)
    {
      params := params0;
      shape := shape0;
      genShape := GenShape(shape0);
      generation := 0;
      time := 0.0;
      grid := Zeros(shape0);
      isRunning := false;
      kernel := KernelSpec(shape0, params0);
      onParamChange, onStep := false, false;
      id, name, seed := None, None, None;
      bounds, min, max, density := None, None, None, None;
      env := env0;
    }

    method SetShape(newShape: seq<nat>) returns (o: Outcome)
      requires EnvOk(env) && Ok() && |newShape| == 3
      modifies this
      ensures Ok()
      ensures Transition(State(), o) == AfterSetShape(env, old(State()), newShape)
    {
      ghost var s0 := State();
      var fitted := Fit(env, grid, newShape);
      shape, grid := newShape, fitted;
      assert State() == s0.(shape := newShape, grid := fitted);
      if !KernelBuilds(newShape, params) {
        return Threw("generateKernel threw");
      }
      kernel := KernelSpec(newShape, params);
      assert State() == s0.(shape := newShape, grid := fitted, kernel := KernelSpec(newShape, s0.params));
      o := Completed;
    }

    method SetParams(newParams: Params) returns (o: Outcome)
      requires Ok()
      modifies this
      ensures Ok()
      ensures Transition(State(), o) == AfterSetParams(env, old(State()), newParams)
    {
      params := Merge(params, newParams);
      if !KernelBuilds(shape, params) {
        return Threw("generateKernel threw");
      }
      if kernel.shape != shape {
        return Threw("kernel.assign: shape mismatch");
      }
      kernel, onParamChange := KernelSpec(shape, params), true;
      o := Completed;
    }

    method LoadAnimal(animalID: int) returns (o: Outcome)
      requires EnvOk(env) && Ok()
      modifies this
      ensures Ok()
      ensures Transition(State(), o) == AfterLoadAnimal(env, old(State()), animalID)
    {
      var code := SelectAnimalID(env.catalogue, animalID);
      if code.Err? {
        return Threw(code.msg);
      }
      if code.value.None? {
        return Threw("AnimalCode is undefined");
      }
      o := LoadPattern(code.value.value);
    }

    /** `loadAnimal` once the pattern is selected. */
    method LoadPattern(p: Pattern) returns (o: Outcome)
      requires EnvOk(env) && Ok() && IsBox(p.tensor, MaxLen(p.tensor), MaxRowLen(p.tensor))
      modifies this
      ensures Ok()
      ensures Transition(State(), o) == AfterPattern(env, old(State()), p)
    {
      ghost var s0 := State();
      id, seed, name := Some(p.id), None, None;
      assert State() == s0.(id := Some(p.id), seed := None, name := None);
      o := SetParams(p.params);
      if o.Threw? {
        return;
      }
      o := Place(p.tensor);
    }

    /** The assignments after the parameters of a pattern are set. */
    method Place(c: Cube) returns (o: Outcome)
      requires EnvOk(env) && Ok() && IsBox(c, MaxLen(c), MaxRowLen(c))
      modifies this
      ensures Ok()
      ensures Transition(State(), o) == Placed(env, old(State()), c)
    {
      var fitted := Fit(env, ToGrid(c), shape);
      if !RankThree(c) {
        return Threw("grid.assign: pattern tensor is not rank 3");
      }
      if Dims(grid) != shape {
        return Threw("grid.assign: shape mismatch");
      }
      grid := fitted;
      Restart();
      o := Completed;
    }

    /** The counters of a completed load. */
    method Restart()
      requires Ok()
      modifies this
      ensures Ok()
      ensures State() == Restarted(old(State()))
    {
      generation, time, onStep := 0, 0.0, !isRunning;
    }

    /** The arguments `loadRandom` records before drawing. */
    method RecordRandomArgs(size: seq<nat>, bounds0: Option<seq<nat>>, min0: Option<real>,
                            max0: Option<real>, density0: Option<real>, freshSeed: int)
      requires Ok() && |size| == 3 && (bounds0.Some? ==> |bounds0.value| == 3)
      modifies this
      ensures Ok()
      ensures State() == WithRandomArgs(old(State()), size, bounds0, min0, max0, density0, freshSeed)
    {
      ghost var s0 := State();
      var kept := if seed.None? then Some(freshSeed) else seed;
      seed, shape, bounds, min, max, density := kept, size, bounds0, min0, max0, density0;
      assert State() == s0.(seed := kept, shape := size, bounds := bounds0, min := min0, max := max0, density := density0);
    }

    /** The shared body of `loadRandom`, with the arguments as they arrive
        (`reset` passes the recorded, possibly undefined, ones). */
    method LoadRandomWith(size: seq<nat>, bounds0: Option<seq<nat>>, min0: Option<real>,
                          max0: Option<real>, density0: Option<real>, freshSeed: int) returns (o: Outcome)
      requires EnvOk(env) && Ok() && |size| == 3 && (bounds0.Some? ==> |bounds0.value| == 3)
      modifies this
      ensures Ok()
      ensures Transition(State(), o) ==
        AfterLoadRandom(env, old(State()), size, bounds0, min0, max0, density0, freshSeed)
    {
      RecordRandomArgs(size, bounds0, min0, max0, density0, freshSeed);
      if bounds0.None? || density0.None? {
        return Threw("randomUniform argument is undefined");
      }
      var lo := if min0.Some? then min0.value else 0.0;
      var hi := if max0.Some? then max0.value else 1.0;
      grid := RandomGrid(env, size, bounds0.value, lo, hi, density0.value, seed.value);
      if !KernelBuilds(shape, params) {
        return Threw("generateKernel threw");
      }
      StartRandom();
      o := Completed;
    }

    /** The assignments after the kernel of a random fill is generated. */
    method StartRandom()
      requires Ok()
      modifies this
      ensures Ok()
      ensures State() == RandomStarted(old(State()))
    {
      kernel, id, name := KernelSpec(shape, params), None, None;
      Restart();
    }

    method LoadRandom(size: seq<nat>, bounds0: seq<nat>, min0: real, max0: real, density0: real,
                      freshSeed: int) returns (o: Outcome)
      requires EnvOk(env) && Ok() && |size| == 3 && |bounds0| == 3
      modifies this
      ensures Ok()
      ensures Transition(State(), o) ==
        AfterLoadRandom(env, old(State()), size, Some(bounds0), Some(min0), Some(max0), Some(density0), freshSeed)
    {
      o := LoadRandomWith(size, Some(bounds0), Some(min0), Some(max0), Some(density0), freshSeed);
    }

    method Reset(freshSeed: int) returns (o: Outcome)
      requires EnvOk(env) && Ok()
      modifies this
      ensures Ok()
      ensures Transition(State(), o) == AfterReset(env, old(State()), freshSeed)
    {
      if id.Some? && id.value != 0 {
        o := LoadAnimal(id.value);
      } else {
        o := LoadRandomWith(shape, bounds, min, max, density, freshSeed);
      }
    }

    /** `step()` with the potential `u` the convolution would produce. */
    method Step(u: Grid<real>) returns (o: Outcome)
      requires Ok() && Valid(u) && SameShape(u, grid) && StepComputable(params, u)
      modifies this
      ensures Ok()
      ensures Transition(State(), o) == AfterStep(env, old(State()), u)
    {
      if !Broadcasts(kernel.shape, Dims(grid)) {
        return Threw("tf.mul: operands could not be broadcast");
      }
      if !GrowthRuns(params) {
        return Threw("growth function threw");
      }
      if !KernelFits(kernel.shape, Dims(grid)) {
        return Threw("grid.assign: shape mismatch");
      }
      var dt := Dt(params);
      grid := StepGrid(grid, u, GrowthOf(params), params["m"].n, params["s"].n, dt);
      generation := generation + 1;
      time := env.roundTenth(time + dt);
      o := Completed;
    }
  }
}
