/** Index operations on rank-3 tensors: cyclic roll along axes, centred
    resize by padding, and zoom by element repetition. */
module GridUtils {
  import opened Wrappers
  import opened SeqUtil
  import opened Arith

  /** A rank-3 tensor: its shape and its cells, outermost axis first. */
  datatype Grid<T> = Grid(d0: nat, d1: nat, d2: nat, cells: seq<seq<seq<T>>>)

  /** The cells have exactly the recorded shape. */
  predicate Valid<T>(g: Grid<T>) {
    |g.cells| == g.d0 &&
    (forall i :: 0 <= i < g.d0 ==> |g.cells[i]| == g.d1) &&
    (forall i, j :: 0 <= i < g.d0 && 0 <= j < g.d1 ==> |g.cells[i][j]| == g.d2)
  }

  predicate SameShape<T, U>(a: Grid<T>, b: Grid<U>) {
    a.d0 == b.d0 && a.d1 == b.d1 && a.d2 == b.d2
  }

  /** `grid.shape[axis]`. */
  function Dim<T>(g: Grid<T>, axis: nat): nat
    requires axis < 3
  {
    if axis == 0 then g.d0 else if axis == 1 then g.d1 else g.d2
  }

  /** Two valid tensors of the same shape with the same cells are equal. */
  lemma GridExt<T>(x: Grid<T>, y: Grid<T>)
    requires Valid(x) && Valid(y) && SameShape(x, y)
    requires forall i, j, k :: 0 <= i < x.d0 && 0 <= j < x.d1 && 0 <= k < x.d2 ==>
      x.cells[i][j][k] == y.cells[i][j][k]
    ensures x == y
  {
    forall i | 0 <= i < x.d0
      ensures x.cells[i] == y.cells[i]
    {
      forall j | 0 <= j < x.d1
        ensures x.cells[i][j] == y.cells[i][j]
      {
      }
    }
  }

  // ---------------------------------------------------------------------
  // `roll`

  /** `((shift % size) + size) % size`, which lies in [0, size). */
  function EffectiveShift(shift: int, size: int): (e: nat)
    requires size > 0
    ensures e < size
  {
    JsRem(JsRem(shift, size) + size, size)
  }

  /** The effective shift is the Euclidean residue of the shift, for
      negative shifts too. */
  lemma EffectiveShiftIsMod(shift: int, size: int)
    requires size > 0
    ensures EffectiveShift(shift, size) == shift % size
  {
    var x := JsRem(shift, size);
    var t := x + size;
    assert 0 < t < 2 * size;
    assert (t - shift) % size == 0 by {
      var k := (shift - x) / size;
      assert shift - x == k * size;
      ModUnique(t - shift, size, 1 - k, 0);
    }
    ModCongruent(t, shift, size);
  }

  /** The effective shift of `-s` undoes that of `s`. */
  lemma EffectiveShiftNeg(s: int, n: int)
    requires n > 0
    ensures var e := EffectiveShift(s, n);
      EffectiveShift(-s, n) == if e == 0 then 0 else n - e
  {
    EffectiveShiftIsMod(s, n);
    EffectiveShiftIsMod(-s, n);
    NegMod(s, n);
  }

  /** The position whose entry lands at `i` when a length-`n` axis is rolled by `e`. */
  function Back(i: int, e: int, n: int): int {
    if i >= e then i - e else i - e + n
  }

  /** `tf.concat([b, a])` after `tf.split` at `n - e`: the last `e` entries
      move to the front. */
  function RollSeq<T>(s: seq<T>, e: nat): (r: seq<T>)
    requires e < |s| || e == 0
    ensures |r| == |s|
    ensures forall i :: 0 <= i < |s| ==> r[i] == s[Back(i, e, |s|)]
  {
    if e == 0 then s else s[|s| - e..] + s[..|s| - e]
  }

  /** The position arithmetic of `Back` is subtraction modulo `n`. */
  lemma BackIsMod(i: int, e: int, n: int)
    requires 0 <= i < n && 0 <= e < n
    ensures Back(i, e, n) == (i - e) % n
    ensures 0 <= Back(i, e, n) < n
  {
  }

  /** Rolling by `e` moves entry `i` to `(i + e) mod n`. */
  lemma RollSeqForward<T>(s: seq<T>, e: nat, i: nat)
    requires e < |s| && i < |s|
    ensures (i + e) % |s| < |s|
    ensures RollSeq(s, e)[(i + e) % |s|] == s[i]
  {
    var n := |s|;
    var j := (i + e) % n;
    if i + e < n {
      assert j == i + e;
    } else {
      assert j == i + e - n;
    }
    assert Back(j, e, n) == i;
  }

  /** Rolling by `e` and then by `n - e` restores the sequence. */
  lemma RollSeqInverse<T>(s: seq<T>, e: nat)
    requires 0 < e < |s|
    ensures RollSeq(RollSeq(s, e), |s| - e) == s
  {
    var n := |s|;
    var r := RollSeq(RollSeq(s, e), n - e);
    forall i | 0 <= i < n
      ensures r[i] == s[i]
    {
      assert Back(Back(i, n - e, n), e, n) == i;
    }
  }

  /** The coordinate along axis `which` that the roll of `axis` reads from. */
  function Src(axis: nat, e: nat, n: nat, which: nat, x: int): int {
    if which == axis then Back(x, e, n) else x
  }

  /** The cell of `g` that lands at `(i, j, k)` when `axis` is rolled by `e`. */
  predicate RolledFrom<T(==)>(r: Grid<T>, g: Grid<T>, axis: nat, e: nat)
    requires Valid(r) && Valid(g) && SameShape(r, g) && axis < 3 && e < Dim(g, axis)
  {
    forall i, j, k :: 0 <= i < g.d0 && 0 <= j < g.d1 && 0 <= k < g.d2 ==>
      r.cells[i][j][k] == g.cells[Src(axis, e, g.d0, 0, i)][Src(axis, e, g.d1, 1, j)][Src(axis, e, g.d2, 2, k)]
  }

  /** The cells of `g` rolled along `axis` by `e`. */
  function RollCells<T(==)>(g: Grid<T>, axis: nat, e: nat): (r: Grid<T>)
    requires Valid(g) && axis < 3 && e < Dim(g, axis)
    ensures Valid(r) && SameShape(r, g) && RolledFrom(r, g, axis, e)
  {
    if axis == 0 then
      g.(cells := RollSeq(g.cells, e))
    else if axis == 1 then
      g.(cells := seq(g.d0, i requires 0 <= i < g.d0 => RollSeq(g.cells[i], e)))
    else
      g.(cells := seq(g.d0, i requires 0 <= i < g.d0 =>
        seq(g.d1, j requires 0 <= j < g.d1 => RollSeq(g.cells[i][j], e))))
  }

  /** One axis of `roll`. An axis outside [0, 3) or of size 0 has no
      usable split sizes, and `tf.split` throws. */
  function RollAxis<T(==)>(g: Grid<T>, axis: int, shift: int): (r: Result<Grid<T>>)
    requires Valid(g)
    ensures r.Ok? <==> 0 <= axis < 3 && Dim(g, axis) > 0
    ensures r.Ok? ==> (Valid(r.value) && SameShape(r.value, g) &&
      RolledFrom(r.value, g, axis, EffectiveShift(shift, Dim(g, axis))))
  {
    if !(0 <= axis < 3) then Err("invalid axis")
    else if Dim(g, axis) == 0 then Err("sizes must sum to the axis size")
    else
      var e := EffectiveShift(shift, Dim(g, axis));
      if e == 0 then
        assert forall x, n, w :: 0 <= x ==> Src(axis, 0, n, w, x) == x;
        Ok(g)
      else Ok(RollCells(g, axis, e))
  }

  /** `roll(grid, axes, shifts)`: the axes rolled one after another, in
      the listed order. A missing shift is `undefined`, which makes the
      split sizes NaN. */
  function RollAll<T(==)>(g: Grid<T>, axes: seq<int>, shifts: seq<int>): (r: Result<Grid<T>>)
    requires Valid(g)
    ensures r.Ok? ==> Valid(r.value) && SameShape(r.value, g)
    decreases |axes|
  {
    if axes == [] then Ok(g)
    else match RollAll(g, axes[..|axes| - 1], shifts)
      case Err(e) => Err(e)
      case Ok(prev) =>
        if |axes| - 1 < |shifts| then RollAxis(prev, axes[|axes| - 1], shifts[|axes| - 1])
        else Err("sizes must sum to the axis size")
  }

  /** Once an axis has failed, the remaining axes do not matter. */
  lemma {:induction false} RollAllErrStays<T>(g: Grid<T>, axes: seq<int>, shifts: seq<int>, i: nat)
    requires Valid(g) && i <= |axes|
    requires RollAll(g, axes[..i], shifts).Err?
    ensures RollAll(g, axes, shifts) == RollAll(g, axes[..i], shifts)
    decreases |axes| - i
  {
    if i < |axes| {
      assert axes[..i + 1][..i] == axes[..i];
      RollAllErrStays(g, axes, shifts, i + 1);
    } else {
      assert axes[..i] == axes;
    }
  }

  /** `roll` as the source runs it: `result` is reassigned once per axis. */
  method Roll<T(==)>(grid: Grid<T>, axes: seq<int>, shifts: seq<int>) returns (r: Result<Grid<T>>)
    requires Valid(grid)
    ensures r == RollAll(grid, axes, shifts)
  {
    var result := grid;
    var i := 0;
    while i < |axes|
      invariant 0 <= i <= |axes|
      invariant RollAll(grid, axes[..i], shifts) == Ok(result)
    {
      assert axes[..i + 1][..i] == axes[..i];
      var step: Result<Grid<T>>;
      if i < |shifts| {
        step := RollAxis(result, axes[i], shifts[i]);
      } else {
        step := Err("sizes must sum to the axis size");
      }
      if step.Err? {
        RollAllErrStays(grid, axes, shifts, i + 1);
        return step;
      }
      result := step.value;
      i := i + 1;
    }
    assert axes[..i] == axes;
    r := Ok(result);
  }

  /** Rolls along two different axes commute. */
  lemma RollAxesCommute<T>(g: Grid<T>, a: nat, s: int, b: nat, t: int)
    requires Valid(g) && a < 3 && b < 3 && a != b && Dim(g, a) > 0 && Dim(g, b) > 0
    ensures RollAxis(g, a, s).Ok? && RollAxis(g, b, t).Ok?
    ensures RollAxis(RollAxis(g, a, s).value, b, t) == RollAxis(RollAxis(g, b, t).value, a, s)
  {
    var ea, eb := EffectiveShift(s, Dim(g, a)), EffectiveShift(t, Dim(g, b));
    if ea != 0 && eb != 0 {
      if a < b {
        RollCellsCommute(g, a, ea, b, eb);
      } else {
        RollCellsCommute(g, b, eb, a, ea);
      }
    }
  }

  /** Rolling the cells along axis `a` and then along a later axis `b`
      gives what the opposite order gives. */
  lemma RollCellsCommute<T>(g: Grid<T>, a: nat, ea: nat, b: nat, eb: nat)
    requires Valid(g) && a < b < 3 && 0 < ea < Dim(g, a) && 0 < eb < Dim(g, b)
    ensures RollCells(RollCells(g, a, ea), b, eb) == RollCells(RollCells(g, b, eb), a, ea)
  {
    var x := RollCells(RollCells(g, a, ea), b, eb);
    var y := RollCells(RollCells(g, b, eb), a, ea);
    if a == 0 && b == 1 {
      forall i | 0 <= i < g.d0 ensures x.cells[i] == y.cells[i] {
        var i1 := Back(i, ea, g.d0);
        assert x.cells[i] == RollSeq(g.cells[i1], eb);
      }
    } else if a == 0 {
      forall i | 0 <= i < g.d0 ensures x.cells[i] == y.cells[i] {
        var i1 := Back(i, ea, g.d0);
        forall j | 0 <= j < g.d1 ensures x.cells[i][j] == y.cells[i][j] {
          assert x.cells[i][j] == RollSeq(g.cells[i1][j], eb);
        }
      }
    } else {
      forall i | 0 <= i < g.d0 ensures x.cells[i] == y.cells[i] {
        forall j | 0 <= j < g.d1 ensures x.cells[i][j] == y.cells[i][j] {
          var j1 := Back(j, ea, g.d1);
          assert x.cells[i][j] == RollSeq(g.cells[i][j1], eb);
        }
      }
    }
  }

  /** Rolling an axis by `s` and then by `-s` restores the tensor. */
  lemma RollAxisInverse<T>(g: Grid<T>, a: nat, s: int)
    requires Valid(g) && a < 3 && Dim(g, a) > 0
    ensures RollAxis(g, a, s).Ok?
    ensures RollAxis(RollAxis(g, a, s).value, a, -s) == Ok(g)
  {
    var n := Dim(g, a);
    var e := EffectiveShift(s, n);
    EffectiveShiftNeg(s, n);
    if e != 0 {
      RollCellsInverse(g, a, e);
    }
  }

  /** Rolling cells by `e` and then by `n - e` restores them. */
  lemma RollCellsInverse<T>(g: Grid<T>, a: nat, e: nat)
    requires Valid(g) && a < 3 && 0 < e < Dim(g, a)
    ensures RollCells(RollCells(g, a, e), a, Dim(g, a) - e) == g
  {
    var x := RollCells(RollCells(g, a, e), a, Dim(g, a) - e);
    if a == 0 {
      RollSeqInverse(g.cells, e);
    } else if a == 1 {
      forall i | 0 <= i < g.d0 ensures x.cells[i] == g.cells[i] {
        RollSeqInverse(g.cells[i], e);
      }
    } else {
      forall i | 0 <= i < g.d0 ensures x.cells[i] == g.cells[i] {
        forall j | 0 <= j < g.d1 ensures x.cells[i][j] == g.cells[i][j] {
          RollSeqInverse(g.cells[i][j], e);
        }
      }
    }
  }

  /** A shift that is a multiple of the axis size changes nothing. */
  lemma RollAxisFullTurn<T>(g: Grid<T>, a: nat, s: int)
    requires Valid(g) && a < 3 && Dim(g, a) > 0 && s % Dim(g, a) == 0
    ensures RollAxis(g, a, s) == Ok(g)
  {
    EffectiveShiftIsMod(s, Dim(g, a));
  }

  /** Rolling all three axes: each cell is read from the position each
      axis's roll takes it from. */
  lemma RollAllThree<T>(g: Grid<T>, s0: int, s1: int, s2: int)
    requires Valid(g) && g.d0 > 0 && g.d1 > 0 && g.d2 > 0
    ensures RollAll(g, [0, 1, 2], [s0, s1, s2]).Ok?
    ensures var r := RollAll(g, [0, 1, 2], [s0, s1, s2]).value;
      var e0, e1, e2 := EffectiveShift(s0, g.d0), EffectiveShift(s1, g.d1), EffectiveShift(s2, g.d2);
      forall i, j, k :: 0 <= i < g.d0 && 0 <= j < g.d1 && 0 <= k < g.d2 ==>
        r.cells[i][j][k] == g.cells[Back(i, e0, g.d0)][Back(j, e1, g.d1)][Back(k, e2, g.d2)]
  {
    var shifts := [s0, s1, s2];
    var r1 := RollAxis(g, 0, s0).value;
    var r2 := RollAxis(r1, 1, s1).value;
    var r3 := RollAxis(r2, 2, s2).value;
    RollAllSnoc(g, [0], shifts, g);
    RollAllSnoc(g, [0, 1], shifts, r1);
    RollAllSnoc(g, [0, 1, 2], shifts, r2);
    RolledThree(g, r1, r2, r3, EffectiveShift(s0, g.d0), EffectiveShift(s1, g.d1), EffectiveShift(s2, g.d2));
  }

  /** One more axis of `roll`, once the earlier ones have succeeded. */
  lemma RollAllSnoc<T>(g: Grid<T>, axes: seq<int>, shifts: seq<int>, prev: Grid<T>)
    requires Valid(g) && 0 < |axes| <= |shifts|
    requires RollAll(g, axes[..|axes| - 1], shifts) == Ok(prev)
    ensures Valid(prev)
    ensures RollAll(g, axes, shifts) == RollAxis(prev, axes[|axes| - 1], shifts[|axes| - 1])
  {
  }

  /** Three successive rolls of axes 0, 1 and 2. */
  lemma RolledThree<T>(g: Grid<T>, r1: Grid<T>, r2: Grid<T>, r3: Grid<T>, e0: nat, e1: nat, e2: nat)
    requires Valid(g) && Valid(r1) && Valid(r2) && Valid(r3)
    requires SameShape(r1, g) && SameShape(r2, g) && SameShape(r3, g)
    requires e0 < g.d0 && e1 < g.d1 && e2 < g.d2
    requires RolledFrom(r1, g, 0, e0) && RolledFrom(r2, r1, 1, e1) && RolledFrom(r3, r2, 2, e2)
    ensures forall i, j, k :: 0 <= i < g.d0 && 0 <= j < g.d1 && 0 <= k < g.d2 ==>
      r3.cells[i][j][k] == g.cells[Back(i, e0, g.d0)][Back(j, e1, g.d1)][Back(k, e2, g.d2)]
  {
    forall i, j, k | 0 <= i < g.d0 && 0 <= j < g.d1 && 0 <= k < g.d2
      ensures r3.cells[i][j][k] == g.cells[Back(i, e0, g.d0)][Back(j, e1, g.d1)][Back(k, e2, g.d2)]
    {
      var k1 := Back(k, e2, g.d2);
      var j1 := Back(j, e1, g.d1);
      var i1 := Back(i, e0, g.d0);
      RolledFromAt(r3, r2, 2, e2, i, j, k);
      RolledFromAt(r2, r1, 1, e1, i, j, k1);
      RolledFromAt(r1, g, 0, e0, i, j1, k1);
    }
  }

  /** `RolledFrom` at one cell. */
  lemma RolledFromAt<T>(r: Grid<T>, g: Grid<T>, axis: nat, e: nat, i: int, j: int, k: int)
    requires Valid(r) && Valid(g) && SameShape(r, g) && axis < 3 && e < Dim(g, axis)
    requires RolledFrom(r, g, axis, e)
    requires 0 <= i < g.d0 && 0 <= j < g.d1 && 0 <= k < g.d2
    ensures r.cells[i][j][k] == g.cells[Src(axis, e, g.d0, 0, i)][Src(axis, e, g.d1, 1, j)][Src(axis, e, g.d2, 2, k)]
  {
  }

  /** Rolling axes [0, 1, 2] succeeds exactly when no axis is empty. */
  lemma RollAllThreeOk<T>(g: Grid<T>, s0: int, s1: int, s2: int)
    requires Valid(g)
    ensures RollAll(g, [0, 1, 2], [s0, s1, s2]).Ok? <==> g.d0 > 0 && g.d1 > 0 && g.d2 > 0
  {
    var axes: seq<int> := [0, 1, 2];
    var shifts := [s0, s1, s2];
    assert axes[..0] == [] && axes[..1] == [0] && axes[..2] == [0, 1] && axes[..3] == axes;
    if g.d0 == 0 {
      assert RollAll(g, axes[..1], shifts).Err?;
      RollAllErrStays(g, axes, shifts, 1);
    } else {
      var r1 := RollAxis(g, 0, s0).value;
      assert RollAll(g, axes[..1], shifts) == Ok(r1);
      if g.d1 == 0 {
        assert RollAll(g, axes[..2], shifts).Err?;
        RollAllErrStays(g, axes, shifts, 2);
      } else {
        var r2 := RollAxis(r1, 1, s1).value;
        assert RollAll(g, axes[..2], shifts) == Ok(r2);
        assert RollAll(g, axes, shifts) == RollAxis(r2, 2, s2);
      }
    }
  }

  // ---------------------------------------------------------------------
  // `resize`

  /** The padding of one axis: cells added before and after (removed when
      negative). */
  datatype Pad = Pad(before: int, after: int)

  /** `[Math.floor(x / 2), Math.floor(x / 2) + Math.abs(x % 2)]` for an axis
      whose size changes by `delta`. The two amounts add up to the change;
      an odd change puts its extra cell at the high end when growing and
      takes it from the low end when shrinking. */
  function AxisPadding(delta: int): (p: Pad)
    ensures p.before + p.after == delta
    ensures p.after - p.before == if delta % 2 == 0 then 0 else 1
    ensures delta >= 0 ==> p.before >= 0 && p.after >= 0
    ensures delta <= 0 ==> p.before <= 0 && p.after <= 0
  {
    var half := (delta as real / 2.0).Floor;
    var error := Abs(JsRem(delta, 2));
    assert delta == 2 * half + error;
    Pad(half, half + error)
  }

  /** The padding list `resize(grid, size)` hands to `tf.pad`. */
  function ResizePadding<T>(g: Grid<T>, size: seq<int>): (p: seq<Pad>)
    requires |size| == 3
    ensures |p| == 3
    ensures forall a :: 0 <= a < 3 ==> Dim(g, a) + p[a].before + p[a].after == size[a]
  {
    seq(3, a requires 0 <= a < 3 => AxisPadding(size[a] - Dim(g, a)))
  }

  /** `s` with `b` fill values before it and `a` after it. */
  function PadSeq<T>(s: seq<T>, b: nat, a: nat, fill: T): (r: seq<T>)
    ensures |r| == b + |s| + a
    ensures forall i :: 0 <= i < |r| ==> r[i] == if b <= i < b + |s| then s[i - b] else fill
  {
    Repeat(fill, b) + s + Repeat(fill, a)
  }

  /** Every target size is at least the current one. */
  predicate Grows<T>(g: Grid<T>, size: seq<int>) {
    |size| == 3 && size[0] >= g.d0 && size[1] >= g.d1 && size[2] >= g.d2
  }

  /** `tf.pad(grid, padding)` with non-negative padding and fill `zero`,
      built axis by axis from the innermost outwards. */
  function PadGrid<T(==)>(g: Grid<T>, size: seq<int>, zero: T): (r: Grid<T>)
    requires Valid(g) && Grows(g, size)
    ensures Valid(r) && r.d0 == size[0] && r.d1 == size[1] && r.d2 == size[2]
  {
    var p := ResizePadding(g, size);
    var n1, n2 := size[1] as nat, size[2] as nat;
    var rows := seq(g.d0, i requires 0 <= i < g.d0 =>
      seq(g.d1, j requires 0 <= j < g.d1 => PadSeq(g.cells[i][j], p[2].before, p[2].after, zero)));
    var planes := seq(g.d0, i requires 0 <= i < g.d0 =>
      PadSeq(rows[i], p[1].before, p[1].after, Repeat(zero, n2)));
    var cells := PadSeq(planes, p[0].before, p[0].after, Repeat(Repeat(zero, n2), n1));
    assert forall i :: 0 <= i < |cells| ==> |cells[i]| == n1;
    assert forall i, j :: 0 <= i < |cells| && 0 <= j < n1 ==> |cells[i][j]| == n2;
    Grid(size[0], n1, n2, cells)
  }

  /** Each padded cell holds the original cell shifted by the `before`
      amounts, or the fill value outside the original extent. */
  predicate PaddedFrom<T(==)>(r: Grid<T>, g: Grid<T>, p: seq<Pad>, zero: T)
    requires Valid(r) && Valid(g) && |p| == 3
  {
    var b0, b1, b2 := p[0].before, p[1].before, p[2].before;
    forall i, j, k :: 0 <= i < r.d0 && 0 <= j < r.d1 && 0 <= k < r.d2 ==>
      r.cells[i][j][k] ==
        if b0 <= i < b0 + g.d0 && b1 <= j < b1 + g.d1 && b2 <= k < b2 + g.d2
        then g.cells[i - b0][j - b1][k - b2] else zero
  }

  lemma PadGridCell<T>(g: Grid<T>, size: seq<int>, zero: T, i: nat, j: nat, k: nat)
    requires Valid(g) && Grows(g, size)
    requires i < size[0] && j < size[1] && k < size[2]
    ensures var p := ResizePadding(g, size); var r := PadGrid(g, size, zero);
      var b0, b1, b2 := p[0].before, p[1].before, p[2].before;
      r.cells[i][j][k] ==
        if b0 <= i < b0 + g.d0 && b1 <= j < b1 + g.d1 && b2 <= k < b2 + g.d2
        then g.cells[i - b0][j - b1][k - b2] else zero
  {
  }

  /** For growing sizes the original data sits unchanged at offset
      `floor(delta / 2)` on every axis and every added cell is the fill. */
  lemma PadGridCells<T>(g: Grid<T>, size: seq<int>, zero: T)
    requires Valid(g) && Grows(g, size)
    ensures PaddedFrom(PadGrid(g, size, zero), g, ResizePadding(g, size), zero)
  {
    var r := PadGrid(g, size, zero);
    forall i, j, k | 0 <= i < r.d0 && 0 <= j < r.d1 && 0 <= k < r.d2 {
      PadGridCell(g, size, zero, i, j, k);
    }
  }

  /** Complex cells, kept as their real and imaginary parts. */
  datatype Complex = Complex(re: real, im: real)

  /** A tensor of either dtype `resize` distinguishes. */
  datatype Tensor = Real(r: Grid<real>) | Cplx(c: Grid<Complex>)

  function MapGrid<T, U>(g: Grid<T>, f: T -> U): (r: Grid<U>)
    requires Valid(g)
    ensures Valid(r) && SameShape(r, g)
    ensures forall i, j, k :: 0 <= i < g.d0 && 0 <= j < g.d1 && 0 <= k < g.d2 ==>
      r.cells[i][j][k] == f(g.cells[i][j][k])
  {
    Grid(g.d0, g.d1, g.d2, seq(g.d0, i requires 0 <= i < g.d0 =>
      seq(g.d1, j requires 0 <= j < g.d1 =>
        seq(g.d2, k requires 0 <= k < g.d2 => f(g.cells[i][j][k])))))
  }

  /** `tf.complex(re, im)`. */
  function ComplexGrid(re: Grid<real>, im: Grid<real>): (r: Grid<Complex>)
    requires Valid(re) && Valid(im) && SameShape(re, im)
    ensures Valid(r) && SameShape(r, re)
    ensures forall i, j, k :: 0 <= i < re.d0 && 0 <= j < re.d1 && 0 <= k < re.d2 ==>
      r.cells[i][j][k] == Complex(re.cells[i][j][k], im.cells[i][j][k])
  {
    Grid(re.d0, re.d1, re.d2, seq(re.d0, i requires 0 <= i < re.d0 =>
      seq(re.d1, j requires 0 <= j < re.d1 =>
        seq(re.d2, k requires 0 <= k < re.d2 => Complex(re.cells[i][j][k], im.cells[i][j][k])))))
  }

  function TensorValid(t: Tensor): bool {
    match t
    case Real(g) => Valid(g)
    case Cplx(g) => Valid(g)
  }

  function TensorGrows(t: Tensor, size: seq<int>): bool {
    match t
    case Real(g) => Grows(g, size)
    case Cplx(g) => Grows(g, size)
  }

  /** `resize(grid, size)` for target sizes no smaller than the current ones:
      a complex tensor is resized as its real and imaginary parts, which are
      then recombined. */
  function Resize(t: Tensor, size: seq<int>): (r: Tensor)
    requires TensorValid(t) && TensorGrows(t, size)
    ensures r.Real? <==> t.Real?
    ensures r.Real? ==> Valid(r.r) && r.r.d0 == size[0] && r.r.d1 == size[1] && r.r.d2 == size[2]
    ensures r.Cplx? ==> Valid(r.c) && r.c.d0 == size[0] && r.c.d1 == size[1] && r.c.d2 == size[2]
  {
    match t
    case Real(g) => Real(PadGrid(g, size, 0.0))
    case Cplx(g) =>
      var re := MapGrid(g, (c: Complex) => c.re);
      var im := MapGrid(g, (c: Complex) => c.im);
      Cplx(ComplexGrid(PadGrid(re, size, 0.0), PadGrid(im, size, 0.0)))
  }

  /** Padding the parts of a complex tensor and recombining them gives
      the complex tensor padded with complex zero. */
  lemma PaddedPartsAgree(g: Grid<Complex>, re: Grid<real>, im: Grid<real>, pr: Grid<real>, pi: Grid<real>,
                         y: Grid<Complex>, p: seq<Pad>)
    requires Valid(g) && Valid(re) && Valid(im) && Valid(pr) && Valid(pi) && Valid(y) && |p| == 3
    requires SameShape(re, g) && SameShape(im, g) && SameShape(pr, y) && SameShape(pi, y)
    requires forall i, j, k :: 0 <= i < g.d0 && 0 <= j < g.d1 && 0 <= k < g.d2 ==>
      re.cells[i][j][k] == g.cells[i][j][k].re && im.cells[i][j][k] == g.cells[i][j][k].im
    requires PaddedFrom(pr, re, p, 0.0) && PaddedFrom(pi, im, p, 0.0)
    requires PaddedFrom(y, g, p, Complex(0.0, 0.0))
    ensures ComplexGrid(pr, pi) == y
  {
    var x := ComplexGrid(pr, pi);
    var b0, b1, b2 := p[0].before, p[1].before, p[2].before;
    forall i, j, k | 0 <= i < x.d0 && 0 <= j < x.d1 && 0 <= k < x.d2
      ensures x.cells[i][j][k] == y.cells[i][j][k]
    {
      assert x.cells[i][j][k] == Complex(pr.cells[i][j][k], pi.cells[i][j][k]);
      if b0 <= i < b0 + g.d0 && b1 <= j < b1 + g.d1 && b2 <= k < b2 + g.d2 {
        var c := g.cells[i - b0][j - b1][k - b2];
        assert pr.cells[i][j][k] == re.cells[i - b0][j - b1][k - b2] == c.re;
        assert pi.cells[i][j][k] == im.cells[i - b0][j - b1][k - b2] == c.im;
      }
    }
    GridExt(x, y);
  }

  /** Resizing the two parts separately is padding the complex tensor with
      complex zero. */
  lemma ResizeComplex(g: Grid<Complex>, size: seq<int>)
    requires Valid(g) && Grows(g, size)
    ensures Resize(Cplx(g), size) == Cplx(PadGrid(g, size, Complex(0.0, 0.0)))
  {
    var re := MapGrid(g, (c: Complex) => c.re);
    var im := MapGrid(g, (c: Complex) => c.im);
    var p := ResizePadding(g, size);
    SamePadding(g, re, size);
    SamePadding(g, im, size);
    var pr, pi := PadGrid(re, size, 0.0), PadGrid(im, size, 0.0);
    var y := PadGrid(g, size, Complex(0.0, 0.0));
    PadGridCells(re, size, 0.0);
    PadGridCells(im, size, 0.0);
    PadGridCells(g, size, Complex(0.0, 0.0));
    PaddedPartsAgree(g, re, im, pr, pi, y, p);
  }

  /** The padding depends on the shape alone. */
  lemma SamePadding<T, U>(g: Grid<T>, h: Grid<U>, size: seq<int>)
    requires |size| == 3 && SameShape(g, h)
    ensures ResizePadding(g, size) == ResizePadding(h, size)
  {
  }

  // ---------------------------------------------------------------------
  // `repeatAlongAxis` and `zoom`. Lengths and positions are written with
  // `Times` and `Quot`, which are `*` and `/` (`TimesIsMul`, `QuotIsDiv`).

  /** `expandDims` then `tile` then `reshape` along one axis: every entry
      repeated `z` times in place. */
  function RepeatSeq<T>(s: seq<T>, z: nat): (r: seq<T>)
    ensures |r| == Times(|s|, z)
  {
    if s == [] then [] else Repeat(s[0], z) + RepeatSeq(s[1..], z)
  }

  /** Position `i` of the repetition holds entry `i / z`. */
  lemma {:induction false} RepeatSeqIndex<T>(s: seq<T>, z: nat, i: nat)
    requires i < Times(|s|, z)
    ensures z > 0 && Quot(i, z) < |s|
    ensures RepeatSeq(s, z)[i] == s[Quot(i, z)]
    decreases |s|
  {
    QuotBelow(i, |s|, z);
    if i >= z {
      RepeatSeqIndex(s[1..], z, i - z);
    }
  }

  /** Repetition keeps the common length of the entries. */
  lemma RepeatSeqLengths<T>(s: seq<seq<T>>, z: nat, m: nat)
    requires forall x :: 0 <= x < |s| ==> |s[x]| == m
    ensures forall x :: 0 <= x < |RepeatSeq(s, z)| ==> |RepeatSeq(s, z)[x]| == m
  {
    forall x | 0 <= x < |RepeatSeq(s, z)|
      ensures |RepeatSeq(s, z)[x]| == m
    {
      RepeatSeqIndex(s, z, x);
    }
  }

  /** The planes of `g` after repeating its axis 1. */
  function RepeatPlanes<T>(g: Grid<T>, z: nat): (c: seq<seq<seq<T>>>)
    requires Valid(g)
    ensures |c| == g.d0
    ensures forall i :: 0 <= i < g.d0 ==> |c[i]| == Times(g.d1, z)
    ensures forall i, j :: 0 <= i < g.d0 && 0 <= j < Times(g.d1, z) ==> |c[i][j]| == g.d2
  {
    var c := seq(g.d0, i requires 0 <= i < g.d0 => RepeatSeq(g.cells[i], z));
    forall i | 0 <= i < g.d0
      ensures forall j :: 0 <= j < Times(g.d1, z) ==> |c[i][j]| == g.d2
    {
      RepeatSeqLengths(g.cells[i], z, g.d2);
    }
    c
  }

  /** `repeatAlongAxis(tensor, axis, z)`: the axis grows `z`-fold. */
  function RepeatAxis<T>(g: Grid<T>, axis: nat, z: nat): (r: Grid<T>)
    requires Valid(g) && axis < 3
    ensures Valid(r)
    ensures r.d0 == (if axis == 0 then Times(g.d0, z) else g.d0)
    ensures r.d1 == (if axis == 1 then Times(g.d1, z) else g.d1)
    ensures r.d2 == (if axis == 2 then Times(g.d2, z) else g.d2)
  {
    if axis == 0 then
      RepeatSeqLengths(g.cells, z, g.d1);
      var c := RepeatSeq(g.cells, z);
      assert forall i, j :: 0 <= i < |c| && 0 <= j < g.d1 ==> |c[i][j]| == g.d2 by {
        forall i | 0 <= i < |c| {
          RepeatSeqIndex(g.cells, z, i);
        }
      }
      Grid(Times(g.d0, z), g.d1, g.d2, c)
    else if axis == 1 then
      Grid(g.d0, Times(g.d1, z), g.d2, RepeatPlanes(g, z))
    else
      Grid(g.d0, g.d1, Times(g.d2, z), seq(g.d0, i requires 0 <= i < g.d0 =>
        seq(g.d1, j requires 0 <= j < g.d1 => RepeatSeq(g.cells[i][j], z))))
  }

  /** Repeating axis 0: cell `(i, j, k)` is the original `(i / z, j, k)`. */
  predicate Repeated0<T(==)>(r: Grid<T>, g: Grid<T>, z: nat)
    requires Valid(r) && Valid(g) && z > 0
    requires r.d0 == Times(g.d0, z) && r.d1 == g.d1 && r.d2 == g.d2
  {
    forall i :: 0 <= i < r.d0 ==> (Quot(i, z) < g.d0 &&
      forall j, k :: 0 <= j < r.d1 && 0 <= k < r.d2 ==> r.cells[i][j][k] == g.cells[Quot(i, z)][j][k])
  }

  /** Repeating axis 1: cell `(i, j, k)` is the original `(i, j / z, k)`. */
  predicate Repeated1<T(==)>(r: Grid<T>, g: Grid<T>, z: nat)
    requires Valid(r) && Valid(g) && z > 0
    requires r.d0 == g.d0 && r.d1 == Times(g.d1, z) && r.d2 == g.d2
  {
    forall j :: 0 <= j < r.d1 ==> (Quot(j, z) < g.d1 &&
      forall i, k :: 0 <= i < r.d0 && 0 <= k < r.d2 ==> r.cells[i][j][k] == g.cells[i][Quot(j, z)][k])
  }

  /** Repeating axis 2: cell `(i, j, k)` is the original `(i, j, k / z)`. */
  predicate Repeated2<T(==)>(r: Grid<T>, g: Grid<T>, z: nat)
    requires Valid(r) && Valid(g) && z > 0
    requires r.d0 == g.d0 && r.d1 == g.d1 && r.d2 == Times(g.d2, z)
  {
    forall k :: 0 <= k < r.d2 ==> (Quot(k, z) < g.d2 &&
      forall i, j :: 0 <= i < r.d0 && 0 <= j < r.d1 ==> r.cells[i][j][k] == g.cells[i][j][Quot(k, z)])
  }

  lemma Repeat0From<T>(g: Grid<T>, z: nat)
    requires Valid(g) && z > 0
    ensures Repeated0(RepeatAxis(g, 0, z), g, z)
  {
    var r := RepeatAxis(g, 0, z);
    forall i | 0 <= i < r.d0
      ensures Quot(i, z) < g.d0
      ensures forall j, k :: 0 <= j < r.d1 && 0 <= k < r.d2 ==> r.cells[i][j][k] == g.cells[Quot(i, z)][j][k]
    {
      RepeatSeqIndex(g.cells, z, i);
    }
  }

  lemma Repeat1From<T>(g: Grid<T>, z: nat)
    requires Valid(g) && z > 0
    ensures Repeated1(RepeatAxis(g, 1, z), g, z)
  {
    var r := RepeatAxis(g, 1, z);
    forall j | 0 <= j < r.d1
      ensures Quot(j, z) < g.d1
      ensures forall i, k :: 0 <= i < r.d0 && 0 <= k < r.d2 ==> r.cells[i][j][k] == g.cells[i][Quot(j, z)][k]
    {
      QuotBelow(j, g.d1, z);
      forall i | 0 <= i < r.d0
        ensures forall k :: 0 <= k < r.d2 ==> r.cells[i][j][k] == g.cells[i][Quot(j, z)][k]
      {
        RepeatSeqIndex(g.cells[i], z, j);
      }
    }
  }

  lemma Repeat2From<T>(g: Grid<T>, z: nat)
    requires Valid(g) && z > 0
    ensures Repeated2(RepeatAxis(g, 2, z), g, z)
  {
    var r := RepeatAxis(g, 2, z);
    forall k | 0 <= k < r.d2
      ensures Quot(k, z) < g.d2
      ensures forall i, j :: 0 <= i < r.d0 && 0 <= j < r.d1 ==> r.cells[i][j][k] == g.cells[i][j][Quot(k, z)]
    {
      QuotBelow(k, g.d2, z);
      forall i, j | 0 <= i < r.d0 && 0 <= j < r.d1
        ensures r.cells[i][j][k] == g.cells[i][j][Quot(k, z)]
      {
        RepeatSeqIndex(g.cells[i][j], z, k);
      }
    }
  }

  /** The tensor after the first `i` passes of the `zoom` loop. */
  function ZoomedAxes<T>(g: Grid<T>, z: nat, i: nat): (r: Grid<T>)
    requires Valid(g) && i <= 3
    ensures Valid(r)
    ensures r.d0 == (if i > 0 then Times(g.d0, z) else g.d0)
    ensures r.d1 == (if i > 1 then Times(g.d1, z) else g.d1)
    ensures r.d2 == (if i > 2 then Times(g.d2, z) else g.d2)
  {
    if i == 0 then g else RepeatAxis(ZoomedAxes(g, z, i - 1), i - 1, z)
  }

  /** `zoom(tensor, z)`: `currentTensor` is reassigned once per axis. */
  method Zoom<T>(tensor: Grid<T>, z: nat) returns (r: Grid<T>)
    requires Valid(tensor)
    ensures r == ZoomedAxes(tensor, z, 3)
  {
    var currentTensor := tensor;
    for i := 0 to 3
      invariant currentTensor == ZoomedAxes(tensor, z, i)
    {
      currentTensor := RepeatAxis(currentTensor, i, z);
    }
    r := currentTensor;
  }

  /** Cell `(i, j, k)` of `r` is cell `(i / z, j / z, k / z)` of `g`. */
  predicate ZoomedFrom<T(==)>(r: Grid<T>, g: Grid<T>, z: nat)
    requires Valid(r) && Valid(g) && z > 0
    requires r.d0 == Times(g.d0, z) && r.d1 == Times(g.d1, z) && r.d2 == Times(g.d2, z)
  {
    (forall i :: 0 <= i < r.d0 ==> Quot(i, z) < g.d0) &&
    (forall j :: 0 <= j < r.d1 ==> Quot(j, z) < g.d1) &&
    (forall k :: 0 <= k < r.d2 ==> Quot(k, z) < g.d2) &&
    forall i, j, k :: 0 <= i < r.d0 && 0 <= j < r.d1 && 0 <= k < r.d2 ==>
      r.cells[i][j][k] == g.cells[Quot(i, z)][Quot(j, z)][Quot(k, z)]
  }

  /** Three repetitions, one per axis, read cell `(i / z, j / z, k / z)`. */
  lemma RepeatedThrice<T>(g: Grid<T>, g1: Grid<T>, g2: Grid<T>, g3: Grid<T>, z: nat)
    requires Valid(g) && Valid(g1) && Valid(g2) && Valid(g3) && z > 0
    requires g1.d0 == Times(g.d0, z) && g1.d1 == g.d1 && g1.d2 == g.d2
    requires g2.d0 == g1.d0 && g2.d1 == Times(g1.d1, z) && g2.d2 == g1.d2
    requires g3.d0 == g2.d0 && g3.d1 == g2.d1 && g3.d2 == Times(g2.d2, z)
    requires Repeated0(g1, g, z) && Repeated1(g2, g1, z) && Repeated2(g3, g2, z)
    ensures ZoomedFrom(g3, g, z)
  {
    forall i, j, k | 0 <= i < g3.d0 && 0 <= j < g3.d1 && 0 <= k < g3.d2
      ensures g3.cells[i][j][k] == g.cells[Quot(i, z)][Quot(j, z)][Quot(k, z)]
    {
      var c := g3.cells[i][j][k];
      assert c == g2.cells[i][j][Quot(k, z)];
      assert c == g1.cells[i][Quot(j, z)][Quot(k, z)];
    }
  }

  /** Zoom by `z > 0` multiplies every axis length by `z`, and cell
      `(i, j, k)` is the original cell `(i / z, j / z, k / z)`. */
  lemma ZoomCells<T>(g: Grid<T>, z: nat)
    requires Valid(g) && z > 0
    ensures var r := ZoomedAxes(g, z, 3);
      r.d0 == Times(g.d0, z) && r.d1 == Times(g.d1, z) && r.d2 == Times(g.d2, z) &&
      ZoomedFrom(r, g, z)
  {
    var g1 := ZoomedAxes(g, z, 1);
    var g2 := ZoomedAxes(g, z, 2);
    var g3 := ZoomedAxes(g, z, 3);
    var g0 := ZoomedAxes(g, z, 0);
    assert g0 == g;
    assert g1 == RepeatAxis(g0, 0, z);
    assert g2 == RepeatAxis(g1, 1, z);
    assert g3 == RepeatAxis(g2, 2, z);
    Repeat0From(g, z);
    Repeat1From(g1, z);
    Repeat2From(g2, z);
    RepeatedThrice(g, g1, g2, g3, z);
  }

  /** Zoom by 0 leaves no cells. */
  lemma ZoomByZero<T>(g: Grid<T>)
    requires Valid(g)
    ensures var r := ZoomedAxes(g, 0, 3); r.d0 == 0 && r.d1 == 0 && r.d2 == 0 && r.cells == []
  {
    TimesZero(g.d0);
    TimesZero(g.d1);
    TimesZero(g.d2);
  }
}
