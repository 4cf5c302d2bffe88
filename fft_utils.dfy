/** The axis plumbing of the n-dimensional Fourier transform: argument
    guards, the permutation that brings one axis last, and the loop over
    the axes. The one-dimensional transform along the last axis
    (`tf.spectral.fft` or `tf.spectral.ifft`) is a parameter. */
module FftUtils {
  import opened Wrappers
  import opened Values
  import opened GridUtils

  /** A complex tensor of any rank: its shape and its entry at each index
      vector (a real tensor has zero imaginary parts). */
  datatype Tensor = Tensor(shape: seq<nat>, at: seq<nat> -> Complex)

  /** What a caller can pass in: a tensor, or any other JavaScript value. */
  datatype JsValue = TensorValue(t: Tensor) | OtherValue

  // ---------------------------------------------------------------------
  // Guards

  /** `validateTensor(x)`: anything but a tensor throws. */
  function ValidateTensor(x: JsValue): (r: Result<Tensor>)
    ensures r.Ok? <==> x.TensorValue?
    ensures r.Ok? ==> r.value == x.t
  {
    if x.TensorValue? then Ok(x.t) else Err("The input must be a valid tf.Tensor.")
  }

  /** `Number.isInteger(x)`. */
  predicate IsInteger(x: Number) {
    x.Finite? && x.v.Floor as real == x.v
  }

  /** `validateAxis(axis, rank)`: throws unless the axis is an integer in
      [0, rank); it yields the axis as an index when it does not. */
  function ValidateAxis(axis: Number, rank: nat): (r: Result<nat>)
    ensures r.Ok? <==> IsInteger(axis) && 0.0 <= axis.v < rank as real
    ensures r.Ok? ==> r.value < rank && r.value as real == axis.v
  {
    if !IsInteger(axis) || axis.v < 0.0 || axis.v >= rank as real then
      Err("Axis is out of valid range.")
    else
      Ok(axis.v.Floor as nat)
  }

  /** Every index in [0, rank) passes `validateAxis` as itself. */
  lemma AxisIndexValid(a: nat, rank: nat)
    requires a < rank
    ensures ValidateAxis(Finite(a as real), rank) == Ok(a)
  {
    assert (a as real).Floor == a;
  }

  // ---------------------------------------------------------------------
  // The permutation

  /** The identity on [0, rank) with entries `axis` and `rank - 1` swapped. */
  function SwapPerm(rank: nat, axis: nat): (p: seq<nat>)
    requires axis < rank
    ensures |p| == rank
  {
    seq(rank, i requires 0 <= i < rank => if i == axis then rank - 1 else if i == rank - 1 then axis else i)
  }

  /** Every entry of `p` is below its length and no two entries are equal. */
  predicate IsPermutation(p: seq<nat>) {
    (forall i :: 0 <= i < |p| ==> p[i] < |p|) &&
    (forall i, j :: 0 <= i < j < |p| ==> p[i] != p[j])
  }

  /** A permutation that undoes itself. */
  predicate IsInvolution(p: seq<nat>) {
    forall i :: 0 <= i < |p| ==> p[i] < |p| && p[p[i]] == i
  }

  /** The swap is a permutation, it is its own inverse, it moves `axis`
      last and fixes every other axis. */
  lemma SwapPermProperties(rank: nat, axis: nat)
    requires axis < rank
    ensures IsPermutation(SwapPerm(rank, axis)) && IsInvolution(SwapPerm(rank, axis))
    ensures SwapPerm(rank, axis)[rank - 1] == axis && SwapPerm(rank, axis)[axis] == rank - 1
    ensures forall i :: 0 <= i < rank && i != axis && i != rank - 1 ==> SwapPerm(rank, axis)[i] == i
  {
    var p := SwapPerm(rank, axis);
    forall i, j | 0 <= i < j < rank
      ensures p[i] != p[j]
    {
      assert p[p[i]] == i && p[p[j]] == j;
    }
  }

  /** `Array.from({length: rank}, (_, i) => i)`, then the in-place swap
      `[perm[axis], perm[rank - 1]] = [perm[rank - 1], perm[axis]]`. */
  method BuildPerm(rank: nat, axis: nat) returns (perm: seq<nat>)
    requires axis < rank
    ensures perm == SwapPerm(rank, axis)
  {
    var a := new nat[rank](i => i);
    a[axis], a[rank - 1] := a[rank - 1], a[axis];
    perm := a[..];
    assert forall i :: 0 <= i < rank ==> perm[i] == SwapPerm(rank, axis)[i];
  }

  // ---------------------------------------------------------------------
  // Transposition

  /** Entry `i` of the result is entry `p[i]` of `s`. */
  function Permute<T>(s: seq<T>, p: seq<nat>): (r: seq<T>)
    requires forall i :: 0 <= i < |p| ==> p[i] < |s|
    ensures |r| == |p|
    ensures forall i :: 0 <= i < |p| ==> r[i] == s[p[i]]
  {
    seq(|p|, i requires 0 <= i < |p| => s[p[i]])
  }

  /** Permuting twice by an involution restores the sequence. */
  lemma PermuteTwice<T>(s: seq<T>, p: seq<nat>)
    requires IsInvolution(p) && |s| == |p|
    ensures Permute(Permute(s, p), p) == s
  {
    var r := Permute(Permute(s, p), p);
    forall i | 0 <= i < |s| ensures r[i] == s[i] {
      assert r[i] == Permute(s, p)[p[i]] == s[p[p[i]]];
    }
  }

  /** `out` is `tf.transpose(t, p)`: axis `i` of `out` is axis `p[i]` of
      `t`, and the entry of `t` at `j` sits at `Permute(j, p)` in `out`. */
  ghost predicate TransposeOf(out: Tensor, t: Tensor, p: seq<nat>)
    requires IsPermutation(p) && |p| == |t.shape|
  {
    out.shape == Permute(t.shape, p) &&
    forall j: seq<nat> :: |j| == |p| ==> out.at(Permute(j, p)) == t.at(j)
  }

  /** `tf.transpose(t, p)` for a permutation that is its own inverse. */
  function Transpose(t: Tensor, p: seq<nat>): (r: Tensor)
    requires IsPermutation(p) && IsInvolution(p) && |p| == |t.shape|
    ensures |r.shape| == |t.shape|
  {
    Tensor(Permute(t.shape, p), (j: seq<nat>) => if |j| == |p| then t.at(Permute(j, p)) else t.at(j))
  }

  /** `Transpose` is the transposition `TransposeOf` describes. */
  lemma TransposeIsTransposition(t: Tensor, p: seq<nat>)
    requires IsPermutation(p) && IsInvolution(p) && |p| == |t.shape|
    ensures TransposeOf(Transpose(t, p), t, p)
  {
    forall j: seq<nat> | |j| == |p|
      ensures Transpose(t, p).at(Permute(j, p)) == t.at(j)
    {
      PermuteTwice(j, p);
    }
  }

  /** Transposing twice by an involution restores the shape and every
      entry. */
  lemma TransposeTwice(t: Tensor, p: seq<nat>)
    requires IsPermutation(p) && IsInvolution(p) && |p| == |t.shape|
    ensures Transpose(Transpose(t, p), p).shape == t.shape
    ensures forall j: seq<nat> :: |j| == |p| ==> Transpose(Transpose(t, p), p).at(j) == t.at(j)
  {
    PermuteTwice(t.shape, p);
    forall j: seq<nat> | |j| == |p|
      ensures Transpose(Transpose(t, p), p).at(j) == t.at(j)
    {
      PermuteTwice(j, p);
    }
  }

  // ---------------------------------------------------------------------
  // One axis

  /** A one-dimensional transform along the last axis keeps the shape. */
  ghost predicate KeepsShape(f: Tensor -> Tensor) {
    forall t: Tensor :: f(t).shape == t.shape
  }

  /** The transform along `axis`: bring the axis last, transform, and
      transpose back with the same permutation. */
  function AlongAxis(f: Tensor -> Tensor, t: Tensor, axis: nat): (r: Tensor)
    requires KeepsShape(f) && axis < |t.shape|
    ensures r.shape == t.shape
  {
    var p := SwapPerm(|t.shape|, axis);
    SwapPermProperties(|t.shape|, axis);
    var inner := f(Transpose(t, p));
    PermuteTwice(t.shape, p);
    Transpose(inner, p)
  }

  /** `fftOnAxis(x, axis)` (or `ifftOnAxis`): both guards, then the
      transform along the axis. */
  function OnAxis(f: Tensor -> Tensor, x: JsValue, axis: Number): (r: Result<Tensor>)
    requires KeepsShape(f)
    ensures r.Ok? <==> x.TensorValue? && IsInteger(axis) && 0.0 <= axis.v < |x.t.shape| as real
    ensures r.Ok? ==> r.value.shape == x.t.shape
  {
    match ValidateTensor(x)
    case Err(e) => Err(e)
    case Ok(t) =>
      match ValidateAxis(axis, |t.shape|)
      case Err(e) => Err(e)
      case Ok(a) => Ok(AlongAxis(f, t, a))
  }

  // ---------------------------------------------------------------------
  // All axes

  /** The axes in the order the loop visits them: 0, 1, ..., rank - 1. */
  function AxisOrder(rank: nat): (r: seq<nat>)
    ensures |r| == rank
  {
    seq(rank, i requires 0 <= i < rank => i)
  }

  /** The loop visits every axis exactly once, in increasing order. */
  lemma AxisOrderVisitsEachOnce(rank: nat)
    ensures forall i, j :: 0 <= i < j < rank ==> AxisOrder(rank)[i] < AxisOrder(rank)[j]
    ensures forall a :: 0 <= a < rank ==> multiset(AxisOrder(rank))[a] == 1
  {
    forall a | 0 <= a < rank
      ensures multiset(AxisOrder(rank))[a] == 1
    {
      CountInOrder(AxisOrder(rank), a);
    }
  }

  /** In a strictly increasing sequence that holds `a` at position `a`, `a`
      occurs once. */
  lemma {:induction false} CountInOrder(s: seq<nat>, a: nat)
    requires forall i :: 0 <= i < |s| ==> s[i] == i
    requires a < |s|
    ensures multiset(s)[a] == 1
    decreases |s|
  {
    var init := s[..|s| - 1];
    assert s == init + [s[|s| - 1]];
    if a < |s| - 1 {
      CountInOrder(init, a);
    } else {
      assert a !in init;
    }
  }

  /** The transform along each listed axis, in the listed order. */
  function AlongAxes(f: Tensor -> Tensor, t: Tensor, axes: seq<nat>): (r: Tensor)
    requires KeepsShape(f) && forall i :: 0 <= i < |axes| ==> axes[i] < |t.shape|
    ensures r.shape == t.shape
    decreases |axes|
  {
    if axes == [] then t
    else AlongAxis(f, AlongAxes(f, t, axes[..|axes| - 1]), axes[|axes| - 1])
  }

  /** What `fftn(x)` (or `ifftn`) returns: a non-tensor and a rank-0 tensor
      throw; otherwise every axis is transformed, in increasing order. */
  function AllAxes(f: Tensor -> Tensor, x: JsValue): (r: Result<Tensor>)
    requires KeepsShape(f)
    ensures r.Ok? <==> x.TensorValue? && |x.t.shape| > 0
    ensures r.Ok? ==> r.value.shape == x.t.shape
  {
    match ValidateTensor(x)
    case Err(e) => Err(e)
    case Ok(t) =>
      if |t.shape| == 0 then Err("Input tensor must have at least one dimension.")
      else Ok(AlongAxes(f, t, AxisOrder(|t.shape|)))
  }

  /** `fftn(x)` / `ifftn(x)` as the source runs it: the guards, then `out`
      reassigned once per axis through the guarded one-axis transform. */
  method TransformAll(f: Tensor -> Tensor, x: JsValue) returns (r: Result<Tensor>)
    requires KeepsShape(f)
    ensures r == AllAxes(f, x)
  {
    var checked := ValidateTensor(x);
    if checked.Err? {
      return Err(checked.msg);
    }
    var rank := |checked.value.shape|;
    if rank == 0 {
      return Err("Input tensor must have at least one dimension.");
    }
    var out := checked.value;
    ghost var order := AxisOrder(rank);
    for axis := 0 to rank
      invariant out == AlongAxes(f, checked.value, order[..axis])
    {
      AxisIndexValid(axis, rank);
      var step := OnAxis(f, TensorValue(out), Finite(axis as real));
      assert order[..axis + 1][..axis] == order[..axis];
      out := step.value;
    }
    assert order[..rank] == order;
    r := Ok(out);
  }
}
