/** `mesh.py`: the voxel mesh of a sparse grid. Every occupied cell becomes a
    cube of 8 corners and 6 faces; corners are sorted and merged, faces that
    two neighbouring cubes share are dropped, and the remaining polygons are
    cut into triangle fans.

    Coordinates are doubled throughout: a cube corner sits half a cell from
    the cell's position, so twice its position is an integer. The source
    uses the same doubled values as sparse-tensor indices and halves them at
    the end. */
module Mesh {
  import opened SeqUtil
  import Arith

  /** A position in doubled coordinates (or a cell index, or a triple of
      vertex ids used as a sort key). */
  datatype Point = Point(x: int, y: int, z: int)

  /** One stored entry of the sparse grid: its index and its value. */
  datatype Voxel = Voxel(index: Point, value: real)

  /** Corner `o` of the cube at `index`, doubled: twice `index + o / 2 + 1`,
      where `o` is itself a doubled corner offset. */
  function Corner(index: Point, o: Point): Point {
    Point(2 * index.x + o.x + 2, 2 * index.y + o.y + 2, 2 * index.z + o.z + 2)
  }

  // ---------------------------------------------------------------------
  // Cubes: vertices, faces and colours per voxel.

  /** The corner list: 8 corners per voxel, voxel-major. */
  function CubeVertices(voxels: seq<Voxel>, offset: seq<Point>): (vs: seq<Point>)
    requires |offset| == 8
    ensures |vs| == 8 * |voxels|
  {
    seq(8 * |voxels|, v requires 0 <= v < 8 * |voxels| => Corner(voxels[v / 8].index, offset[v % 8]))
  }

  /** The face table: 6 polygons of equally many corners (at least 3),
      each naming corners 0..7 of one cube. */
  predicate FaceTable(offsetFaces: seq<seq<nat>>) {
    |offsetFaces| == 6 &&
    (forall j :: 0 <= j < 6 ==> |offsetFaces[j]| == |offsetFaces[0]| >= 3) &&
    (forall j, m :: 0 <= j < 6 && 0 <= m < |offsetFaces[j]| ==> offsetFaces[j][m] < 8)
  }

  /** Face `6i + j` of `n` cubes: row `j` of the table, shifted to cube `i`. */
  function CubeFaces(n: nat, offsetFaces: seq<seq<nat>>): (fs: seq<seq<nat>>)
    requires |offsetFaces| == 6
    ensures |fs| == 6 * n
  {
    seq(6 * n, f requires 0 <= f < 6 * n =>
      var row := offsetFaces[f % 6];
      seq(|row|, m requires 0 <= m < |row| => 8 * (f / 6) + row[m]))
  }

  /** `values.repeat_interleave(6)`: each voxel's value once per face. */
  function FaceColours(voxels: seq<Voxel>): (cs: seq<real>)
    ensures |cs| == 6 * |voxels|
  {
    seq(6 * |voxels|, c requires 0 <= c < 6 * |voxels| => voxels[c / 6].value)
  }

  /** Vertex `8i + k` is corner `k` of voxel `i`. */
  lemma VertexOfVoxel(voxels: seq<Voxel>, offset: seq<Point>, i: nat, k: nat)
    requires |offset| == 8 && i < |voxels| && k < 8
    ensures 8 * i + k < 8 * |voxels|
    ensures CubeVertices(voxels, offset)[8 * i + k] == Corner(voxels[i].index, offset[k])
  {
    Arith.ModUnique(8 * i + k, 8, i, k);
  }

  /** Face `6i + j` names vertices `8i + offsetFaces[j][m]`, and is coloured
      with the value of voxel `i`. */
  lemma FaceOfVoxel(voxels: seq<Voxel>, offsetFaces: seq<seq<nat>>, i: nat, j: nat)
    requires |offsetFaces| == 6 && i < |voxels| && j < 6
    ensures 6 * i + j < 6 * |voxels|
    ensures var face := CubeFaces(|voxels|, offsetFaces)[6 * i + j];
      |face| == |offsetFaces[j]| &&
      forall m :: 0 <= m < |face| ==> face[m] == 8 * i + offsetFaces[j][m]
    ensures FaceColours(voxels)[6 * i + j] == voxels[i].value
  {
    Arith.ModUnique(6 * i + j, 6, i, j);
  }

  /** The cube faces name corners of the cube list. */
  lemma CubeFacesInRange(n: nat, offsetFaces: seq<seq<nat>>)
    requires FaceTable(offsetFaces)
    ensures EntriesBelow(CubeFaces(n, offsetFaces), 8 * n)
    ensures forall f :: 0 <= f < 6 * n ==> |CubeFaces(n, offsetFaces)[f]| == |offsetFaces[0]|
  {
    var fs := CubeFaces(n, offsetFaces);
    forall f, m | 0 <= f < |fs| && 0 <= m < |fs[f]|
      ensures fs[f][m] < 8 * n
    {
      var i, j := f / 6, f % 6;
      Arith.ModUnique(f, 6, i, j);
      assert fs[f][m] == 8 * i + offsetFaces[j][m];
    }
  }

  // ---------------------------------------------------------------------
  // Permutations: the sorting orders `np.lexsort` returns, and the inverse
  // built by the scatter `inv_vert_map[verts_map] = arange(...)`.

  /** `p` lists each of 0..n-1 exactly once. */
  predicate IsPermutation(p: seq<nat>, n: nat) {
    |p| == n &&
    (forall i :: 0 <= i < n ==> p[i] < n) &&
    (forall i, j :: 0 <= i < j < n ==> p[i] != p[j]) &&
    (forall v :: 0 <= v < n ==> v in p)
  }

  /** Every face entry is below `n`. */
  predicate EntriesBelow(faces: seq<seq<nat>>, n: nat) {
    forall f, m :: 0 <= f < |faces| && 0 <= m < |faces[f]| ==> faces[f][m] < n
  }

  /** `s[p]`: the elements of `s` in the order `p` lists them. */
  function Permuted<T>(s: seq<T>, p: seq<nat>): (r: seq<T>)
    requires forall i :: 0 <= i < |p| ==> p[i] < |s|
    ensures |r| == |p|
  {
    seq(|p|, i requires 0 <= i < |p| => s[p[i]])
  }

  /** `index[faces]`: every face entry looked up in `index`. */
  function Reindex(faces: seq<seq<nat>>, index: seq<nat>): (r: seq<seq<nat>>)
    requires EntriesBelow(faces, |index|)
    ensures |r| == |faces|
    ensures forall f :: 0 <= f < |faces| ==> |r[f]| == |faces[f]|
  {
    seq(|faces|, f requires 0 <= f < |faces| =>
      seq(|faces[f]|, m requires 0 <= m < |faces[f]| => index[faces[f][m]]))
  }

  /** The position at which `p` lists `v`, or `|p|` when it does not. */
  function IndexIn(p: seq<nat>, v: nat): (r: nat)
    ensures r <= |p|
    ensures r < |p| ==> p[r] == v
    ensures forall i :: 0 <= i < r ==> p[i] != v
  {
    if p == [] then 0
    else if p[0] == v then 0
    else 1 + IndexIn(p[1..], v)
  }

  /** The inverse permutation: entry `v` is where `p` lists `v`. */
  function Inverse(p: seq<nat>): (inv: seq<nat>)
    ensures |inv| == |p|
  {
    seq(|p|, v requires 0 <= v < |p| => IndexIn(p, v))
  }

  /** The inverse undoes `p` on both sides. */
  lemma InverseProperties(p: seq<nat>)
    requires IsPermutation(p, |p|)
    ensures forall v :: 0 <= v < |p| ==> Inverse(p)[v] < |p| && p[Inverse(p)[v]] == v
    ensures forall i :: 0 <= i < |p| ==> Inverse(p)[p[i]] == i
  {
    var inv := Inverse(p);
    forall v | 0 <= v < |p|
      ensures inv[v] < |p| && p[inv[v]] == v
    {
      assert v in p;
      var i :| 0 <= i < |p| && p[i] == v;
      assert inv[v] <= i;
    }
    forall i | 0 <= i < |p|
      ensures inv[p[i]] == i
    {
      var v := p[i];
      assert inv[v] <= i;
      assert p[inv[v]] == v;
    }
  }

  /** The scatter loop writes `i` at position `p[i]` of a fresh array. */
  method InversePermutation(p: seq<nat>) returns (inv: seq<nat>)
    requires IsPermutation(p, |p|)
    ensures inv == Inverse(p)
  {
    var a := new nat[|p|];
    for i := 0 to |p|
      invariant forall k :: 0 <= k < i ==> a[p[k]] == k
    {
      a[p[i]] := i;
    }
    InverseProperties(p);
    inv := a[..];
    forall v | 0 <= v < |p|
      ensures inv[v] == Inverse(p)[v]
    {
      var k := Inverse(p)[v];
      assert p[k] == v;
    }
  }

  /** After re-indexing through the inverse, every face entry names, in the
      sorted list, the corner it named before. */
  lemma ReindexKeepsCorners(vs: seq<Point>, p: seq<nat>, faces: seq<seq<nat>>)
    requires IsPermutation(p, |vs|) && EntriesBelow(faces, |vs|)
    ensures EntriesBelow(Reindex(faces, Inverse(p)), |vs|)
    ensures var r := Reindex(faces, Inverse(p));
      forall f, m :: 0 <= f < |faces| && 0 <= m < |faces[f]| ==>
        Permuted(vs, p)[r[f][m]] == vs[faces[f][m]]
  {
    InverseProperties(p);
  }

  // ---------------------------------------------------------------------
  // Sorting and merging corners: `np.lexsort` on (x, y, z), then
  // `coalesce` of the sorted corners as sparse indices with value 1.

  /** Lexicographic order on (x, y, z). */
  predicate PointLe(a: Point, b: Point) {
    a.x < b.x || (a.x == b.x && (a.y < b.y || (a.y == b.y && a.z <= b.z)))
  }

  predicate Ascending(s: seq<Point>) {
    forall i, j :: 0 <= i < j < |s| ==> PointLe(s[i], s[j])
  }

  predicate StrictlyAscending(s: seq<Point>) {
    forall i, j :: 0 <= i < j < |s| ==> PointLe(s[i], s[j]) && s[i] != s[j]
  }

  /** `p` sorts `vs`, as the order `np.lexsort` returns does. */
  predicate SortsPoints(p: seq<nat>, vs: seq<Point>) {
    IsPermutation(p, |vs|) && Ascending(Permuted(vs, p))
  }

  /** A point and how many times in a row it occurs. */
  datatype Run = Run(at: Point, count: nat)

  /** The last run continues with `x`. */
  predicate Continues(r: seq<Run>, x: Point) {
    r != [] && r[|r| - 1].at == x
  }

  /** One more point merged into the runs. */
  function Push(r: seq<Run>, x: Point): (r': seq<Run>)
    ensures |r'| == if Continues(r, x) then |r| else |r| + 1
    ensures r'[|r'| - 1].at == x
    ensures r'[|r'| - 1].count == if Continues(r, x) then r[|r| - 1].count + 1 else 1
    ensures forall g :: 0 <= g < |r'| - 1 ==> r'[g] == r[g]
  {
    if Continues(r, x) then r[..|r| - 1] + [Run(x, r[|r| - 1].count + 1)]
    else r + [Run(x, 1)]
  }

  /** Neighbouring equal points merged, left to right. On a sorted list these
      are the indices `coalesce` keeps, with the summed values as counts. */
  function Runs(s: seq<Point>): (r: seq<Run>)
    ensures |r| <= |s|
    ensures s == [] <==> r == []
    ensures r != [] ==> r[|r| - 1].at == s[|s| - 1]
  {
    if s == [] then [] else Push(Runs(s[..|s| - 1]), s[|s| - 1])
  }

  /** The distinct points: the coalesced indices. */
  function RunPoints(r: seq<Run>): (ps: seq<Point>)
    ensures |ps| == |r|
  {
    seq(|r|, g requires 0 <= g < |r| => r[g].at)
  }

  /** `arange(len(r)).repeat_interleave(counts)`: the run each element of
      the merged list belongs to. */
  function Expand(r: seq<Run>): seq<nat> {
    if r == [] then [] else Expand(r[..|r| - 1]) + Repeat(|r| - 1, r[|r| - 1].count)
  }

  /** Pushing a point adds one element, in the last run. */
  lemma ExpandPush(r: seq<Run>, x: Point)
    ensures Expand(Push(r, x)) == Expand(r) + [|Push(r, x)| - 1]
  {
    var r' := Push(r, x);
    if Continues(r, x) {
      var n := |r|;
      assert r'[..n - 1] == r[..n - 1];
      assert Repeat(n - 1, r[n - 1].count + 1) == Repeat(n - 1, r[n - 1].count) + [n - 1];
    } else {
      assert r'[..|r'| - 1] == r;
    }
  }

  /** `e` assigns every element of `s` a run of `r` at its own point. */
  predicate Covers(s: seq<Point>, r: seq<Run>, e: seq<nat>) {
    |e| == |s| && forall p :: 0 <= p < |s| ==> e[p] < |r| && r[e[p]].at == s[p]
  }

  /** Every element belongs to a run of its own point: entry `p` of the
      expansion is a run index, and that run is at `s[p]`. */
  lemma {:induction false} RunsCover(s: seq<Point>)
    ensures Covers(s, Runs(s), Expand(Runs(s)))
  {
    if s != [] {
      var s0 := s[..|s| - 1];
      RunsCover(s0);
      CoverStep(s0, s[|s| - 1], Runs(s0));
      assert s == s0 + [s[|s| - 1]];
    }
  }

  /** The induction step of `RunsCover`, on any runs. */
  lemma CoverStep(s0: seq<Point>, x: Point, r0: seq<Run>)
    requires Covers(s0, r0, Expand(r0))
    ensures Covers(s0 + [x], Push(r0, x), Expand(Push(r0, x)))
  {
    var r := Push(r0, x);
    ExpandPush(r0, x);
    var e0 := Expand(r0);
    var e := e0 + [|r| - 1];
    forall p | 0 <= p < |s0| + 1
      ensures e[p] < |r| && r[e[p]].at == (s0 + [x])[p]
    {
      if p < |s0| {
        assert e[p] == e0[p] && (s0 + [x])[p] == s0[p];
      }
    }
  }

  /** On a sorted list the runs are strictly ascending and each counts every
      occurrence of its point. */
  lemma {:induction false} RunsOfSorted(s: seq<Point>)
    requires Ascending(s)
    ensures StrictlyAscending(RunPoints(Runs(s)))
    ensures forall g :: 0 <= g < |Runs(s)| ==> Runs(s)[g].count == multiset(s)[Runs(s)[g].at]
  {
    if s != [] {
      var s0, x := s[..|s| - 1], s[|s| - 1];
      assert Ascending(s0);
      RunsOfSorted(s0);
      RunsOfSortedStep(s0, x);
      assert s == s0 + [x];
    }
  }

  /** The induction step of `RunsOfSorted`. */
  lemma RunsOfSortedStep(s0: seq<Point>, x: Point)
    requires Ascending(s0 + [x])
    requires StrictlyAscending(RunPoints(Runs(s0)))
    requires forall g :: 0 <= g < |Runs(s0)| ==> Runs(s0)[g].count == multiset(s0)[Runs(s0)[g].at]
    ensures var r := Push(Runs(s0), x);
      StrictlyAscending(RunPoints(r)) &&
      forall g :: 0 <= g < |r| ==> r[g].count == multiset(s0 + [x])[r[g].at]
  {
    if Continues(Runs(s0), x) {
      RunsStepContinue(s0, Runs(s0), x);
    } else {
      BelowLast(s0, x);
      RunsCoverOnto(s0);
      RunsStepNew(s0, x);
    }
  }

  /** `x` repeats the last run's point: that run grows by one. */
  lemma RunsStepContinue(s0: seq<Point>, r0: seq<Run>, x: Point)
    requires Continues(r0, x)
    requires StrictlyAscending(RunPoints(r0))
    requires forall g :: 0 <= g < |r0| ==> r0[g].count == multiset(s0)[r0[g].at]
    ensures var r := Push(r0, x);
      StrictlyAscending(RunPoints(r)) &&
      forall g :: 0 <= g < |r| ==> r[g].count == multiset(s0 + [x])[r[g].at]
  {
    var r := Push(r0, x);
    assert multiset(s0 + [x]) == multiset(s0) + multiset{x};
    forall g | 0 <= g < |r| - 1
      ensures r[g].at != x
    {
      assert RunPoints(r0)[g] != RunPoints(r0)[|r0| - 1];
    }
    assert RunPoints(r) == RunPoints(r0);
  }

  /** In a sorted list whose last element differs from `x`, every element
      is below `x`. */
  lemma BelowLast(s0: seq<Point>, x: Point)
    requires Ascending(s0 + [x])
    requires !Continues(Runs(s0), x)
    ensures forall i :: 0 <= i < |s0| ==> PointLe(s0[i], x) && s0[i] != x
  {
    var s := s0 + [x];
    forall i | 0 <= i < |s0|
      ensures PointLe(s0[i], x) && s0[i] != x
    {
      assert s[i] == s0[i] && s[|s0| - 1] == s0[|s0| - 1] && s[|s0|] == x;
      assert PointLe(s[i], s[|s0|]);
      assert PointLe(s[i], s[|s0| - 1]);
    }
  }

  /** `x` starts a new run, above all earlier ones. */
  lemma RunsStepNew(s0: seq<Point>, x: Point)
    requires !Continues(Runs(s0), x)
    requires forall i :: 0 <= i < |s0| ==> PointLe(s0[i], x) && s0[i] != x
    requires forall g :: 0 <= g < |Runs(s0)| ==> Runs(s0)[g].at in s0
    requires StrictlyAscending(RunPoints(Runs(s0)))
    requires forall g :: 0 <= g < |Runs(s0)| ==> Runs(s0)[g].count == multiset(s0)[Runs(s0)[g].at]
    ensures var r := Push(Runs(s0), x);
      StrictlyAscending(RunPoints(r)) &&
      forall g :: 0 <= g < |r| ==> r[g].count == multiset(s0 + [x])[r[g].at]
  {
    var r0 := Runs(s0);
    forall g | 0 <= g < |r0|
      ensures PointLe(r0[g].at, x) && r0[g].at != x
    {
      assert r0[g].at in s0;
    }
    NewRunAscending(r0, x);
    NewRunCounts(s0, r0, x);
  }

  lemma NewRunAscending(r0: seq<Run>, x: Point)
    requires !Continues(r0, x)
    requires forall g :: 0 <= g < |r0| ==> PointLe(r0[g].at, x) && r0[g].at != x
    requires StrictlyAscending(RunPoints(r0))
    ensures StrictlyAscending(RunPoints(Push(r0, x)))
  {
    assert RunPoints(Push(r0, x)) == RunPoints(r0) + [x];
  }

  lemma NewRunCounts(s0: seq<Point>, r0: seq<Run>, x: Point)
    requires !Continues(r0, x)
    requires forall i :: 0 <= i < |s0| ==> s0[i] != x
    requires forall g :: 0 <= g < |r0| ==> r0[g].at != x
    requires forall g :: 0 <= g < |r0| ==> r0[g].count == multiset(s0)[r0[g].at]
    ensures var r := Push(r0, x);
      forall g :: 0 <= g < |r| ==> r[g].count == multiset(s0 + [x])[r[g].at]
  {
    assert multiset(s0 + [x]) == multiset(s0) + multiset{x};
    assert x !in multiset(s0);
  }

  /** Every run is reached by some element. */
  lemma {:induction false} RunsCoverOnto(s: seq<Point>)
    ensures forall g :: 0 <= g < |Runs(s)| ==> Runs(s)[g].at in s
  {
    if s != [] {
      var s0, x := s[..|s| - 1], s[|s| - 1];
      RunsCoverOnto(s0);
      assert s == s0 + [x];
      assert Runs(s) == Push(Runs(s0), x);
      forall g | 0 <= g < |Runs(s)|
        ensures Runs(s)[g].at in s
      {
        if g < |Runs(s)| - 1 {
          // Push keeps every earlier run, which covers a point of s0.
          assert Runs(s)[g] == Runs(s0)[g];
          assert Runs(s0)[g].at in s0;
        }
      }
    }
  }

  // ---------------------------------------------------------------------
  // Faces: the ids of each face sorted, faces sorted by those, and the
  // faces whose three smallest ids occur more than once dropped.

  predicate IdsAscending(s: seq<nat>) {
    forall i, j :: 0 <= i < j < |s| ==> s[i] <= s[j]
  }

  /** `x` placed into an ascending list, before the first larger id. */
  function Insert(x: nat, s: seq<nat>): (r: seq<nat>)
    ensures |r| == |s| + 1
  {
    if s == [] || x <= s[0] then [x] + s else [s[0]] + Insert(x, s[1..])
  }

  lemma {:induction false} InsertMultiset(x: nat, s: seq<nat>)
    ensures multiset(Insert(x, s)) == multiset(s) + multiset{x}
  {
    if s != [] && x > s[0] {
      InsertMultiset(x, s[1..]);
      assert s == [s[0]] + s[1..];
    }
  }

  lemma {:induction false} InsertElements(x: nat, s: seq<nat>)
    ensures forall k :: 0 <= k < |Insert(x, s)| ==> Insert(x, s)[k] == x || Insert(x, s)[k] in s
  {
    if s != [] && x > s[0] {
      InsertElements(x, s[1..]);
      var t := Insert(x, s[1..]);
      forall k | 0 <= k < |t| && t[k] != x
        ensures t[k] in s
      {
        var i :| 0 <= i < |s[1..]| && s[1..][i] == t[k];
        assert s[1 + i] == t[k];
      }
    }
  }

  lemma {:induction false} InsertAscending(x: nat, s: seq<nat>)
    requires IdsAscending(s)
    ensures IdsAscending(Insert(x, s))
  {
    if s == [] || x <= s[0] {
      ConsAscending(x, s);
    } else {
      var t := Insert(x, s[1..]);
      assert IdsAscending(s[1..]);
      InsertAscending(x, s[1..]);
      InsertElements(x, s[1..]);
      forall k | 0 <= k < |t|
        ensures s[0] <= t[k]
      {
        if t[k] != x {
          var i :| 0 <= i < |s[1..]| && s[1..][i] == t[k];
          assert s[1 + i] == t[k];
        }
      }
      ConsAscending(s[0], t);
    }
  }

  /** An id no larger than any of an ascending list goes in front. */
  lemma ConsAscending(b: nat, t: seq<nat>)
    requires IdsAscending(t) && forall k :: 0 <= k < |t| ==> b <= t[k]
    ensures IdsAscending([b] + t)
  {
    var r := [b] + t;
    forall i, j | 0 <= i < j < |r|
      ensures r[i] <= r[j]
    {
      assert r[j] == t[j - 1];
      if i > 0 {
        assert r[i] == t[i - 1];
      }
    }
  }

  /** `torch.sort(face)`: the ids in ascending order. */
  function SortAsc(s: seq<nat>): (r: seq<nat>)
    ensures |r| == |s|
  {
    if s == [] then [] else Insert(s[0], SortAsc(s[1..]))
  }

  /** Sorting keeps the ids and puts them in ascending order. */
  lemma {:induction false} SortAscSorts(s: seq<nat>)
    ensures multiset(SortAsc(s)) == multiset(s)
    ensures IdsAscending(SortAsc(s))
  {
    if s != [] {
      SortAscSorts(s[1..]);
      InsertMultiset(s[0], SortAsc(s[1..]));
      InsertAscending(s[0], SortAsc(s[1..]));
      assert s == [s[0]] + s[1..];
    }
  }

  /** Lexicographic order on id lists. */
  predicate IdsLe(a: seq<nat>, b: seq<nat>) {
    a == [] || (b != [] && (a[0] < b[0] || (a[0] == b[0] && IdsLe(a[1..], b[1..]))))
  }

  /** Every face has at least three ids. */
  predicate Polygons(faces: seq<seq<nat>>) {
    forall f :: 0 <= f < |faces| ==> |faces[f]| >= 3
  }

  /** `q` sorts the faces by their sorted ids: `np.lexsort` on the columns of
      the descending sort puts the smallest id first as the primary key. */
  predicate SortsFaces(q: seq<nat>, faces: seq<seq<nat>>) {
    IsPermutation(q, |faces|) &&
    forall i, j :: 0 <= i < j < |q| ==> IdsLe(SortAsc(faces[q[i]]), SortAsc(faces[q[j]]))
  }

  /** The face's three smallest ids: the index `faces_coo` counts it under. */
  function Key(face: seq<nat>): Point
    requires |face| >= 3
  {
    var s := SortAsc(face);
    Point(s[0], s[1], s[2])
  }

  function Keys(faces: seq<seq<nat>>): (ks: seq<Point>)
    requires Polygons(faces)
    ensures |ks| == |faces|
  {
    seq(|faces|, f requires 0 <= f < |faces| => Key(faces[f]))
  }

  /** The key order follows the order on whole id lists. */
  lemma KeyLe(a: seq<nat>, b: seq<nat>)
    requires |a| >= 3 && |b| >= 3 && IdsLe(a, b)
    ensures PointLe(Point(a[0], a[1], a[2]), Point(b[0], b[1], b[2]))
  {
    if a[0] == b[0] {
      assert IdsLe(a[1..], b[1..]);
      if a[1] == b[1] {
        assert IdsLe(a[2..], b[2..]);
        assert a[1..][1..] == a[2..] && b[1..][1..] == b[2..];
      }
    }
  }

  /** Sorting the faces sorts their keys. */
  lemma SortedKeys(q: seq<nat>, faces: seq<seq<nat>>)
    requires Polygons(faces) && SortsFaces(q, faces)
    ensures Polygons(Permuted(faces, q))
    ensures Ascending(Keys(Permuted(faces, q)))
  {
    var ks := Keys(Permuted(faces, q));
    forall i, j | 0 <= i < j < |ks|
      ensures PointLe(ks[i], ks[j])
    {
      KeyLe(SortAsc(faces[q[i]]), SortAsc(faces[q[j]]));
    }
  }

  /** `(values < 2).repeat_interleave(values)`: true at every element whose
      run has a single member. */
  function Unshared(ks: seq<Point>): (mask: seq<bool>)
    ensures |mask| == |ks|
  {
    var r := Runs(ks);
    RunsCover(ks);
    seq(|ks|, p requires 0 <= p < |ks| => r[Expand(r)[p]].count < 2)
  }

  /** On sorted keys the mask keeps exactly the elements whose key no other
      element has. */
  lemma UnsharedIff(ks: seq<Point>, p: nat)
    requires Ascending(ks) && p < |ks|
    ensures Unshared(ks)[p] <==> forall q :: 0 <= q < |ks| && q != p ==> ks[q] != ks[p]
  {
    var r := Runs(ks);
    RunsCover(ks);
    RunsOfSorted(ks);
    assert r[Expand(r)[p]].count == multiset(ks)[ks[p]];
    OccursOnce(ks, p);
  }

  /** An element occurs once exactly when no other position holds it. */
  lemma OccursOnce<T>(s: seq<T>, p: nat)
    requires p < |s|
    ensures multiset(s)[s[p]] == 1 <==> forall q :: 0 <= q < |s| && q != p ==> s[q] != s[p]
  {
    var x := s[p];
    assert s == s[..p] + [x] + s[p + 1..];
    assert multiset(s) == multiset(s[..p]) + multiset{x} + multiset(s[p + 1..]);
    if forall q :: 0 <= q < |s| && q != p ==> s[q] != x {
      assert x !in s[..p];
      var t := s[p + 1..];
      assert x !in t by {
        forall k | 0 <= k < |t|
          ensures t[k] != x
        {
          assert t[k] == s[p + 1 + k];
        }
      }
    } else {
      var q :| 0 <= q < |s| && q != p && s[q] == x;
      if q < p {
        assert s[..p][q] == x;
      } else {
        assert s[p + 1..][q - p - 1] == x;
      }
    }
  }

  /** `s[mask]`: the elements where the mask is true. */
  function Masked<T>(s: seq<T>, mask: seq<bool>): (r: seq<T>)
    requires |s| == |mask|
    ensures |r| <= |s|
  {
    if s == [] then []
    else Masked(s[..|s| - 1], mask[..|mask| - 1]) + (if mask[|mask| - 1] then [s[|s| - 1]] else [])
  }

  /** The positions where the mask is true, in increasing order. */
  function KeptAt(mask: seq<bool>): (ks: seq<nat>)
    ensures |ks| <= |mask|
  {
    if mask == [] then []
    else KeptAt(mask[..|mask| - 1]) + (if mask[|mask| - 1] then [|mask| - 1] else [])
  }

  /** The kept positions are exactly the true ones, each listed once. */
  lemma {:induction false} KeptAtPositions(mask: seq<bool>)
    ensures forall r :: 0 <= r < |KeptAt(mask)| ==> KeptAt(mask)[r] < |mask| && mask[KeptAt(mask)[r]]
    ensures forall p :: 0 <= p < |mask| ==> (p in KeptAt(mask) <==> mask[p])
    ensures forall r, t :: 0 <= r < t < |KeptAt(mask)| ==> KeptAt(mask)[r] < KeptAt(mask)[t]
  {
    if mask != [] {
      var m0 := mask[..|mask| - 1];
      KeptAtPositions(m0);
      forall p | 0 <= p < |m0|
        ensures mask[p] == m0[p]
      {
      }
    }
  }

  /** `s[mask]` lists `s` at the kept positions. */
  lemma {:induction false} MaskedAtKept<T>(s: seq<T>, mask: seq<bool>)
    requires |s| == |mask|
    ensures |Masked(s, mask)| == |KeptAt(mask)|
    ensures forall r :: 0 <= r < |KeptAt(mask)| ==>
      KeptAt(mask)[r] < |s| && Masked(s, mask)[r] == s[KeptAt(mask)[r]]
  {
    KeptAtPositions(mask);
    if s != [] {
      var s0, m0 := s[..|s| - 1], mask[..|mask| - 1];
      MaskedAtKept(s0, m0);
      KeptAtPositions(m0);
      var k0 := KeptAt(m0);
      forall r | 0 <= r < |k0|
        ensures s[k0[r]] == s0[k0[r]]
      {
      }
    }
  }

  /** Polygons and their colours, one colour per polygon. */
  datatype Surface = Surface(faces: seq<seq<nat>>, colours: seq<real>)

  /** The kept positions of the sorted faces. */
  function KeptSorted(faces: seq<seq<nat>>, q: seq<nat>): seq<nat>
    requires Polygons(faces) && SortsFaces(q, faces)
  {
    SortedKeys(q, faces);
    KeptAt(Unshared(Keys(Permuted(faces, q))))
  }

  /** The original face behind each surviving face: `q` at the kept
      positions. */
  function Origins(faces: seq<seq<nat>>, q: seq<nat>): (o: seq<nat>)
    requires Polygons(faces) && SortsFaces(q, faces)
    ensures |o| == |KeptSorted(faces, q)|
  {
    var kept := KeptSorted(faces, q);
    SortedKeys(q, faces);
    KeptAtPositions(Unshared(Keys(Permuted(faces, q))));
    Permuted(q, kept)
  }

  /** Lines 55-66 as written: the faces are put in key order, the mask is
      computed on that order and applied to the faces and to the colours,
      which were never reordered. */
  function DropShared(faces: seq<seq<nat>>, colours: seq<real>, q: seq<nat>): (r: Surface)
    requires Polygons(faces) && SortsFaces(q, faces) && |colours| == |faces|
    ensures |r.faces| == |r.colours| <= |faces|
  {
    var sorted := Permuted(faces, q);
    SortedKeys(q, faces);
    var mask := Unshared(Keys(sorted));
    MaskedAtKept(sorted, mask);
    MaskedAtKept(colours, mask);
    Surface(Masked(sorted, mask), Masked(colours, mask))
  }

  /** The same step with the colours reordered by `q` along with the faces. */
  function DropSharedAligned(faces: seq<seq<nat>>, colours: seq<real>, q: seq<nat>): Surface
    requires Polygons(faces) && SortsFaces(q, faces) && |colours| == |faces|
  {
    var sorted := Permuted(faces, q);
    SortedKeys(q, faces);
    var mask := Unshared(Keys(sorted));
    Surface(Masked(sorted, mask), Masked(Permuted(colours, q), mask))
  }

  /** With the colours reordered, every surviving face is an original face
      carrying its own colour, and no original face survives twice. */
  lemma DropSharedAlignedOrigins(faces: seq<seq<nat>>, colours: seq<real>, q: seq<nat>)
    requires Polygons(faces) && SortsFaces(q, faces) && |colours| == |faces|
    ensures var out := DropSharedAligned(faces, colours, q);
      var o := Origins(faces, q);
      |out.faces| == |o| && |out.colours| == |o| &&
      (forall r :: 0 <= r < |o| ==> o[r] < |faces| && out.faces[r] == faces[o[r]] && out.colours[r] == colours[o[r]]) &&
      (forall r, t :: 0 <= r < t < |o| ==> o[r] != o[t])
  {
    var sorted := Permuted(faces, q);
    SortedKeys(q, faces);
    var mask := Unshared(Keys(sorted));
    KeptAtPositions(mask);
    MaskedAtKept(sorted, mask);
    MaskedAtKept(Permuted(colours, q), mask);
  }

  /** As written, surviving face `r` is the original face `Origins[r]`, but
      its colour is the colour at its position in the sorted order. */
  lemma DropSharedColours(faces: seq<seq<nat>>, colours: seq<real>, q: seq<nat>)
    requires Polygons(faces) && SortsFaces(q, faces) && |colours| == |faces|
    ensures var out := DropShared(faces, colours, q);
      var o := Origins(faces, q);
      var kept := KeptSorted(faces, q);
      |out.faces| == |o| && |out.colours| == |o| &&
      (forall r :: 0 <= r < |o| ==>
        o[r] < |faces| && kept[r] < |faces| && out.faces[r] == faces[o[r]] && out.colours[r] == colours[kept[r]])
  {
    var sorted := Permuted(faces, q);
    SortedKeys(q, faces);
    var mask := Unshared(Keys(sorted));
    KeptAtPositions(mask);
    MaskedAtKept(sorted, mask);
    MaskedAtKept(colours, mask);
  }

  /** A face survives exactly when no other face has the same three smallest
      ids. */
  lemma DropSharedKept(faces: seq<seq<nat>>, q: seq<nat>, f: nat)
    requires Polygons(faces) && SortsFaces(q, faces) && f < |faces|
    ensures f in Origins(faces, q) <==>
      forall g :: 0 <= g < |faces| && g != f ==> Key(faces[g]) != Key(faces[f])
  {
    var sorted := Permuted(faces, q);
    SortedKeys(q, faces);
    var ks := Keys(sorted);
    var mask := Unshared(ks);
    var kept := KeptAt(mask);
    KeptAtPositions(mask);
    InverseProperties(q);
    var p := Inverse(q)[f];
    UnsharedIff(ks, p);
    KeptIffPosition(q, kept, f, p);
    UniqueKeyMoves(faces, q, ks, f, p);
  }

  /** `f` is behind a kept face exactly when its sorted position is kept. */
  lemma KeptIffPosition(q: seq<nat>, kept: seq<nat>, f: nat, p: nat)
    requires IsPermutation(q, |q|) && p < |q| && q[p] == f
    requires forall r :: 0 <= r < |kept| ==> kept[r] < |q|
    ensures f in Permuted(q, kept) <==> p in kept
  {
    if f in Permuted(q, kept) {
      var r :| 0 <= r < |kept| && Permuted(q, kept)[r] == f;
      assert q[kept[r]] == q[p];
    }
    if p in kept {
      var r :| 0 <= r < |kept| && kept[r] == p;
      assert Permuted(q, kept)[r] == f;
    }
  }

  /** A key unique among the sorted faces is unique among the original ones. */
  lemma UniqueKeyMoves(faces: seq<seq<nat>>, q: seq<nat>, ks: seq<Point>, f: nat, p: nat)
    requires Polygons(faces) && IsPermutation(q, |faces|) && p < |q| && q[p] == f
    requires |ks| == |q| && forall x :: 0 <= x < |q| ==> ks[x] == Key(faces[q[x]])
    ensures (forall x :: 0 <= x < |ks| && x != p ==> ks[x] != ks[p]) <==>
      (forall g :: 0 <= g < |faces| && g != f ==> Key(faces[g]) != Key(faces[f]))
  {
    InverseProperties(q);
    if forall x :: 0 <= x < |ks| && x != p ==> ks[x] != ks[p] {
      forall g | 0 <= g < |faces| && g != f
        ensures Key(faces[g]) != Key(faces[f])
      {
        var x := Inverse(q)[g];
        assert q[x] == g;
      }
    }
  }

  /** Sorting an ascending list changes nothing. */
  lemma {:induction false} SortAscOfAscending(s: seq<nat>)
    requires IdsAscending(s)
    ensures SortAsc(s) == s
  {
    if s != [] {
      assert IdsAscending(s[1..]);
      SortAscOfAscending(s[1..]);
      assert s == [s[0]] + s[1..];
    }
  }

  /** Two faces with different keys, listed against key order: the sort
      swaps them, both survive, and the first surviving face, originally
      face 1, is painted with the colour of face 0. */
  lemma MisalignedColour()
    ensures var faces := [[2, 3, 4, 5], [0, 1, 2, 3]];
      var colours := [1.0, 2.0];
      var q := [1, 0];
      Polygons(faces) && SortsFaces(q, faces) &&
      var out := DropShared(faces, colours, q);
      |out.faces| == 2 && out.faces[0] == faces[1] && out.colours[0] == colours[0] && colours[0] != colours[1]
  {
    var faces: seq<seq<nat>> := [[2, 3, 4, 5], [0, 1, 2, 3]];
    var q: seq<nat> := [1, 0];
    TwoFacesSwapped(faces, q);
    var sorted := Permuted(faces, q);
    TwoKeysKept(Keys(sorted));
    MaskedAllKept(sorted, Unshared(Keys(sorted)));
    MaskedAllKept([1.0, 2.0], Unshared(Keys(sorted)));
  }

  lemma TwoFacesSwapped(faces: seq<seq<nat>>, q: seq<nat>)
    requires faces == [[2, 3, 4, 5], [0, 1, 2, 3]] && q == [1, 0]
    ensures Polygons(faces) && SortsFaces(q, faces)
    ensures Permuted(faces, q) == [faces[1], faces[0]]
    ensures Polygons(Permuted(faces, q)) && Keys(Permuted(faces, q)) == [Point(0, 1, 2), Point(2, 3, 4)]
  {
    SortAscOfAscending(faces[0]);
    SortAscOfAscending(faces[1]);
    SwappedInOrder(faces[1], faces[0]);
    SwapPermutation(q);
    assert Permuted(faces, q) == [faces[1], faces[0]];
    SwappedKeys(Permuted(faces, q));
  }

  lemma SwappedKeys(sorted: seq<seq<nat>>)
    requires sorted == [[0, 1, 2, 3], [2, 3, 4, 5]]
    ensures Polygons(sorted) && Keys(sorted) == [Point(0, 1, 2), Point(2, 3, 4)]
  {
    SortAscOfAscending(sorted[0]);
    SortAscOfAscending(sorted[1]);
  }

  lemma SwappedInOrder(a: seq<nat>, b: seq<nat>)
    requires a == [0, 1, 2, 3] && b == [2, 3, 4, 5]
    ensures IdsLe(a, b)
  {
  }

  lemma SwapPermutation(q: seq<nat>)
    requires q == [1, 0]
    ensures IsPermutation(q, 2)
  {
    assert q[1] == 0 && q[0] == 1;
  }

  lemma TwoKeysKept(ks: seq<Point>)
    requires ks == [Point(0, 1, 2), Point(2, 3, 4)]
    ensures Unshared(ks) == [true, true]
  {
    UnsharedIff(ks, 0);
    UnsharedIff(ks, 1);
  }

  lemma MaskedAllKept<T>(s: seq<T>, mask: seq<bool>)
    requires |s| == 2 && mask == [true, true]
    ensures Masked(s, mask) == s
  {
    assert Masked(s[..1], mask[..1]) == [s[0]];
  }

  // ---------------------------------------------------------------------
  // `generate_voxel`, stage by stage.

  /** The mesh `generate_voxel` returns, vertices in doubled coordinates. */
  datatype VoxelMesh = VoxelMesh(vertices: seq<Point>, faces: seq<seq<nat>>, colours: seq<real>)

  /** Lines 30-37: the cube corners in sorted order. */
  function SortedCorners(voxels: seq<Voxel>, offset: seq<Point>, vertsMap: seq<nat>): seq<Point>
    requires |offset| == 8 && SortsPoints(vertsMap, CubeVertices(voxels, offset))
  {
    Permuted(CubeVertices(voxels, offset), vertsMap)
  }

  /** Lines 44-48: the distinct corners, in sorted order. */
  function MergedVertices(voxels: seq<Voxel>, offset: seq<Point>, vertsMap: seq<nat>): seq<Point>
    requires |offset| == 8 && SortsPoints(vertsMap, CubeVertices(voxels, offset))
  {
    RunPoints(Runs(SortedCorners(voxels, offset, vertsMap)))
  }

  /** Lines 40-42 and 51-52: faces on a corner list, re-indexed into the
      list sorted by `p` and then into its distinct points. */
  function Merge(vs: seq<Point>, p: seq<nat>, faces: seq<seq<nat>>): (fs: seq<seq<nat>>)
    requires IsPermutation(p, |vs|) && EntriesBelow(faces, |vs|)
    ensures |fs| == |faces| && forall f :: 0 <= f < |faces| ==> |fs[f]| == |faces[f]|
  {
    ReindexKeepsCorners(vs, p, faces);
    RunsCover(Permuted(vs, p));
    Reindex(Reindex(faces, Inverse(p)), Expand(Runs(Permuted(vs, p))))
  }

  /** Lines 20-27 and 40-52: the cube faces, on the distinct corners. */
  function MergedFaces(voxels: seq<Voxel>, offset: seq<Point>, table: seq<seq<nat>>, vertsMap: seq<nat>): (fs: seq<seq<nat>>)
    requires |offset| == 8 && FaceTable(table) && SortsPoints(vertsMap, CubeVertices(voxels, offset))
    ensures |fs| == 6 * |voxels| && Polygons(fs)
  {
    CubeFacesInRange(|voxels|, table);
    Merge(CubeVertices(voxels, offset), vertsMap, CubeFaces(|voxels|, table))
  }

  /** `generate_voxel` as written: the colours keep the voxel order while
      the faces are reordered (see `DropShared`). */
  function GenerateVoxel(voxels: seq<Voxel>, offset: seq<Point>, table: seq<seq<nat>>, vertsMap: seq<nat>, indexMap: seq<nat>): (r: VoxelMesh)
    requires |offset| == 8 && FaceTable(table) && SortsPoints(vertsMap, CubeVertices(voxels, offset))
    requires SortsFaces(indexMap, MergedFaces(voxels, offset, table, vertsMap))
    ensures |r.faces| == |r.colours| <= 6 * |voxels|
  {
    var out := DropShared(MergedFaces(voxels, offset, table, vertsMap), FaceColours(voxels), indexMap);
    VoxelMesh(MergedVertices(voxels, offset, vertsMap), out.faces, out.colours)
  }

  /** `generate_voxel` with the colours reordered along with the faces. */
  function GenerateVoxelAligned(voxels: seq<Voxel>, offset: seq<Point>, table: seq<seq<nat>>, vertsMap: seq<nat>, indexMap: seq<nat>): VoxelMesh
    requires |offset| == 8 && FaceTable(table) && SortsPoints(vertsMap, CubeVertices(voxels, offset))
    requires SortsFaces(indexMap, MergedFaces(voxels, offset, table, vertsMap))
  {
    var out := DropSharedAligned(MergedFaces(voxels, offset, table, vertsMap), FaceColours(voxels), indexMap);
    VoxelMesh(MergedVertices(voxels, offset, vertsMap), out.faces, out.colours)
  }

  /** `face` lists, as positions in `vertices`, the corners of face `j` of
      the cube of voxel `i`. */
  predicate NamesCorners(vertices: seq<Point>, face: seq<nat>, voxels: seq<Voxel>, offset: seq<Point>, table: seq<seq<nat>>, i: nat, j: nat)
    requires |offset| == 8 && FaceTable(table) && i < |voxels| && j < 6
  {
    |face| == |table[j]| &&
    forall m :: 0 <= m < |face| ==> face[m] < |vertices| && vertices[face[m]] == Corner(voxels[i].index, offset[table[j][m]])
  }

  /** Re-indexing through the inverse and then through the run map keeps,
      for every face entry, the point it names. */
  lemma MergeKeepsCorners(vs: seq<Point>, p: seq<nat>, faces: seq<seq<nat>>)
    requires IsPermutation(p, |vs|) && EntriesBelow(faces, |vs|)
    ensures var merged := Merge(vs, p, faces);
      forall f, m :: 0 <= f < |faces| && 0 <= m < |faces[f]| ==>
        merged[f][m] < |Runs(Permuted(vs, p))| && RunPoints(Runs(Permuted(vs, p)))[merged[f][m]] == vs[faces[f][m]]
  {
    RunsCover(Permuted(vs, p));
    ReindexKeepsCorners(vs, p, faces);
  }

  /** Merged face `f` still names the corners of face `f % 6` of cube
      `f / 6`. */
  lemma MergedFacesNameCorners(voxels: seq<Voxel>, offset: seq<Point>, table: seq<seq<nat>>, vertsMap: seq<nat>, f: nat)
    requires |offset| == 8 && FaceTable(table) && SortsPoints(vertsMap, CubeVertices(voxels, offset))
    requires f < 6 * |voxels|
    ensures NamesCorners(MergedVertices(voxels, offset, vertsMap), MergedFaces(voxels, offset, table, vertsMap)[f],
      voxels, offset, table, f / 6, f % 6)
  {
    var vs := CubeVertices(voxels, offset);
    var cube := CubeFaces(|voxels|, table);
    CubeFacesInRange(|voxels|, table);
    MergeKeepsCorners(vs, vertsMap, cube);
    CubeFaceCorners(voxels, offset, table, f);
    var verts := RunPoints(Runs(Permuted(vs, vertsMap)));
    var merged := Merge(vs, vertsMap, cube);
    NamesFromChain(verts, merged[f], cube[f], vs, voxels, offset, table, f / 6, f % 6);
    assert MergedVertices(voxels, offset, vertsMap) == verts;
    assert MergedFaces(voxels, offset, table, vertsMap) == merged;
  }

  /** Cube face `f` lists the corners of face `f % 6` of cube `f / 6`. */
  lemma CubeFaceCorners(voxels: seq<Voxel>, offset: seq<Point>, table: seq<seq<nat>>, f: nat)
    requires |offset| == 8 && FaceTable(table) && f < 6 * |voxels|
    ensures var face := CubeFaces(|voxels|, table)[f];
      var vs := CubeVertices(voxels, offset);
      |face| == |table[f % 6]| &&
      forall m :: 0 <= m < |face| ==> face[m] < |vs| && vs[face[m]] == Corner(voxels[f / 6].index, offset[table[f % 6][m]])
  {
    var i, j := f / 6, f % 6;
    var vs := CubeVertices(voxels, offset);
    var face := CubeFaces(|voxels|, table)[f];
    FaceOfVoxel(voxels, table, i, j);
    assert 6 * i + j == f;
    forall m | 0 <= m < |face|
      ensures face[m] < |vs| && vs[face[m]] == Corner(voxels[i].index, offset[table[j][m]])
    {
      VertexOfVoxel(voxels, offset, i, table[j][m]);
    }
  }

  /** A face that names, entry by entry, the same points as a cube face
      names the corners of that cube face. */
  lemma NamesFromChain(verts: seq<Point>, face: seq<nat>, cubeFace: seq<nat>, vs: seq<Point>,
                       voxels: seq<Voxel>, offset: seq<Point>, table: seq<seq<nat>>, i: nat, j: nat)
    requires |offset| == 8 && FaceTable(table) && i < |voxels| && j < 6
    requires |face| == |cubeFace| == |table[j]|
    requires forall m :: 0 <= m < |cubeFace| ==> cubeFace[m] == 8 * i + table[j][m]
    requires forall m :: 0 <= m < |face| ==> face[m] < |verts| && cubeFace[m] < |vs| && verts[face[m]] == vs[cubeFace[m]]
    requires forall m :: 0 <= m < |cubeFace| ==> vs[cubeFace[m]] == Corner(voxels[i].index, offset[table[j][m]])
    ensures NamesCorners(verts, face, voxels, offset, table, i, j)
  {
  }

  /** The vertices are the distinct cube corners, strictly ascending. */
  lemma GenerateVoxelVertices(voxels: seq<Voxel>, offset: seq<Point>, vertsMap: seq<nat>)
    requires |offset| == 8 && SortsPoints(vertsMap, CubeVertices(voxels, offset))
    ensures StrictlyAscending(MergedVertices(voxels, offset, vertsMap))
    ensures forall v :: v in MergedVertices(voxels, offset, vertsMap) <==> v in CubeVertices(voxels, offset)
  {
    var sorted := SortedCorners(voxels, offset, vertsMap);
    RunsOfSorted(sorted);
    PermutedMembers(CubeVertices(voxels, offset), vertsMap);
    RunPointsMembers(sorted);
  }

  /** A permutation keeps the members. */
  lemma PermutedMembers<T>(s: seq<T>, p: seq<nat>)
    requires IsPermutation(p, |s|)
    ensures forall v :: v in Permuted(s, p) <==> v in s
  {
    InverseProperties(p);
    forall v | v in s
      ensures v in Permuted(s, p)
    {
      var c :| 0 <= c < |s| && s[c] == v;
      assert Permuted(s, p)[Inverse(p)[c]] == v;
    }
  }

  /** Merging runs keeps the members. */
  lemma RunPointsMembers(s: seq<Point>)
    ensures forall v :: v in RunPoints(Runs(s)) <==> v in s
  {
    RunsCover(s);
    RunsCoverOnto(s);
    var e := Expand(Runs(s));
    forall v | v in s
      ensures v in RunPoints(Runs(s))
    {
      var x :| 0 <= x < |s| && s[x] == v;
      assert RunPoints(Runs(s))[e[x]] == v;
    }
    forall v | v in RunPoints(Runs(s))
      ensures v in s
    {
      var g :| 0 <= g < |Runs(s)| && RunPoints(Runs(s))[g] == v;
      assert Runs(s)[g].at in s;
    }
  }

  /** Every face of the mesh is a face of some cube, listed once, naming that
      cube's corners among the mesh vertices. */
  lemma GenerateVoxelFaces(voxels: seq<Voxel>, offset: seq<Point>, table: seq<seq<nat>>, vertsMap: seq<nat>, indexMap: seq<nat>)
    requires |offset| == 8 && FaceTable(table) && SortsPoints(vertsMap, CubeVertices(voxels, offset))
    requires SortsFaces(indexMap, MergedFaces(voxels, offset, table, vertsMap))
    ensures var out := GenerateVoxel(voxels, offset, table, vertsMap, indexMap);
      var o := Origins(MergedFaces(voxels, offset, table, vertsMap), indexMap);
      |out.faces| == |o| && |out.colours| == |o| &&
      (forall r, t :: 0 <= r < t < |o| ==> o[r] != o[t]) &&
      forall r :: 0 <= r < |o| ==>
        o[r] < 6 * |voxels| && NamesCorners(out.vertices, out.faces[r], voxels, offset, table, o[r] / 6, o[r] % 6)
  {
    var merged := MergedFaces(voxels, offset, table, vertsMap);
    var colours := FaceColours(voxels);
    var out := GenerateVoxel(voxels, offset, table, vertsMap, indexMap);
    var o := Origins(merged, indexMap);
    DropSharedColours(merged, colours, indexMap);
    DropSharedAlignedOrigins(merged, colours, indexMap);
    forall r | 0 <= r < |o|
      ensures NamesCorners(out.vertices, out.faces[r], voxels, offset, table, o[r] / 6, o[r] % 6)
    {
      MergedFacesNameCorners(voxels, offset, table, vertsMap, o[r]);
    }
  }

  /** A cube face is in the mesh exactly when no other cube face has the same
      three smallest vertex ids. */
  lemma GenerateVoxelKept(voxels: seq<Voxel>, offset: seq<Point>, table: seq<seq<nat>>, vertsMap: seq<nat>, indexMap: seq<nat>, f: nat)
    requires |offset| == 8 && FaceTable(table) && SortsPoints(vertsMap, CubeVertices(voxels, offset))
    requires SortsFaces(indexMap, MergedFaces(voxels, offset, table, vertsMap))
    requires f < 6 * |voxels|
    ensures var merged := MergedFaces(voxels, offset, table, vertsMap);
      f in Origins(merged, indexMap) <==>
      forall g :: 0 <= g < |merged| && g != f ==> Key(merged[g]) != Key(merged[f])
  {
    DropSharedKept(MergedFaces(voxels, offset, table, vertsMap), indexMap, f);
  }

  /** With the colours reordered, face `r` carries the value of the voxel
      whose cube it came from. */
  lemma GenerateVoxelAlignedColours(voxels: seq<Voxel>, offset: seq<Point>, table: seq<seq<nat>>, vertsMap: seq<nat>, indexMap: seq<nat>)
    requires |offset| == 8 && FaceTable(table) && SortsPoints(vertsMap, CubeVertices(voxels, offset))
    requires SortsFaces(indexMap, MergedFaces(voxels, offset, table, vertsMap))
    ensures var out := GenerateVoxelAligned(voxels, offset, table, vertsMap, indexMap);
      var o := Origins(MergedFaces(voxels, offset, table, vertsMap), indexMap);
      out.faces == GenerateVoxel(voxels, offset, table, vertsMap, indexMap).faces &&
      |out.colours| == |o| &&
      forall r :: 0 <= r < |o| ==> o[r] / 6 < |voxels| && out.colours[r] == voxels[o[r] / 6].value
  {
    var merged := MergedFaces(voxels, offset, table, vertsMap);
    var o := Origins(merged, indexMap);
    DropSharedAlignedOrigins(merged, FaceColours(voxels), indexMap);
  }

  /** As written, face `r` carries the value of the voxel at its position in
      the sorted face order, not of the voxel it came from. */
  lemma GenerateVoxelColours(voxels: seq<Voxel>, offset: seq<Point>, table: seq<seq<nat>>, vertsMap: seq<nat>, indexMap: seq<nat>)
    requires |offset| == 8 && FaceTable(table) && SortsPoints(vertsMap, CubeVertices(voxels, offset))
    requires SortsFaces(indexMap, MergedFaces(voxels, offset, table, vertsMap))
    ensures var out := GenerateVoxel(voxels, offset, table, vertsMap, indexMap);
      var kept := KeptSorted(MergedFaces(voxels, offset, table, vertsMap), indexMap);
      |out.colours| == |kept| &&
      forall r :: 0 <= r < |kept| ==> kept[r] / 6 < |voxels| && out.colours[r] == voxels[kept[r] / 6].value
  {
    var merged := MergedFaces(voxels, offset, table, vertsMap);
    DropSharedColours(merged, FaceColours(voxels), indexMap);
  }

  // ---------------------------------------------------------------------
  // `generate_triangles`: each polygon becomes a fan of triangles around
  // its first corner.

  /** The fan of a polygon: triangle `t` is corners 0, t + 1 and t + 2. */
  function Fan(face: seq<nat>): (ts: seq<seq<nat>>)
    requires |face| >= 2
    ensures |ts| == |face| - 2
  {
    seq(|face| - 2, t requires 0 <= t < |face| - 2 => [face[0], face[t + 1], face[t + 2]])
  }

  /** The fans of all polygons, polygon by polygon. */
  function Fans(shapes: seq<seq<nat>>): seq<seq<nat>>
    requires forall f :: 0 <= f < |shapes| ==> |shapes[f]| >= 2
  {
    if shapes == [] then [] else Fans(shapes[..|shapes| - 1]) + Fan(shapes[|shapes| - 1])
  }

  /** Row `r` of the result: triangle `r % w` of polygon `r / w`. */
  function TriangleAt(shapes: seq<seq<nat>>, k: nat, r: nat): seq<nat>
    requires k > 2 && forall f :: 0 <= f < |shapes| ==> |shapes[f]| == k
    requires r < |shapes| * (k - 2)
  {
    Arith.DivBelow(r, |shapes|, k - 2);
    var f, t := r / (k - 2), r % (k - 2);
    [shapes[f][0], shapes[f][t + 1], shapes[f][t + 2]]
  }

  /** `generate_triangles` on polygons of `k` corners each: the index table
      `[0, t + 1, t + 2]` applied to every polygon, rows flattened. */
  function Triangles(shapes: seq<seq<nat>>, k: nat): (ts: seq<seq<nat>>)
    requires k >= 2 && forall f :: 0 <= f < |shapes| ==> |shapes[f]| == k
    ensures |ts| == |shapes| * (k - 2)
  {
    if k == 2 then []
    else seq(|shapes| * (k - 2), r requires 0 <= r < |shapes| * (k - 2) => TriangleAt(shapes, k, r))
  }

  /** The flattened index table is the concatenation of the fans. */
  lemma {:induction false} TrianglesAreFans(shapes: seq<seq<nat>>, k: nat)
    requires k >= 2 && forall f :: 0 <= f < |shapes| ==> |shapes[f]| == k
    ensures Triangles(shapes, k) == Fans(shapes)
  {
    if shapes != [] {
      var s0 := shapes[..|shapes| - 1];
      TrianglesAreFans(s0, k);
      if k > 2 {
        TrianglesSnoc(s0, shapes[|shapes| - 1], k);
        assert shapes == s0 + [shapes[|shapes| - 1]];
      } else {
        EmptyFans(shapes);
      }
    }
  }

  /** One more polygon appends its fan. */
  lemma TrianglesSnoc(s0: seq<seq<nat>>, x: seq<nat>, k: nat)
    requires k > 2 && |x| == k && forall f :: 0 <= f < |s0| ==> |s0[f]| == k
    ensures Triangles(s0 + [x], k) == Triangles(s0, k) + Fan(x)
  {
    var w := k - 2;
    var shapes := s0 + [x];
    var ts, ts0 := Triangles(shapes, k), Triangles(s0, k);
    assert |s0| * w + w == |shapes| * w;
    forall r | 0 <= r < |ts|
      ensures ts[r] == (ts0 + Fan(x))[r]
    {
      if r < |s0| * w {
        TriangleEarlier(s0, x, k, r);
      } else {
        TriangleLast(s0, x, k, r);
      }
    }
  }

  lemma TriangleLast(s0: seq<seq<nat>>, x: seq<nat>, k: nat, r: nat)
    requires k > 2 && |x| == k && forall f :: 0 <= f < |s0| ==> |s0[f]| == k
    requires |s0| * (k - 2) <= r < |s0| * (k - 2) + (k - 2)
    ensures |s0 + [x]| * (k - 2) == |s0| * (k - 2) + (k - 2)
    ensures TriangleAt(s0 + [x], k, r) == Fan(x)[r - |s0| * (k - 2)]
  {
    var w := k - 2;
    Arith.ModUnique(r, w, |s0|, r - |s0| * w);
    assert (s0 + [x])[|s0|] == x;
  }

  lemma TriangleEarlier(s0: seq<seq<nat>>, x: seq<nat>, k: nat, r: nat)
    requires k > 2 && |x| == k && forall f :: 0 <= f < |s0| ==> |s0[f]| == k
    requires r < |s0| * (k - 2)
    ensures |s0 + [x]| * (k - 2) == |s0| * (k - 2) + (k - 2)
    ensures TriangleAt(s0 + [x], k, r) == TriangleAt(s0, k, r)
  {
    Arith.DivBelow(r, |s0|, k - 2);
  }

  /** Polygons of two corners have no triangles. */
  lemma {:induction false} EmptyFans(shapes: seq<seq<nat>>)
    requires forall f :: 0 <= f < |shapes| ==> |shapes[f]| == 2
    ensures Fans(shapes) == []
  {
    if shapes != [] {
      EmptyFans(shapes[..|shapes| - 1]);
    }
  }

  /** Every fan triangle uses corners of its polygon, and the fan runs along
      the whole boundary: each boundary edge is an edge of some triangle. */
  lemma FanCoversBoundary(face: seq<nat>)
    requires |face| >= 3
    ensures forall t :: 0 <= t < |Fan(face)| ==> |Fan(face)[t]| == 3 && forall c :: c in Fan(face)[t] ==> c in face
    ensures Fan(face)[0][0] == face[0] && Fan(face)[0][1] == face[1]
    ensures forall t :: 0 <= t < |Fan(face)| ==> Fan(face)[t][1] == face[t + 1] && Fan(face)[t][2] == face[t + 2]
    ensures Fan(face)[|face| - 3][2] == face[|face| - 1] && Fan(face)[|face| - 3][0] == face[0]
  {
  }

  /** A quadrilateral becomes two triangles sharing the diagonal 0-2. */
  lemma QuadFan(a: nat, b: nat, c: nat, d: nat)
    ensures Triangles([[a, b, c, d]], 4) == [[a, b, c], [a, c, d]]
  {
    TrianglesAreFans([[a, b, c, d]], 4);
    assert Fans([[a, b, c, d]]) == Fans([]) + Fan([a, b, c, d]);
  }
}
