/** `cluster.py`: the meshes of separate clusters, each built on its own
    sub-grid, joined into one mesh of the whole grid. Vertices are in the
    doubled coordinates of `Mesh`, so the cluster's grid offset moves them by
    twice that offset. */
module Cluster {
  import opened Mesh

  /** A cluster: where its sub-grid starts in the whole grid, and its mesh. */
  datatype Cluster = Cluster(local: Point, vertices: seq<Point>, faces: seq<seq<nat>>, faceValues: seq<real>)

  /** `cluster.vertices + cluster.local`, doubled. */
  function Translate(vs: seq<Point>, local: Point): (r: seq<Point>)
    ensures |r| == |vs|
  {
    seq(|vs|, k requires 0 <= k < |vs| => Point(vs[k].x + 2 * local.x, vs[k].y + 2 * local.y, vs[k].z + 2 * local.z))
  }

  /** `cluster.faces + i`: every vertex id moved past `i` earlier vertices. */
  function Shift(faces: seq<seq<nat>>, i: nat): (r: seq<seq<nat>>)
    ensures |r| == |faces|
    ensures forall f :: 0 <= f < |faces| ==> |r[f]| == |faces[f]|
  {
    seq(|faces|, f requires 0 <= f < |faces| =>
      seq(|faces[f]|, m requires 0 <= m < |faces[f]| => faces[f][m] + i))
  }

  /** Every face has the 4 ids the stacking into an `(n, 4)` tensor needs. */
  predicate Quads(cs: seq<Cluster>) {
    forall n, f :: 0 <= n < |cs| && 0 <= f < |cs[n].faces| ==> |cs[n].faces[f]| == 4
  }

  /** The joined vertex list of the first `n` clusters. */
  function JoinedVertices(cs: seq<Cluster>, n: nat): (r: seq<Point>)
    requires n <= |cs|
    ensures forall j :: 0 <= j < n ==> |cs[j].vertices| <= |r|
  {
    if n == 0 then []
    else JoinedVertices(cs, n - 1) + Translate(cs[n - 1].vertices, cs[n - 1].local)
  }

  /** The joined face list of the first `n` clusters: each cluster's faces
      shifted past the vertices of the clusters before it. */
  function JoinedFaces(cs: seq<Cluster>, n: nat): (r: seq<seq<nat>>)
    requires n <= |cs|
    ensures Quads(cs) ==> forall f :: 0 <= f < |r| ==> |r[f]| == 4
  {
    if n == 0 then []
    else JoinedFaces(cs, n - 1) + Shift(cs[n - 1].faces, |JoinedVertices(cs, n - 1)|)
  }

  /** The joined face values of the first `n` clusters. */
  function JoinedValues(cs: seq<Cluster>, n: nat): (r: seq<real>)
    requires n <= |cs|
    ensures (forall j :: 0 <= j < n ==> |cs[j].faceValues| == |cs[j].faces|) ==> |r| == |JoinedFaces(cs, n)|
  {
    if n == 0 then [] else JoinedValues(cs, n - 1) + cs[n - 1].faceValues
  }

  /** `global_voxel_mesh`: the loop stacks vertices, shifted faces and face
      values, and counts the vertices stacked so far in `i`. */
  method GlobalVoxelMesh(clusters: seq<Cluster>) returns (vertices: seq<Point>, faces: seq<seq<nat>>, faceValues: seq<real>)
    requires Quads(clusters)
    ensures vertices == JoinedVertices(clusters, |clusters|)
    ensures faces == JoinedFaces(clusters, |clusters|)
    ensures faceValues == JoinedValues(clusters, |clusters|)
  {
    var i := 0;
    vertices, faces, faceValues := [], [], [];
    for n := 0 to |clusters|
      invariant vertices == JoinedVertices(clusters, n)
      invariant faces == JoinedFaces(clusters, n)
      invariant faceValues == JoinedValues(clusters, n)
      invariant i == |vertices|
    {
      var cluster := clusters[n];
      vertices := vertices + Translate(cluster.vertices, cluster.local);
      faces := faces + Shift(cluster.faces, i);
      faceValues := faceValues + cluster.faceValues;
      i := i + |cluster.vertices|;
    }
  }

  /** Every vertex id of every cluster face is below its vertex count. */
  predicate ValidFaces(c: Cluster) {
    forall f, m :: 0 <= f < |c.faces| && 0 <= m < |c.faces[f]| ==> c.faces[f][m] < |c.vertices|
  }

  /** The joined vertices of the first `j` clusters begin the joined vertices
      of the first `k`. */
  lemma {:induction false} VerticesPrefix(cs: seq<Cluster>, j: nat, k: nat)
    requires j <= k <= |cs|
    ensures |JoinedVertices(cs, j)| <= |JoinedVertices(cs, k)|
    ensures JoinedVertices(cs, k)[..|JoinedVertices(cs, j)|] == JoinedVertices(cs, j)
    decreases k
  {
    if j < k {
      VerticesPrefix(cs, j, k - 1);
      var whole, part := JoinedVertices(cs, k - 1), JoinedVertices(cs, j);
      assert JoinedVertices(cs, k)[..|part|] == whole[..|part|];
    }
  }

  /** The same for the joined faces. */
  lemma {:induction false} FacesPrefix(cs: seq<Cluster>, j: nat, k: nat)
    requires j <= k <= |cs|
    ensures |JoinedFaces(cs, j)| <= |JoinedFaces(cs, k)|
    ensures JoinedFaces(cs, k)[..|JoinedFaces(cs, j)|] == JoinedFaces(cs, j)
    decreases k
  {
    if j < k {
      FacesPrefix(cs, j, k - 1);
      var whole, part := JoinedFaces(cs, k - 1), JoinedFaces(cs, j);
      assert JoinedFaces(cs, k)[..|part|] == whole[..|part|];
    }
  }

  /** The same for the joined values. */
  lemma {:induction false} ValuesPrefix(cs: seq<Cluster>, j: nat, k: nat)
    requires j <= k <= |cs|
    ensures |JoinedValues(cs, j)| <= |JoinedValues(cs, k)|
    ensures JoinedValues(cs, k)[..|JoinedValues(cs, j)|] == JoinedValues(cs, j)
    decreases k
  {
    if j < k {
      ValuesPrefix(cs, j, k - 1);
      var whole, part := JoinedValues(cs, k - 1), JoinedValues(cs, j);
      assert JoinedValues(cs, k)[..|part|] == whole[..|part|];
    }
  }

  /** A block laid out after `before` at the start of `whole` is the slice
      of `whole` at its offset. */
  lemma BlockAt<T>(whole: seq<T>, before: seq<T>, block: seq<T>)
    requires |before| + |block| <= |whole| && whole[..|before| + |block|] == before + block
    ensures whole[|before|..|before| + |block|] == block
  {
    assert whole[|before|..|before| + |block|] == (before + block)[|before|..];
  }

  /** Cluster `n`'s vertices, moved to its place, sit in the joined list
      right after the vertices of the clusters before it. */
  lemma JoinedVertexBlock(cs: seq<Cluster>, n: nat)
    requires n < |cs|
    ensures var c, base := cs[n], |JoinedVertices(cs, n)|;
      base + |c.vertices| <= |JoinedVertices(cs, |cs|)| &&
      JoinedVertices(cs, |cs|)[base..base + |c.vertices|] == Translate(c.vertices, c.local)
  {
    VerticesPrefix(cs, n + 1, |cs|);
    BlockAt(JoinedVertices(cs, |cs|), JoinedVertices(cs, n), Translate(cs[n].vertices, cs[n].local));
  }

  /** Cluster `n`'s faces, shifted by the number of vertices before it, sit
      in the joined list right after the faces of the clusters before it. */
  lemma JoinedFaceBlock(cs: seq<Cluster>, n: nat)
    requires n < |cs|
    ensures var c, base := cs[n], |JoinedFaces(cs, n)|;
      base + |c.faces| <= |JoinedFaces(cs, |cs|)| &&
      JoinedFaces(cs, |cs|)[base..base + |c.faces|] == Shift(c.faces, |JoinedVertices(cs, n)|)
  {
    FacesPrefix(cs, n + 1, |cs|);
    BlockAt(JoinedFaces(cs, |cs|), JoinedFaces(cs, n), Shift(cs[n].faces, |JoinedVertices(cs, n)|));
  }

  /** Cluster `n`'s face values sit in the joined list right after those of
      the clusters before it, so, with one value per face, at the same
      place as its faces. */
  lemma JoinedValueBlock(cs: seq<Cluster>, n: nat)
    requires n < |cs|
    requires forall j :: 0 <= j < |cs| ==> |cs[j].faceValues| == |cs[j].faces|
    ensures var c, base := cs[n], |JoinedFaces(cs, n)|;
      base + |c.faceValues| <= |JoinedValues(cs, |cs|)| &&
      JoinedValues(cs, |cs|)[base..base + |c.faceValues|] == c.faceValues
  {
    var before, block := JoinedValues(cs, n), cs[n].faceValues;
    assert JoinedValues(cs, n + 1) == before + block;
    ValuesPrefix(cs, n + 1, |cs|);
    BlockAt(JoinedValues(cs, |cs|), before, block);
  }

  /** A joined face names, among the joined vertices, the point its cluster
      face names among the cluster's vertices, moved to the cluster's place. */
  lemma JoinedFacesNameSamePoints(cs: seq<Cluster>, n: nat, f: nat, m: nat)
    requires n < |cs| && ValidFaces(cs[n])
    requires f < |cs[n].faces| && m < |cs[n].faces[f]|
    ensures var fb := |JoinedFaces(cs, n)|;
      fb + f < |JoinedFaces(cs, |cs|)| && m < |JoinedFaces(cs, |cs|)[fb + f]|
    ensures var c, fb := cs[n], |JoinedFaces(cs, n)|;
      var entry := JoinedFaces(cs, |cs|)[fb + f][m];
      entry < |JoinedVertices(cs, |cs|)| &&
      JoinedVertices(cs, |cs|)[entry] == Translate(c.vertices, c.local)[c.faces[f][m]]
  {
    var c := cs[n];
    var vb, fb := |JoinedVertices(cs, n)|, |JoinedFaces(cs, n)|;
    var vertices, faces := JoinedVertices(cs, |cs|), JoinedFaces(cs, |cs|);
    JoinedFaceBlock(cs, n);
    JoinedVertexBlock(cs, n);
    var row := faces[fb + f];
    assert row == faces[fb..fb + |c.faces|][f];
    assert row == Shift(c.faces, vb)[f];
    var e := c.faces[f][m];
    assert row[m] == e + vb;
    assert e < |c.vertices|;
    assert vertices[vb + e] == vertices[vb..vb + |c.vertices|][e];
  }

  /** Joining valid cluster meshes gives a valid mesh: every joined face
      names a joined vertex. */
  lemma {:induction false} JoinedFacesValid(cs: seq<Cluster>, n: nat)
    requires n <= |cs|
    requires forall j :: 0 <= j < |cs| ==> ValidFaces(cs[j])
    ensures forall f, m :: 0 <= f < |JoinedFaces(cs, n)| && 0 <= m < |JoinedFaces(cs, n)[f]| ==>
      JoinedFaces(cs, n)[f][m] < |JoinedVertices(cs, n)|
  {
    if n > 0 {
      JoinedFacesValid(cs, n - 1);
      var last := cs[n - 1];
      var front := JoinedFaces(cs, n - 1);
      var base := |JoinedVertices(cs, n - 1)|;
      var shifted := Shift(last.faces, base);
      assert JoinedFaces(cs, n) == front + shifted;
      assert |JoinedVertices(cs, n)| == base + |last.vertices|;
      forall f, m | 0 <= f < |JoinedFaces(cs, n)| && 0 <= m < |JoinedFaces(cs, n)[f]|
        ensures JoinedFaces(cs, n)[f][m] < |JoinedVertices(cs, n)|
      {
        if f >= |front| {
          var g := f - |front|;
          assert JoinedFaces(cs, n)[f] == shifted[g];
          assert shifted[g][m] == last.faces[g][m] + base;
        }
      }
    }
  }
}
