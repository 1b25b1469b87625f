/** Sutherland-Hodgman clipping of one triangle against the six faces of the
    view volume, as `DrawIndex` runs it over the two scratch buckets. */
module Clip {
  import opened Config
  import opened Geometry
  import opened Containers

  datatype Option<T> = None | Some(value: T)

  /** The vertex before `src[j]`, cyclically: the pass starts with the last one. */
  function Prev(src: seq<VertexNdc>, j: nat): VertexNdc
    requires j < |src|
  {
    if j == 0 then src[|src| - 1] else src[j - 1]
  }

  /** Interpolation parameter `tprev / (tprev - d)`, needed only when the
      two tests lie on opposite sides. */
  function Cut(tprev: real, d: real): real
    requires tprev != d
  {
    tprev / (tprev - d)
  }

  /** What one edge `vprev -> v` contributes to the output (cases 0, 1 and 2). */
  function Step(vprev: VertexNdc, v: VertexNdc, n: Plane): seq<VertexNdc>
  {
    var tprev := PlaneTest(vprev, n);
    var d := PlaneTest(v, n);
    if d >= 0.0 && tprev >= 0.0 then [v]
    else if d < 0.0 && tprev >= 0.0 then [Mix(vprev, v, Cut(tprev, d))]
    else if d >= 0.0 && tprev < 0.0 then [Mix(vprev, v, Cut(tprev, d)), v]
    else []
  }

  /** The output after the first `k` vertices of `src`. */
  function PassPrefix(src: seq<VertexNdc>, n: Plane, k: nat): seq<VertexNdc>
    requires k <= |src|
  {
    if k == 0 then [] else PassPrefix(src, n, k - 1) + Step(Prev(src, k - 1), src[k - 1], n)
  }

  /** One clip pass of `src` against plane `n`. */
  function Pass(src: seq<VertexNdc>, n: Plane): seq<VertexNdc>
  {
    PassPrefix(src, n, |src|)
  }

  /** The six passes from plane `i` on. A pass whose source is empty ends
      the triangle (`isDone`): `None` means discarded. */
  function ClipFrom(poly: seq<VertexNdc>, i: nat): Option<seq<VertexNdc>>
    requires i <= 6
    decreases 6 - i
  {
    if i == 6 then Some(poly)
    else if |poly| == 0 then None
    else ClipFrom(Pass(poly, Planes[i]), i + 1)
  }

  function ClipTriangle(a: VertexNdc, b: VertexNdc, c: VertexNdc): Option<seq<VertexNdc>>
  {
    ClipFrom([a, b, c], 0)
  }

  /** No pass from plane `i` on pushes more than a bucket holds. */
  predicate ClipFitsFrom(poly: seq<VertexNdc>, i: nat)
    requires i <= 6
    decreases 6 - i
  {
    i == 6 || |poly| == 0 ||
    (|Pass(poly, Planes[i])| <= MAX_CLIP_COUNT && ClipFitsFrom(Pass(poly, Planes[i]), i + 1))
  }

  // ---------------------------------------------------------------------
  // Counting the output of one pass

  predicate Kept(v: VertexNdc, n: Plane)
  {
    PlaneTest(v, n) >= 0.0
  }

  /** Number of kept vertices among the first `k`. */
  function KeptCount(src: seq<VertexNdc>, n: Plane, k: nat): nat
    requires k <= |src|
  {
    if k == 0 then 0 else KeptCount(src, n, k - 1) + (if Kept(src[k - 1], n) then 1 else 0)
  }

  /** Number of sign changes on the edges ending at the first `k` vertices. */
  function ChangeCount(src: seq<VertexNdc>, n: Plane, k: nat): nat
    requires k <= |src|
  {
    if k == 0 then 0
    else ChangeCount(src, n, k - 1) + (if Kept(Prev(src, k - 1), n) != Kept(src[k - 1], n) then 1 else 0)
  }

  lemma {:induction false} PassPrefixLength(src: seq<VertexNdc>, n: Plane, k: nat)
    requires k <= |src|
    ensures |PassPrefix(src, n, k)| == KeptCount(src, n, k) + ChangeCount(src, n, k)
  {
    if k > 0 {
      PassPrefixLength(src, n, k - 1);
    }
  }

  /** A pass outputs one vertex per kept vertex plus one per cyclic sign change. */
  lemma PassLength(src: seq<VertexNdc>, n: Plane)
    ensures |Pass(src, n)| == KeptCount(src, n, |src|) + ChangeCount(src, n, |src|)
  {
    PassPrefixLength(src, n, |src|);
  }

  lemma {:induction false} PassPrefixAllKept(src: seq<VertexNdc>, n: Plane, k: nat)
    requires k <= |src|
    requires forall j :: 0 <= j < |src| ==> Kept(src[j], n)
    ensures PassPrefix(src, n, k) == src[..k]
  {
    if k > 0 {
      PassPrefixAllKept(src, n, k - 1);
      assert Kept(Prev(src, k - 1), n);
      assert src[..k] == src[..k - 1] + [src[k - 1]];
    }
  }

  /** If every test value is `>= 0` the pass returns its input in order. */
  lemma PassAllKept(src: seq<VertexNdc>, n: Plane)
    requires forall j :: 0 <= j < |src| ==> Kept(src[j], n)
    ensures Pass(src, n) == src
  {
    PassPrefixAllKept(src, n, |src|);
  }

  lemma {:induction false} PassPrefixNoneKept(src: seq<VertexNdc>, n: Plane, k: nat)
    requires k <= |src|
    requires forall j :: 0 <= j < |src| ==> !Kept(src[j], n)
    ensures PassPrefix(src, n, k) == []
  {
    if k > 0 {
      PassPrefixNoneKept(src, n, k - 1);
      assert !Kept(Prev(src, k - 1), n) && !Kept(src[k - 1], n);
      StepNoneKept(Prev(src, k - 1), src[k - 1], n);
    }
  }

  /** An edge with both ends outside contributes nothing. */
  lemma StepNoneKept(vprev: VertexNdc, v: VertexNdc, n: Plane)
    requires !Kept(vprev, n) && !Kept(v, n)
    ensures Step(vprev, v, n) == []
  {
  }

  /** If every test value is `< 0` the pass returns nothing. */
  lemma PassNoneKept(src: seq<VertexNdc>, n: Plane)
    requires forall j :: 0 <= j < |src| ==> !Kept(src[j], n)
    ensures Pass(src, n) == []
  {
    PassPrefixNoneKept(src, n, |src|);
  }

  /** Output grows monotonically while the pass proceeds. */
  lemma {:induction false} PassPrefixGrows(src: seq<VertexNdc>, n: Plane, i: nat, k: nat)
    requires i <= k <= |src|
    ensures |PassPrefix(src, n, i)| <= |PassPrefix(src, n, k)|
    decreases k - i
  {
    if i < k {
      PassPrefixGrows(src, n, i, k - 1);
    }
  }

  // ---------------------------------------------------------------------
  // Half-spaces are convex: what the passes keep and what they create

  /** Every vertex of `s` lies inside (`inside`) or strictly outside plane `m`. */
  predicate AllOnSide(s: seq<VertexNdc>, m: Plane, inside: bool)
  {
    forall j :: 0 <= j < |s| ==> Kept(s[j], m) == inside
  }

  lemma MixRSign(a: real, b: real, t: real)
    requires 0.0 <= t <= 1.0
    ensures a >= 0.0 && b >= 0.0 ==> MixR(a, b, t) >= 0.0
    ensures a < 0.0 && b < 0.0 ==> MixR(a, b, t) < 0.0
  {
    if a < 0.0 && b < 0.0 {
      if t < 1.0 {
        assert (1.0 - t) * a < 0.0;
        assert b * t <= 0.0;
      } else {
        assert MixR(a, b, t) == b;
      }
    } else if a >= 0.0 && b >= 0.0 {
      assert (1.0 - t) * a >= 0.0;
      assert b * t >= 0.0;
    }
  }

  /** The cut parameter of two tests on opposite sides lies in [0, 1] and
      interpolates the tests to zero. */
  lemma CutBounds(tp: real, d: real)
    requires (tp >= 0.0) != (d >= 0.0)
    ensures 0.0 <= Cut(tp, d) <= 1.0 && MixR(tp, d, Cut(tp, d)) == 0.0
  {
    var t := Cut(tp, d);
    assert t * (tp - d) == tp;
    assert MixR(tp, d, t) == tp - t * (tp - d);
    if tp >= 0.0 {
      assert tp - d > 0.0 && tp <= tp - d;
    } else {
      assert t == (-tp) / (d - tp);
      assert d - tp > 0.0 && -tp <= d - tp;
    }
  }

  /** The interpolated vertex of an edge with opposite tests lies on the plane. */
  lemma CutOnPlane(vprev: VertexNdc, v: VertexNdc, n: Plane)
    requires Kept(vprev, n) != Kept(v, n)
    ensures 0.0 <= Cut(PlaneTest(vprev, n), PlaneTest(v, n)) <= 1.0
    ensures PlaneTest(Mix(vprev, v, Cut(PlaneTest(vprev, n), PlaneTest(v, n))), n) == 0.0
  {
    var tp, d := PlaneTest(vprev, n), PlaneTest(v, n);
    CutBounds(tp, d);
    MixPlaneTest(vprev, v, Cut(tp, d), n);
  }

  lemma StepSide(vprev: VertexNdc, v: VertexNdc, n: Plane, m: Plane, inside: bool)
    requires Kept(vprev, m) == inside && Kept(v, m) == inside
    ensures AllOnSide(Step(vprev, v, n), m, inside)
  {
    if Kept(vprev, n) != Kept(v, n) {
      var t := Cut(PlaneTest(vprev, n), PlaneTest(v, n));
      CutOnPlane(vprev, v, n);
      MixPlaneTest(vprev, v, t, m);
      MixRSign(PlaneTest(vprev, m), PlaneTest(v, m), t);
    }
  }

  lemma StepOnPlane(vprev: VertexNdc, v: VertexNdc, n: Plane)
    ensures AllOnSide(Step(vprev, v, n), n, true)
  {
    if Kept(vprev, n) != Kept(v, n) {
      CutOnPlane(vprev, v, n);
    }
  }

  lemma AllOnSideConcat(a: seq<VertexNdc>, b: seq<VertexNdc>, m: Plane, inside: bool)
    requires AllOnSide(a, m, inside) && AllOnSide(b, m, inside)
    ensures AllOnSide(a + b, m, inside)
  {
    forall j | 0 <= j < |a + b|
      ensures Kept((a + b)[j], m) == inside
    {
      if j >= |a| {
        assert (a + b)[j] == b[j - |a|];
      }
    }
  }

  lemma {:induction false} PassPrefixSide(src: seq<VertexNdc>, n: Plane, m: Plane, inside: bool, k: nat)
    requires k <= |src| && AllOnSide(src, m, inside)
    ensures AllOnSide(PassPrefix(src, n, k), m, inside)
  {
    if k > 0 {
      PassPrefixSide(src, n, m, inside, k - 1);
      StepSide(Prev(src, k - 1), src[k - 1], n, m, inside);
      AllOnSideConcat(PassPrefix(src, n, k - 1), Step(Prev(src, k - 1), src[k - 1], n), m, inside);
    }
  }

  lemma {:induction false} PassPrefixOnPlane(src: seq<VertexNdc>, n: Plane, k: nat)
    requires k <= |src|
    ensures AllOnSide(PassPrefix(src, n, k), n, true)
  {
    if k > 0 {
      PassPrefixOnPlane(src, n, k - 1);
      StepOnPlane(Prev(src, k - 1), src[k - 1], n);
      AllOnSideConcat(PassPrefix(src, n, k - 1), Step(Prev(src, k - 1), src[k - 1], n), n, true);
    }
  }

  /** A pass keeps every vertex on the side of another plane where its
      input lay, and puts every vertex inside its own plane. */
  lemma PassSides(src: seq<VertexNdc>, n: Plane, m: Plane, inside: bool)
    ensures AllOnSide(src, m, inside) ==> AllOnSide(Pass(src, n), m, inside)
    ensures AllOnSide(Pass(src, n), n, true)
  {
    if AllOnSide(src, m, inside) {
      PassPrefixSide(src, n, m, inside, |src|);
    }
    PassPrefixOnPlane(src, n, |src|);
  }

  // ---------------------------------------------------------------------
  // The six passes

  predicate AllInCube(s: seq<VertexNdc>)
  {
    forall j :: 0 <= j < |s| ==> InCube(s[j])
  }

  lemma {:induction false} ClipFromInside(poly: seq<VertexNdc>, i: nat)
    requires i <= 6 && |poly| > 0 && AllInCube(poly)
    ensures ClipFrom(poly, i) == Some(poly)
    decreases 6 - i
  {
    if i < 6 {
      forall j | 0 <= j < |poly|
        ensures Kept(poly[j], Planes[i])
      {
        InCubeIffPlanes(poly[j]);
      }
      PassAllKept(poly, Planes[i]);
      ClipFromInside(poly, i + 1);
    }
  }

  /** A triangle inside the view volume comes out of clipping unchanged. */
  lemma ClipInsideUnchanged(a: VertexNdc, b: VertexNdc, c: VertexNdc)
    requires InCube(a) && InCube(b) && InCube(c)
    ensures ClipTriangle(a, b, c) == Some([a, b, c])
  {
    ClipFromInside([a, b, c], 0);
  }

  lemma {:induction false} ClipFromOutside(poly: seq<VertexNdc>, i: nat, j: nat)
    requires i <= j < 6 && AllOnSide(poly, Planes[j], false)
    ensures ClipFrom(poly, i).None? || ClipFrom(poly, i).value == []
    decreases 6 - i
  {
    if |poly| > 0 {
      var next := Pass(poly, Planes[i]);
      if i < j {
        PassSides(poly, Planes[i], Planes[j], false);
        ClipFromOutside(next, i + 1, j);
      } else {
        PassNoneKept(poly, Planes[i]);
        assert next == [];
      }
    }
  }

  /** A triangle entirely outside one face of the view volume clips to nothing. */
  lemma ClipOutsideDiscards(a: VertexNdc, b: VertexNdc, c: VertexNdc, j: nat)
    requires j < 6
    requires !Kept(a, Planes[j]) && !Kept(b, Planes[j]) && !Kept(c, Planes[j])
    ensures ClipTriangle(a, b, c).None? || ClipTriangle(a, b, c).value == []
  {
    ClipFromOutside([a, b, c], 0, j);
  }

  /** A triangle clipped against one plane: all or none of its vertices kept
      gives that many, otherwise two crossings are added, so a triangle with
      one vertex outside becomes a quadrilateral and one with two outside
      stays a triangle. */
  lemma TrianglePassLength(a: VertexNdc, b: VertexNdc, c: VertexNdc, n: Plane)
    ensures KeptCount([a, b, c], n, 3) == (if Kept(a, n) then 1 else 0) + (if Kept(b, n) then 1 else 0) + (if Kept(c, n) then 1 else 0)
    ensures |Pass([a, b, c], n)|
         == KeptCount([a, b, c], n, 3) + (if KeptCount([a, b, c], n, 3) % 3 == 0 then 0 else 2)
  {
    var s := [a, b, c];
    PassLength(s, n);
    assert Prev(s, 0) == c && Prev(s, 1) == a && Prev(s, 2) == b;
    assert KeptCount(s, n, 1) == (if Kept(a, n) then 1 else 0);
    assert ChangeCount(s, n, 1) == (if Kept(c, n) != Kept(a, n) then 1 else 0);
  }

  /** A polygon inside every plane but `j` comes out of the passes from `i`
      on as its pass against plane `j`, when that pass keeps something. */
  lemma {:induction false} ClipFromStraddle(poly: seq<VertexNdc>, i: nat, j: nat)
    requires i <= j < 6 && |poly| > 0 && |Pass(poly, Planes[j])| > 0
    requires forall p :: 0 <= p < 6 && p != j ==> AllOnSide(poly, Planes[p], true)
    ensures ClipFrom(poly, i) == Some(Pass(poly, Planes[j]))
    decreases 6 - i
  {
    if i < j {
      assert AllOnSide(poly, Planes[i], true);
      PassAllKept(poly, Planes[i]);
      ClipFromStraddle(poly, i + 1, j);
    } else {
      var q := Pass(poly, Planes[j]);
      forall k | 0 <= k < |q|
        ensures InCube(q[k])
      {
        forall p | 0 <= p < 6
          ensures PlaneTest(q[k], Planes[p]) >= 0.0
        {
          PassSides(poly, Planes[j], Planes[p], true);
          assert Kept(q[k], Planes[p]);
        }
        InCubeIffPlanes(q[k]);
      }
      ClipFromInside(q, j + 1);
    }
  }

  /** A triangle inside the view volume but for one face, with one vertex
      outside that face, clips to exactly 4 vertices; with two outside, to 3. */
  lemma ClipStraddle(a: VertexNdc, b: VertexNdc, c: VertexNdc, j: nat)
    requires j < 6 && 0 < KeptCount([a, b, c], Planes[j], 3) < 3
    requires forall p :: 0 <= p < 6 && p != j ==> Kept(a, Planes[p]) && Kept(b, Planes[p]) && Kept(c, Planes[p])
    ensures ClipTriangle(a, b, c) == Some(Pass([a, b, c], Planes[j]))
    ensures |ClipTriangle(a, b, c).value| == KeptCount([a, b, c], Planes[j], 3) + 2
  {
    var s := [a, b, c];
    TrianglePassLength(a, b, c, Planes[j]);
    forall p | 0 <= p < 6 && p != j
      ensures AllOnSide(s, Planes[p], true)
    {
    }
    ClipFromStraddle(s, 0, j);
  }

  /** `poly` passes the plane tests of the first `i` planes. */
  predicate InsideFirst(poly: seq<VertexNdc>, i: nat)
    requires i <= 6
  {
    forall p :: 0 <= p < i ==> AllOnSide(poly, Planes[p], true)
  }

  lemma {:induction false} ClipFromInCube(poly: seq<VertexNdc>, i: nat)
    requires i <= 6 && InsideFirst(poly, i)
    ensures ClipFrom(poly, i).Some? ==> AllInCube(ClipFrom(poly, i).value)
    decreases 6 - i
  {
    if i == 6 {
      forall j | 0 <= j < |poly|
        ensures InCube(poly[j])
      {
        InCubeIffPlanes(poly[j]);
        assert forall p :: 0 <= p < 6 ==> Kept(poly[j], Planes[p]);
      }
    } else if |poly| > 0 {
      var next := Pass(poly, Planes[i]);
      forall p | 0 <= p < i + 1
        ensures AllOnSide(next, Planes[p], true)
      {
        PassSides(poly, Planes[i], Planes[p], true);
      }
      ClipFromInCube(next, i + 1);
    }
  }

  /** Every vertex that survives clipping lies in the view volume. */
  lemma ClipOutputInCube(a: VertexNdc, b: VertexNdc, c: VertexNdc)
    ensures ClipTriangle(a, b, c).Some? ==> AllInCube(ClipTriangle(a, b, c).value)
  {
    ClipFromInCube([a, b, c], 0);
  }

  // ---------------------------------------------------------------------
  // The pass as the source runs it, over two buckets

  /** The inner loop of one clip pass: read `src`, push into the cleared `dest`. */
  method ClipPass(src: Container<VertexNdc>, dest: Container<VertexNdc>, n: Plane)
    requires src != dest && src.obj != dest.obj && src.Valid() && dest.Valid()
    requires dest.index == 0 && src.index > 0
    requires |Pass(src.Contents(), n)| <= dest.obj.Length
    modifies dest, dest.obj
    ensures dest.Valid() && dest.Contents() == Pass(src.Contents(), n)
  {
    ghost var s := src.Contents();
    var count := src.Size();
    var vprev := src.At(count - 1);
    var tprev := PlaneTest(vprev, n);
    var i := 0;
    while i < count
      invariant 0 <= i <= count && dest.Valid()
      invariant dest.Contents() == PassPrefix(s, n, i)
      invariant vprev == (if i == 0 then s[count - 1] else s[i - 1])
      invariant tprev == PlaneTest(vprev, n)
    {
      var v := src.At(i);
      var d := PlaneTest(v, n);
      // The source computes `dt` before the case split; here it is formed
      // only where the tests differ, the only place it is used.
      var case0 := d >= 0.0 && tprev >= 0.0;
      var case1 := d < 0.0 && tprev >= 0.0;
      var case2 := d >= 0.0 && tprev < 0.0;
      PassPrefixGrows(s, n, i + 1, count);
      assert PassPrefix(s, n, i + 1) == PassPrefix(s, n, i) + Step(vprev, v, n);
      if case0 {
        dest.PushBack(v);
      }
      if case1 {
        dest.PushBack(Mix(vprev, v, Cut(tprev, d)));
      }
      if case2 {
        dest.PushBack(Mix(vprev, v, Cut(tprev, d)));
        dest.PushBack(v);
      }
      vprev := v;
      tprev := d;
      i := i + 1;
    }
  }
}
