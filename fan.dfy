/** Fan triangulation with back-face culling, and the screen positions one
    `DrawIndex` call appends for a list of buffered vertices. */
module Fan {
  import opened Config
  import opened Geometry
  import opened Clip

  /** Fan triangle `i` of polygon `r` is `r[0], r[i + 1], r[i + 2]`; the cull
      keeps it only when its `edgefuncf` area is positive. */
  predicate Accepts(r: seq<VertexNdc>, i: nat)
  {
    i + 2 < |r| && EdgeFuncF(r[0], r[i + 1], r[i + 2]) > 0.0
  }

  /** The three screen positions of fan triangle `i`. */
  function FanTri(r: seq<VertexNdc>, i: nat): seq<ScreenPos>
    requires i + 2 < |r|
  {
    [Quantize(r[0]), Quantize(r[i + 1]), Quantize(r[i + 2])]
  }

  /** What the fan loop emits from fan triangle `i` on: it stops at the first culled one. */
  function FanFrom(r: seq<VertexNdc>, i: nat): seq<ScreenPos>
    decreases |r| - i
  {
    if Accepts(r, i) then FanTri(r, i) + FanFrom(r, i + 1) else []
  }

  /** Index of the first fan triangle at or after `i` that is culled or missing. */
  function FirstCulled(r: seq<VertexNdc>, i: nat): (k: nat)
    ensures k >= i
    decreases |r| - i
  {
    if Accepts(r, i) then FirstCulled(r, i + 1) else i
  }

  /** The fan from `i` holds the accepted triangles `i .. k - 1` in order,
      three entries each, where `k` is the first culled one; at most `|r| - 2` in all. */
  lemma {:induction false} FanShape(r: seq<VertexNdc>, i: nat)
    ensures var k := FirstCulled(r, i);
      && |FanFrom(r, i)| == 3 * (k - i)
      && (k > i ==> k + 1 < |r|)
      && !Accepts(r, k)
      && (forall j :: i <= j < k ==> Accepts(r, j))
      && (forall j :: i <= j < k ==> FanFrom(r, i)[3 * (j - i)..3 * (j - i) + 3] == FanTri(r, j))
    decreases |r| - i
  {
    if Accepts(r, i) {
      FanShape(r, i + 1);
      var k := FirstCulled(r, i);
      var rest := FanFrom(r, i + 1);
      assert FanFrom(r, i) == FanTri(r, i) + rest;
      forall j | i <= j < k
        ensures FanFrom(r, i)[3 * (j - i)..3 * (j - i) + 3] == FanTri(r, j)
      {
        if j > i {
          assert FanFrom(r, i)[3 * (j - i)..3 * (j - i) + 3] == rest[3 * (j - i - 1)..3 * (j - i - 1) + 3];
        }
      }
    }
  }

  /** An n-gon appends a multiple of three entries, at most `3 * (n - 2)`. */
  lemma FanLength(r: seq<VertexNdc>)
    requires |r| >= 3
    ensures |FanFrom(r, 0)| % 3 == 0 && |FanFrom(r, 0)| <= 3 * (|r| - 2)
  {
    FanShape(r, 0);
    var k := FirstCulled(r, 0);
    assert k <= |r| - 2;
    Mod3(k);
  }

  lemma Mod3(k: int)
    ensures (3 * k) % 3 == 0
  {
  }

  lemma ModSum3(a: nat, b: nat)
    requires a % 3 == 0 && b % 3 == 0
    ensures (a + b) % 3 == 0
  {
    assert a == 3 * (a / 3) && b == 3 * (b / 3);
    assert a + b == 3 * (a / 3 + b / 3);
    Mod3(a / 3 + b / 3);
  }

  /** Splitting the fan after `i` accepted triangles, as the loop proceeds. */
  lemma FanStep(r: seq<VertexNdc>, i: nat)
    requires Accepts(r, i)
    ensures FanFrom(r, i) == FanTri(r, i) + FanFrom(r, i + 1)
  {
  }

  lemma {:induction false} FanInFrame(r: seq<VertexNdc>, i: nat)
    requires AllInCube(r)
    ensures forall j :: 0 <= j < |FanFrom(r, i)| ==> InFrame(FanFrom(r, i)[j])
    decreases |r| - i
  {
    if Accepts(r, i) {
      FanInFrame(r, i + 1);
      QuantizeInFrame(r[0]);
      QuantizeInFrame(r[i + 1]);
      QuantizeInFrame(r[i + 2]);
    }
  }

  /** The screen positions one buffered triangle contributes. */
  function TriangleOutput(a: VertexNdc, b: VertexNdc, c: VertexNdc): seq<ScreenPos>
  {
    match ClipTriangle(a, b, c)
    case None => []
    case Some(r) => if |r| >= 3 then FanFrom(r, 0) else []
  }

  /** Every contribution is whole triangles of in-frame positions. */
  lemma TriangleOutputShape(a: VertexNdc, b: VertexNdc, c: VertexNdc)
    ensures Shaped(TriangleOutput(a, b, c))
  {
    ClipOutputInCube(a, b, c);
    match ClipTriangle(a, b, c)
    case None =>
    case Some(r) =>
      if |r| >= 3 {
        FanLength(r);
        FanInFrame(r, 0);
      }
  }

  /** Of a triangle and its mirror image at most one survives the cull, and
      exactly one when its area is not zero. */
  lemma OppositeWinding(a: VertexNdc, b: VertexNdc, c: VertexNdc)
    ensures FanFrom([a, b, c], 0) == [] || FanFrom([a, c, b], 0) == []
    ensures EdgeFuncF(a, b, c) != 0.0 ==> (FanFrom([a, b, c], 0) != []) != (FanFrom([a, c, b], 0) != [])
  {
    EdgeFuncFSwap(a, b, c);
    var s, t := [a, b, c], [a, c, b];
    assert !Accepts(s, 1) && !Accepts(t, 1);
    assert Accepts(s, 0) ==> FanFrom(s, 0) == FanTri(s, 0);
    assert Accepts(t, 0) ==> FanFrom(t, 0) == FanTri(t, 0);
  }

  /** The same for whole triangles inside the view volume, clipping included. */
  lemma OppositeWindingInside(a: VertexNdc, b: VertexNdc, c: VertexNdc)
    requires InCube(a) && InCube(b) && InCube(c)
    ensures TriangleOutput(a, b, c) == [] || TriangleOutput(a, c, b) == []
    ensures EdgeFuncF(a, b, c) != 0.0 ==> (TriangleOutput(a, b, c) != []) != (TriangleOutput(a, c, b) != [])
  {
    ClipInsideUnchanged(a, b, c);
    ClipInsideUnchanged(a, c, b);
    OppositeWinding(a, b, c);
  }

  /** A triangle entirely outside one face contributes nothing. */
  lemma OutsideContributesNothing(a: VertexNdc, b: VertexNdc, c: VertexNdc, j: nat)
    requires j < 6
    requires !Kept(a, Planes[j]) && !Kept(b, Planes[j]) && !Kept(c, Planes[j])
    ensures TriangleOutput(a, b, c) == []
  {
    ClipOutsideDiscards(a, b, c, j);
  }

  /** A per-triangle output, such as `TriangleOutput`. */
  type TriangleMap = (VertexNdc, VertexNdc, VertexNdc) -> seq<ScreenPos>

  /** What `out` yields for the first `t` triangles of `vs`, one after the other. */
  function Frame(out: TriangleMap, vs: seq<VertexNdc>, t: nat): seq<ScreenPos>
    requires 3 * t <= |vs|
  {
    if t == 0 then [] else Frame(out, vs, t - 1) + out(vs[3 * t - 3], vs[3 * t - 2], vs[3 * t - 1])
  }

  /** The positions appended for the first `t` triangles of `vs`. */
  function FrameOutput(vs: seq<VertexNdc>, t: nat): seq<ScreenPos>
    requires 3 * t <= |vs|
  {
    Frame(TriangleOutput, vs, t)
  }

  /** The `k`-th buffered triangle. */
  function TriVerts(vs: seq<VertexNdc>, k: nat): seq<VertexNdc>
    requires 3 * k + 3 <= |vs|
  {
    [vs[3 * k], vs[3 * k + 1], vs[3 * k + 2]]
  }

  /** None of the first `t` triangles overflows a clip bucket. */
  predicate FrameFits(vs: seq<VertexNdc>, t: nat)
    requires 3 * t <= |vs|
  {
    forall k {:trigger TriVerts(vs, k)} :: 0 <= k < t ==> ClipFitsFrom(TriVerts(vs, k), 0)
  }

  lemma FrameFitsAt(vs: seq<VertexNdc>, t: nat, k: nat)
    requires 3 * t <= |vs| && FrameFits(vs, t) && k < t
    ensures ClipFitsFrom([vs[3 * k], vs[3 * k + 1], vs[3 * k + 2]], 0)
  {
    assert ClipFitsFrom(TriVerts(vs, k), 0);
  }

  /** The contributions in `parts`, one after the other. */
  function Flatten(parts: seq<seq<ScreenPos>>, m: nat): seq<ScreenPos>
    requires m <= |parts|
  {
    if m == 0 then [] else Flatten(parts, m - 1) + parts[m - 1]
  }

  /** `parts[k]` is what `out` yields for triangle `k`. */
  predicate Contributions(out: TriangleMap, vs: seq<VertexNdc>, parts: seq<seq<ScreenPos>>, t: nat)
    requires 3 * t <= |vs|
  {
    |parts| == t &&
    forall k {:trigger TriVerts(vs, k)} :: 0 <= k < t ==> parts[k] == out(vs[3 * k], vs[3 * k + 1], vs[3 * k + 2])
  }

  /** Flattening the contributions gives the frame. */
  lemma {:induction false} ContributionsFlatten(out: TriangleMap, vs: seq<VertexNdc>, parts: seq<seq<ScreenPos>>, t: nat, m: nat)
    requires 3 * t <= |vs| && Contributions(out, vs, parts, t) && m <= t
    ensures Flatten(parts, m) == Frame(out, vs, m)
  {
    if m > 0 {
      ContributionsFlatten(out, vs, parts, t, m - 1);
      assert parts[m - 1] == out(vs[3 * m - 3], vs[3 * m - 2], vs[3 * m - 1]) by {
        assert TriVerts(vs, m - 1) == [vs[3 * (m - 1)], vs[3 * (m - 1) + 1], vs[3 * (m - 1) + 2]];
      }
    }
  }

  /** The per-triangle contributions of a frame. */
  lemma Plan(out: TriangleMap, vs: seq<VertexNdc>, t: nat) returns (parts: seq<seq<ScreenPos>>)
    requires 3 * t <= |vs|
    ensures Contributions(out, vs, parts, t) && Flatten(parts, t) == Frame(out, vs, t)
  {
    parts := seq(t, k requires 0 <= k < t => out(vs[3 * k], vs[3 * k + 1], vs[3 * k + 2]));
    forall k {:trigger TriVerts(vs, k)} | 0 <= k < t
      ensures parts[k] == out(vs[3 * k], vs[3 * k + 1], vs[3 * k + 2])
    {
    }
    ContributionsFlatten(out, vs, parts, t, t);
  }

  /** Whole triangles of in-frame positions. */
  predicate Shaped(s: seq<ScreenPos>)
  {
    |s| % 3 == 0 && forall j :: 0 <= j < |s| ==> InFrame(s[j])
  }

  lemma ShapedConcat(p: seq<ScreenPos>, q: seq<ScreenPos>)
    requires Shaped(p) && Shaped(q)
    ensures Shaped(p + q)
  {
    ModSum3(|p|, |q|);
    forall j | 0 <= j < |p + q|
      ensures InFrame((p + q)[j])
    {
      if j >= |p| {
        assert (p + q)[j] == q[j - |p|];
      }
    }
  }

  /** A frame of shaped outputs is shaped. */
  lemma {:induction false} FrameShape(out: TriangleMap, vs: seq<VertexNdc>, t: nat)
    requires 3 * t <= |vs| && forall a, b, c :: Shaped(out(a, b, c))
    ensures Shaped(Frame(out, vs, t))
  {
    if t > 0 {
      FrameShape(out, vs, t - 1);
      ShapedConcat(Frame(out, vs, t - 1), out(vs[3 * t - 3], vs[3 * t - 2], vs[3 * t - 1]));
    }
  }

  /** The frame's output is whole triangles of in-frame positions. */
  lemma FrameOutputShape(vs: seq<VertexNdc>, t: nat)
    requires 3 * t <= |vs|
    ensures Shaped(FrameOutput(vs, t))
  {
    forall a, b, c
      ensures Shaped(TriangleOutput(a, b, c))
    {
      TriangleOutputShape(a, b, c);
    }
    FrameShape(TriangleOutput, vs, t);
  }
}
