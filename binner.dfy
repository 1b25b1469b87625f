/** The tile binner of `Present`: one byte list per tile, each ended by the
    sentinel `0xFF`, all concatenated in row-major tile order. */
module Binner {
  import opened Config
  import opened CInt
  import opened Geometry

  const MARK: u8 := 0xFF

  /** The closed-interval overlap test of the binner. As in the source, the
      tile's lower edge is `ty + TILE_X_SIZE`, not `ty + TILE_Y_SIZE`. */
  predicate BinTest(t: Tri, tx: int, ty: int)
  {
    var min_tx, min_ty := tx, ty;
    var max_tx, max_ty := tx + TILE_X_SIZE, ty + TILE_X_SIZE;
    !(min_tx > MaxX(t) || max_tx < MinX(t) || min_ty > MaxY(t) || max_ty < MinY(t))
  }

  /** The same test with the tile's own height. */
  predicate IntendedBinTest(t: Tri, tx: int, ty: int)
  {
    !(tx > MaxX(t) || tx + TILE_X_SIZE < MinX(t) || ty > MaxY(t) || ty + TILE_Y_SIZE < MinY(t))
  }

  /** The bytes binned for tile `(tx, ty)` among the first `t` triangles:
      the triangle number truncated to `uint8_t`. */
  function TileList(sp: seq<ScreenPos>, tx: int, ty: int, t: nat): seq<u8>
    requires 3 * t <= |sp|
  {
    if t == 0 then []
    else TileList(sp, tx, ty, t - 1) + (if BinTest(TriAt(sp, 3 * t - 3), tx, ty) then [(t - 1) % 0x100] else [])
  }

  /** Up to 256 triangles, a listed triangle is appended under its own number. */
  lemma TileListListed(sp: seq<ScreenPos>, tx: int, ty: int, t: nat)
    requires 0 < t <= 0x100 && 3 * t <= |sp| && BinTest(TriAt(sp, 3 * t - 3), tx, ty)
    ensures TileList(sp, tx, ty, t) == TileList(sp, tx, ty, t - 1) + [t - 1]
  {
    assert (t - 1) % 0x100 == t - 1;
  }

  /** Lists joined in order, each followed by a sentinel: the first `k` blocks of a chain. */
  function Join(lists: seq<seq<u8>>, k: nat): seq<u8>
    requires k <= |lists|
  {
    if k == 0 then [] else Join(lists, k - 1) + lists[k - 1] + [MARK]
  }

  /** The list of every tile, in row-major tile order. */
  function TileLists(sp: seq<ScreenPos>): (r: seq<seq<u8>>)
    requires |sp| % 3 == 0
    ensures |r| == NUM_TILES
  {
    seq(NUM_TILES, k requires 0 <= k < NUM_TILES => TileList(sp, TileX(k), TileY(k), |sp| / 3))
  }

  /** The chain after the first `k` tiles. */
  function ChainPrefix(sp: seq<ScreenPos>, k: nat): seq<u8>
    requires |sp| % 3 == 0 && k <= NUM_TILES
  {
    Join(TileLists(sp), k)
  }

  function Chain(sp: seq<ScreenPos>): seq<u8>
    requires |sp| % 3 == 0
  {
    ChainPrefix(sp, NUM_TILES)
  }

  /** Binning tile `k` extends the chain by its list and a sentinel. */
  lemma ChainPrefixNext(sp: seq<ScreenPos>, k: nat)
    requires |sp| % 3 == 0 && k < NUM_TILES
    ensures ChainPrefix(sp, k + 1) == ChainPrefix(sp, k) + TileList(sp, TileX(k), TileY(k), |sp| / 3) + [MARK]
  {
    assert TileLists(sp)[k] == TileList(sp, TileX(k), TileY(k), |sp| / 3);
  }

  /** The binning loops of `Present`. */
  method BuildChain(sp: seq<ScreenPos>) returns (chainBuffer: seq<u8>)
    requires |sp| % 3 == 0
    ensures chainBuffer == Chain(sp)
  {
    chainBuffer := [];
    ghost var row := 0;
    var ty := 0;
    while ty < HEIGHT
      invariant 0 <= row <= TILE_Y_DIV && ty == row * TILE_Y_SIZE
      invariant chainBuffer == ChainPrefix(sp, row * TILE_X_DIV)
    {
      ghost var col := 0;
      var tx := 0;
      while tx < WIDTH
        invariant 0 <= col <= TILE_X_DIV && tx == col * TILE_X_SIZE
        invariant chainBuffer == ChainPrefix(sp, row * TILE_X_DIV + col)
      {
        ghost var k := row * TILE_X_DIV + col;
        assert TileX(k) == tx && TileY(k) == ty;
        ChainPrefixNext(sp, k);
        chainBuffer := BinTile(sp, chainBuffer, tx, ty);
        chainBuffer := chainBuffer + [MARK];
        tx := tx + TILE_X_SIZE;
        col := col + 1;
      }
      ty := ty + TILE_Y_SIZE;
      row := row + 1;
    }
  }

  /** The innermost binning loop of `Present`: append the number of every
      triangle that passes the test for the tile at `(tx, ty)`. */
  method BinTile(sp: seq<ScreenPos>, chainIn: seq<u8>, tx: int, ty: int) returns (chainBuffer: seq<u8>)
    requires |sp| % 3 == 0
    ensures chainBuffer == chainIn + TileList(sp, tx, ty, |sp| / 3)
  {
    var vbuffer_size := |sp|;
    chainBuffer := chainIn;
    ghost var m := 0;
    var i := 0;
    while i < vbuffer_size
      invariant 0 <= i <= vbuffer_size && i == 3 * m
      invariant chainBuffer == chainIn + TileList(sp, tx, ty, m)
    {
      var v0, v1, v2 := sp[i + 0], sp[i + 1], sp[i + 2];
      var min_x := Min(Min(v0.x, v1.x), v2.x);
      var max_x := Max(Max(v0.x, v1.x), v2.x);
      var min_y := Min(Min(v0.y, v1.y), v2.y);
      var max_y := Max(Max(v0.y, v1.y), v2.y);
      var min_tx := tx;
      var min_ty := ty;
      var max_tx := tx + TILE_X_SIZE;
      var max_ty := ty + TILE_X_SIZE;
      var isvalid := !(min_tx > max_x || max_tx < min_x || min_ty > max_y || max_ty < min_y);
      assert isvalid == BinTest(TriAt(sp, i), tx, ty);
      assert i / 3 == m;
      if isvalid {
        chainBuffer := chainBuffer + [(i / 3) % 0x100];
      }
      i := i + 3;
      m := m + 1;
    }
  }

  // ---------------------------------------------------------------------
  // What a tile's list holds

  /** Binning over-approximates: every triangle whose box shares a pixel
      with the tile is listed for it. */
  lemma BinOverApproximates(t: Tri, tx: int, ty: int)
    requires Overlaps(t, tx, ty)
    ensures BinTest(t, tx, ty)
  {
  }

  /** The test as written accepts everything the test with the tile's own
      height accepts, and more. */
  lemma BinTestWidensIntended(t: Tri, tx: int, ty: int)
    ensures IntendedBinTest(t, tx, ty) ==> BinTest(t, tx, ty)
  {
  }

  lemma BinTestWidensExample()
    ensures var t := Tri(ScreenPos(0, 50, 0, 0.0, 0.0, 0.0), ScreenPos(10, 50, 0, 0.0, 0.0, 0.0),
                         ScreenPos(0, 60, 0, 0.0, 0.0, 0.0));
      BinTest(t, 0, 0) && !IntendedBinTest(t, 0, 0) && !Overlaps(t, 0, 0)
  {
  }

  /** Without aliasing (at most 256 triangles) a tile's list names, in
      increasing order, exactly the triangles that pass the test. */
  lemma {:induction false} TileListExact(sp: seq<ScreenPos>, tx: int, ty: int, t: nat)
    requires 3 * t <= |sp| && t <= 0x100
    ensures forall a :: 0 <= a < |TileList(sp, tx, ty, t)| ==> TileList(sp, tx, ty, t)[a] < t
    ensures forall a, b :: 0 <= a < b < |TileList(sp, tx, ty, t)| ==> TileList(sp, tx, ty, t)[a] < TileList(sp, tx, ty, t)[b]
    ensures forall j :: 0 <= j < t ==> (j in TileList(sp, tx, ty, t) <==> BinTest(TriAt(sp, 3 * j), tx, ty))
  {
    if t > 0 {
      TileListExact(sp, tx, ty, t - 1);
      var l := TileList(sp, tx, ty, t - 1);
      assert (t - 1) % 0x100 == t - 1;
      assert t - 1 !in l;
    }
  }

  /** Sentinels never appear inside a list while there are at most 255 triangles. */
  lemma TileListNoMark(sp: seq<ScreenPos>, tx: int, ty: int, t: nat)
    requires 3 * t <= |sp| && t <= 0xFF
    ensures MARK !in TileList(sp, tx, ty, t)
  {
    TileListExact(sp, tx, ty, t);
  }

  // ---------------------------------------------------------------------
  // Walking the chain: segments between sentinels

  /** The first sentinel at or after `p`, or `|s|` if there is none. */
  function NextMark(s: seq<u8>, p: nat): (q: nat)
    ensures p <= q || q == |s|
    decreases |s| - p
  {
    if p >= |s| then |s| else if s[p] == MARK then p else NextMark(s, p + 1)
  }

  lemma {:induction false} NextMarkBefore(s: seq<u8>, p: nat, q: nat)
    requires p <= q < |s| && s[q] == MARK
    ensures p <= NextMark(s, p) <= q && s[NextMark(s, p)] == MARK
    decreases q - p
  {
    if s[p] != MARK {
      NextMarkBefore(s, p + 1, q);
    }
  }

  lemma {:induction false} NextMarkExact(s: seq<u8>, p: nat, q: nat)
    requires p <= q < |s| && s[q] == MARK
    requires forall r :: p <= r < q ==> s[r] != MARK
    ensures NextMark(s, p) == q
    decreases q - p
  {
    if p < q {
      NextMarkExact(s, p + 1, q);
    }
  }

  /** Everything between `p` and its sentinel is a triangle number. */
  lemma {:induction false} NextMarkSkips(s: seq<u8>, p: nat, r: nat)
    requires p <= r < NextMark(s, p)
    ensures r < |s| && s[r] != MARK
    decreases r - p
  {
    if r > p {
      NextMarkSkips(s, p + 1, r);
    }
  }

  /** Where the `k`-th tile starts reading: just past the previous sentinel. */
  function SegStart(s: seq<u8>, k: nat): nat
  {
    if k == 0 then 0 else NextMark(s, SegStart(s, k - 1)) + 1
  }

  /** The bytes tile `k` reads before its sentinel. */
  function Segment(s: seq<u8>, k: nat): seq<u8>
  {
    var a := SegStart(s, k);
    var b := NextMark(s, a);
    if a <= b <= |s| then s[a..b] else []
  }

  // ---------------------------------------------------------------------
  // Joined lists, whatever they hold

  lemma {:induction false} JoinPrefix(lists: seq<seq<u8>>, k: nat, j: nat)
    requires k <= j <= |lists|
    ensures |Join(lists, k)| <= |Join(lists, j)|
    ensures Join(lists, j)[..|Join(lists, k)|] == Join(lists, k)
    decreases j - k
  {
    if k < j {
      JoinPrefix(lists, k, j - 1);
      var a, b := Join(lists, j - 1), Join(lists, j);
      assert b[..|a|] == a;
    }
  }

  /** Block `k` ends with a sentinel at `|Join(lists, k + 1)| - 1`. */
  lemma JoinMarkAt(lists: seq<seq<u8>>, k: nat)
    requires k < |lists|
    ensures |Join(lists, k + 1)| <= |Join(lists, |lists|)|
    ensures Join(lists, |lists|)[|Join(lists, k + 1)| - 1] == MARK
  {
    JoinPrefix(lists, k + 1, |lists|);
    var s, c := Join(lists, |lists|), Join(lists, k + 1);
    assert s[|c| - 1] == c[|c| - 1];
  }

  lemma {:induction false} JoinSegStartBound(lists: seq<seq<u8>>, k: nat)
    requires k <= |lists|
    ensures SegStart(Join(lists, |lists|), k) <= |Join(lists, k)|
  {
    if k > 0 {
      JoinSegStartBound(lists, k - 1);
      JoinMarkAt(lists, k - 1);
      NextMarkBefore(Join(lists, |lists|), SegStart(Join(lists, |lists|), k - 1), |Join(lists, k)| - 1);
    }
  }

  /** Every block's walk finds a sentinel inside the chain. */
  lemma JoinHasSegments(lists: seq<seq<u8>>, k: nat)
    requires k < |lists|
    ensures SegStart(Join(lists, |lists|), k) <= NextMark(Join(lists, |lists|), SegStart(Join(lists, |lists|), k)) < |Join(lists, |lists|)|
    ensures Join(lists, |lists|)[NextMark(Join(lists, |lists|), SegStart(Join(lists, |lists|), k))] == MARK
  {
    JoinSegStartBound(lists, k);
    JoinMarkAt(lists, k);
    NextMarkBefore(Join(lists, |lists|), SegStart(Join(lists, |lists|), k), |Join(lists, k + 1)| - 1);
  }

  /** A block that starts where the walk starts is read exactly, when no
      list holds a sentinel. */
  lemma JoinSegmentAtBlock(lists: seq<seq<u8>>, k: nat)
    requires k < |lists| && MARK !in lists[k]
    requires SegStart(Join(lists, |lists|), k) == |Join(lists, k)|
    ensures NextMark(Join(lists, |lists|), SegStart(Join(lists, |lists|), k)) == |Join(lists, k + 1)| - 1
    ensures Segment(Join(lists, |lists|), k) == lists[k]
  {
    var s := Join(lists, |lists|);
    var start := |Join(lists, k)|;
    var l := lists[k];
    JoinPrefix(lists, k + 1, |lists|);
    var c := Join(lists, k + 1);
    assert c == Join(lists, k) + l + [MARK];
    assert s[..|c|] == c;
    var e := start + |l|;
    assert s[e] == c[e] == MARK;
    forall r | start <= r < e
      ensures s[r] == l[r - start]
    {
      assert s[r] == c[r];
    }
    NextMarkExact(s, start, e);
  }

  lemma {:induction false} JoinSegStartExact(lists: seq<seq<u8>>, k: nat)
    requires k <= |lists| && forall i :: 0 <= i < |lists| ==> MARK !in lists[i]
    ensures SegStart(Join(lists, |lists|), k) == |Join(lists, k)|
  {
    if k > 0 {
      JoinSegStartExact(lists, k - 1);
      JoinSegmentAtBlock(lists, k - 1);
    }
  }

  /** Entries of the lists below `n` stay below `n` in the chain. */
  lemma {:induction false} JoinEntries(lists: seq<seq<u8>>, k: nat, n: int)
    requires k <= |lists|
    requires forall i, a :: 0 <= i < |lists| && 0 <= a < |lists[i]| ==> lists[i][a] < n
    ensures forall j :: 0 <= j < |Join(lists, k)| ==> Join(lists, k)[j] == MARK || Join(lists, k)[j] < n
  {
    if k > 0 {
      JoinEntries(lists, k - 1, n);
      var a, l := Join(lists, k - 1), lists[k - 1];
      assert Join(lists, k) == a + l + [MARK];
      forall j | 0 <= j < |a + l + [MARK]|
        ensures (a + l + [MARK])[j] == MARK || (a + l + [MARK])[j] < n
      {
        if j < |a| {
          assert (a + l + [MARK])[j] == a[j];
        } else if j < |a| + |l| {
          assert (a + l + [MARK])[j] == l[j - |a|];
        }
      }
    }
  }

  function CountMarks(s: seq<u8>): nat
  {
    if s == [] then 0 else CountMarks(s[..|s| - 1]) + (if s[|s| - 1] == MARK then 1 else 0)
  }

  lemma {:induction false} CountMarksAppend(a: seq<u8>, b: seq<u8>)
    ensures CountMarks(a + b) == CountMarks(a) + CountMarks(b)
    decreases |b|
  {
    if b != [] {
      CountMarksAppend(a, b[..|b| - 1]);
      assert (a + b)[..|a + b| - 1] == a + b[..|b| - 1];
    } else {
      assert a + b == a;
    }
  }

  lemma {:induction false} CountMarksNone(s: seq<u8>)
    requires MARK !in s
    ensures CountMarks(s) == 0
    decreases |s|
  {
    if s != [] {
      CountMarksNone(s[..|s| - 1]);
    }
  }

  lemma CountMarksMark()
    ensures CountMarks([MARK]) == 1
  {
    assert [MARK][..0] == [];
  }

  lemma {:induction false} JoinMarks(lists: seq<seq<u8>>, k: nat)
    requires k <= |lists| && forall i :: 0 <= i < |lists| ==> MARK !in lists[i]
    ensures CountMarks(Join(lists, k)) == k
  {
    if k > 0 {
      JoinMarks(lists, k - 1);
      var p, l := Join(lists, k - 1), lists[k - 1];
      assert Join(lists, k) == (p + l) + [MARK];
      CountMarksNone(l);
      CountMarksAppend(p, l);
      CountMarksAppend(p + l, [MARK]);
      CountMarksMark();
    }
  }

  // ---------------------------------------------------------------------
  // The chain of a frame

  /** Whatever the triangle count, every tile's walk finds its sentinel:
      reading never runs off the chain. */
  lemma ChainHasSegments(sp: seq<ScreenPos>, k: nat)
    requires |sp| % 3 == 0 && k < NUM_TILES
    ensures SegStart(Chain(sp), k) <= NextMark(Chain(sp), SegStart(Chain(sp), k)) < |Chain(sp)|
    ensures Chain(sp)[NextMark(Chain(sp), SegStart(Chain(sp), k))] == MARK
  {
    JoinHasSegments(TileLists(sp), k);
  }

  /** Whatever the triangle count, a list byte never exceeds the number of
      the triangle it was made from. */
  lemma {:induction false} TileListBelow(sp: seq<ScreenPos>, tx: int, ty: int, t: nat)
    requires 3 * t <= |sp|
    ensures forall a :: 0 <= a < |TileList(sp, tx, ty, t)| ==> TileList(sp, tx, ty, t)[a] < t
  {
    if t > 0 {
      TileListBelow(sp, tx, ty, t - 1);
    }
  }

  /** Whatever the triangle count, every chain byte is a sentinel or names
      one of the triangles. */
  lemma ChainEntries(sp: seq<ScreenPos>)
    requires |sp| % 3 == 0
    ensures forall j :: 0 <= j < |Chain(sp)| ==> Chain(sp)[j] == MARK || Chain(sp)[j] < |sp| / 3
  {
    var lists := TileLists(sp);
    forall i, a | 0 <= i < |lists| && 0 <= a < |lists[i]|
      ensures lists[i][a] < |sp| / 3
    {
      TileListBelow(sp, TileX(i), TileY(i), |sp| / 3);
    }
    JoinEntries(lists, NUM_TILES, |sp| / 3);
  }

  /** What the walk of tile `k` reads: triangle numbers of existing screen
      positions, up to a sentinel inside the chain. */
  lemma SegmentInRange(sp: seq<ScreenPos>, k: nat)
    requires |sp| % 3 == 0 && k < NUM_TILES
    ensures SegStart(Chain(sp), k) <= NextMark(Chain(sp), SegStart(Chain(sp), k)) < |Chain(sp)|
    ensures Chain(sp)[NextMark(Chain(sp), SegStart(Chain(sp), k))] == MARK
    ensures forall r :: SegStart(Chain(sp), k) <= r < NextMark(Chain(sp), SegStart(Chain(sp), k)) ==> 3 * Chain(sp)[r] + 2 < |sp|
  {
    var s := Chain(sp);
    var p0 := SegStart(s, k);
    ChainHasSegments(sp, k);
    ChainEntries(sp);
    forall r | p0 <= r < NextMark(s, p0)
      ensures 3 * s[r] + 2 < |sp|
    {
      NextMarkSkips(s, p0, r);
    }
  }

  /** With at most 255 triangles no tile list holds a sentinel. */
  lemma TileListsNoMark(sp: seq<ScreenPos>)
    requires |sp| % 3 == 0 && |sp| / 3 <= 0xFF
    ensures forall i :: 0 <= i < |TileLists(sp)| ==> MARK !in TileLists(sp)[i]
  {
    forall i | 0 <= i < |TileLists(sp)|
      ensures MARK !in TileLists(sp)[i]
    {
      TileListNoMark(sp, TileX(i), TileY(i), |sp| / 3);
    }
  }

  /** Up to 255 triangles, tile `k` reads exactly its own list. */
  lemma SegmentIsTileList(sp: seq<ScreenPos>, k: nat)
    requires |sp| % 3 == 0 && |sp| / 3 <= 0xFF && k < NUM_TILES
    ensures Segment(Chain(sp), k) == TileList(sp, TileX(k), TileY(k), |sp| / 3)
  {
    var lists := TileLists(sp);
    TileListsNoMark(sp);
    JoinSegStartExact(lists, k);
    JoinSegmentAtBlock(lists, k);
  }

  /** Up to 255 triangles the chain holds exactly one sentinel per tile. */
  lemma ChainMarks(sp: seq<ScreenPos>)
    requires |sp| % 3 == 0 && |sp| / 3 <= 0xFF
    ensures CountMarks(Chain(sp)) == NUM_TILES
  {
    TileListsNoMark(sp);
    JoinMarks(TileLists(sp), NUM_TILES);
  }
}
