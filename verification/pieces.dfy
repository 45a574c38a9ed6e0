/** Meshes for the locked board, the falling piece and the next-piece
    preview (tritris3d.js:633-641, 661-690, 696-797, 801-827). A mesh is a
    record of where a quadrant triangle is drawn and in which colour. */
module Pieces {
  import opened Board

  /** A piece snapshot: its own small grid and its board offset `pos`. */
  datatype Piece = Piece(grid: Grid, x: int, y: int)

  /** A triangle mesh in board coordinates; `active` picks the bright
      material of the falling piece. */
  datatype Mesh = Mesh(row: int, col: int, subRow: int, subCol: int, clr: ColorIndex, active: bool)

  /** The mesh `_addTriangleMesh` adds for a hit at board offset (dx, dy). */
  function MeshOf(h: Hit, dx: int, dy: int, active: bool): Mesh
  {
    Mesh(h.key.row + dy, h.key.col + dx, h.key.subRow, h.key.subCol, h.clr, active)
  }

  function Meshes(hs: seq<Hit>, dx: int, dy: int, active: bool): (r: seq<Mesh>)
    ensures |r| == |hs|
    ensures forall i :: 0 <= i < |hs| ==> r[i] == MeshOf(hs[i], dx, dy, active)
  {
    seq(|hs|, i requires 0 <= i < |hs| => MeshOf(hs[i], dx, dy, active))
  }

  /** The piece grid's dimensions as the loops read them: `grid.length`
      rows of `grid[0].length` columns (row 0 is never read when there are
      no rows). */
  function PieceRows(p: Piece): nat
  {
    |p.grid|
  }

  function PieceCols(p: Piece): nat
  {
    if |p.grid| == 0 then 0 else |p.grid[0]|
  }

  /** The falling piece's meshes: every occupied slot of its grid, shifted
      by its position (`row + pos.y`, `col + pos.x`). */
  function ActiveMeshes(p: Piece): seq<Mesh>
  {
    Meshes(Scan(p.grid, PieceCols(p), PieceRows(p)), p.x, p.y, true)
  }

  /** Where a falling-piece mesh may be: the active material, at an
      occupied local slot of the piece plus the piece's offset, in that
      slot's colour. */
  predicate PlacedMesh(p: Piece, m: Mesh)
  {
    && m.active
    && 0 <= m.row - p.y < PieceRows(p) && 0 <= m.col - p.x < PieceCols(p)
    && IsQuadrant(m.subRow, m.subCol)
    && SlotAt(p.grid, m.row - p.y, m.col - p.x, m.subRow, m.subCol) == Some(Tri(m.clr))
  }

  /** A falling-piece mesh exists exactly for each occupied local slot of
      the piece, drawn at that slot plus the piece's offset, in its colour. */
  lemma ActiveMeshesPlaced(p: Piece)
    ensures forall m :: m in ActiveMeshes(p) <==> PlacedMesh(p, m)
    ensures |ActiveMeshes(p)| <= 4 * PieceRows(p) * PieceCols(p)
  {
    forall m | m in ActiveMeshes(p) ensures PlacedMesh(p, m) {
      ActiveMeshSound(p, m);
    }
    forall m | PlacedMesh(p, m) ensures m in ActiveMeshes(p) {
      ActiveMeshComplete(p, m);
    }
    ScanSpec(p.grid, PieceCols(p), PieceRows(p));
  }

  lemma ActiveMeshSound(p: Piece, m: Mesh)
    requires m in ActiveMeshes(p)
    ensures PlacedMesh(p, m)
  {
    var hs := Scan(p.grid, PieceCols(p), PieceRows(p));
    var h := MeshSource(hs, p.x, p.y, true, m);
    assert m.row - p.y == h.key.row && m.col - p.x == h.key.col;
    assert InBoard(h.key, PieceCols(p), PieceRows(p))
        && SlotAt(p.grid, h.key.row, h.key.col, h.key.subRow, h.key.subCol) == Some(Tri(h.clr)) by {
      ScanMembers(p.grid, PieceCols(p), PieceRows(p));
    }
  }

  lemma ActiveMeshComplete(p: Piece, m: Mesh)
    requires PlacedMesh(p, m)
    ensures m in ActiveMeshes(p)
  {
    var hs := Scan(p.grid, PieceCols(p), PieceRows(p));
    var h := Hit(Key(m.row - p.y, m.col - p.x, m.subRow, m.subCol), m.clr);
    assert h in hs by {
      assert InBoard(h.key, PieceCols(p), PieceRows(p));
      ScanMembers(p.grid, PieceCols(p), PieceRows(p));
    }
    MeshOfMember(hs, p.x, p.y, true, h);
    assert MeshOf(h, p.x, p.y, true) == m;
  }

  /** Each mesh comes from one of the hits. */
  lemma MeshSource(hs: seq<Hit>, dx: int, dy: int, active: bool, m: Mesh) returns (h: Hit)
    requires m in Meshes(hs, dx, dy, active)
    ensures h in hs && m == MeshOf(h, dx, dy, active)
  {
    var ms := Meshes(hs, dx, dy, active);
    var i :| 0 <= i < |ms| && ms[i] == m;
    h := hs[i];
  }

  /** Each hit has its mesh. */
  lemma MeshOfMember(hs: seq<Hit>, dx: int, dy: int, active: bool, h: Hit)
    requires h in hs
    ensures MeshOf(h, dx, dy, active) in Meshes(hs, dx, dy, active)
  {
    var i :| 0 <= i < |hs| && hs[i] == h;
    assert Meshes(hs, dx, dy, active)[i] == MeshOf(h, dx, dy, active);
  }

  // ---------------------------------------------------------------------------
  // Next-piece preview

  /** The bounding box of the occupied cells. */
  datatype Box = Box(minR: int, maxR: int, minC: int, maxC: int)

  /** The box of the cells the hits lie in, none when there are no hits. */
  function BoundingBox(hs: seq<Hit>): (r: Option<Box>)
    ensures r.None? <==> hs == []
    ensures r.Some? ==> forall x :: x in hs ==>
      r.value.minR <= x.key.row <= r.value.maxR && r.value.minC <= x.key.col <= r.value.maxC
    ensures r.Some? ==> exists x :: x in hs && x.key.row == r.value.minR
    ensures r.Some? ==> exists x :: x in hs && x.key.row == r.value.maxR
    ensures r.Some? ==> exists x :: x in hs && x.key.col == r.value.minC
    ensures r.Some? ==> exists x :: x in hs && x.key.col == r.value.maxC
  {
    if hs == [] then None
    else
      var k := hs[0].key;
      match BoundingBox(hs[1..])
      case None => Some(Box(k.row, k.row, k.col, k.col))
      case Some(b) =>
        Some(Box(Min(k.row, b.minR), Max(k.row, b.maxR), Min(k.col, b.minC), Max(k.col, b.maxC)))
  }

  function Min(a: int, b: int): int { if a <= b then a else b }
  function Max(a: int, b: int): int { if a >= b then a else b }

  /** A preview triangle: its quadrant, colour, and its offset from the
      pivot in half-cell units (x to the right, y up). */
  datatype PreviewTri = PreviewTri(subRow: int, subCol: int, clr: ColorIndex, dx2: int, dy2: int)

  /** The preview group: nothing, or a pivot with the glow box and the
      piece's triangles centred on it. */
  datatype Preview = NoPreview | Preview(box: Box, tris: seq<PreviewTri>)

  function Width(b: Box): int { b.maxC - b.minC + 1 }
  function Height(b: Box): int { b.maxR - b.minR + 1 }

  /** `(c - minC - pieceW/2 + 0.5)` and `-(r - minR - pieceH/2 + 0.5)`, doubled. */
  function Centred(h: Hit, b: Box): PreviewTri
  {
    PreviewTri(h.key.subRow, h.key.subCol, h.clr,
               2 * (h.key.col - b.minC) - Width(b) + 1,
               -(2 * (h.key.row - b.minR) - Height(b) + 1))
  }

  /** `_updateNextPiece`: nothing without a next piece or when it has no
      triangle; otherwise each occupied slot, offset from the centre of
      the bounding box of the occupied cells. Reading `grid[0]` needs at
      least one row. */
  function PreviewOf(np: Option<Piece>): Preview
    requires np.Some? ==> |np.value.grid| > 0
  {
    match np
    case None => NoPreview
    case Some(p) =>
      var hs := Scan(p.grid, |p.grid[0]|, |p.grid|);
      match BoundingBox(hs)
      case None => NoPreview
      case Some(b) => Preview(b, CentredAll(hs, b))
  }

  function CentredAll(hs: seq<Hit>, b: Box): (r: seq<PreviewTri>)
    ensures |r| == |hs|
    ensures forall i :: 0 <= i < |hs| ==> r[i] == Centred(hs[i], b)
  {
    seq(|hs|, i requires 0 <= i < |hs| => Centred(hs[i], b))
  }

  /** Offsets from the centre of the box of the hits are symmetric. */
  lemma CentredOffsets(hs: seq<Hit>, b: Box)
    requires BoundingBox(hs) == Some(b)
    ensures var ts := CentredAll(hs, b);
      && Width(b) >= 1 && Height(b) >= 1
      && (forall t :: t in ts ==> 1 - Width(b) <= t.dx2 <= Width(b) - 1)
      && (forall t :: t in ts ==> 1 - Height(b) <= t.dy2 <= Height(b) - 1)
      && (exists t :: t in ts && t.dx2 == 1 - Width(b))
      && (exists t :: t in ts && t.dx2 == Width(b) - 1)
      && (exists t :: t in ts && t.dy2 == Height(b) - 1)
      && (exists t :: t in ts && t.dy2 == 1 - Height(b))
  {
    var ts := CentredAll(hs, b);
    forall t | t in ts
      ensures 1 - Width(b) <= t.dx2 <= Width(b) - 1
      ensures 1 - Height(b) <= t.dy2 <= Height(b) - 1
    {
      var x := CentredSource(hs, b, t);
    }
    var x0 :| x0 in hs && x0.key.col == b.minC;
    CentredMember(hs, b, x0);
    var x1 :| x1 in hs && x1.key.col == b.maxC;
    CentredMember(hs, b, x1);
    var y0 :| y0 in hs && y0.key.row == b.minR;
    CentredMember(hs, b, y0);
    var y1 :| y1 in hs && y1.key.row == b.maxR;
    CentredMember(hs, b, y1);
  }

  lemma CentredSource(hs: seq<Hit>, b: Box, t: PreviewTri) returns (x: Hit)
    requires t in CentredAll(hs, b)
    ensures x in hs && t == Centred(x, b)
  {
    var ts := CentredAll(hs, b);
    var i :| 0 <= i < |ts| && ts[i] == t;
    x := hs[i];
  }

  lemma CentredMember(hs: seq<Hit>, b: Box, x: Hit)
    requires x in hs
    ensures Centred(x, b) in CentredAll(hs, b)
  {
    var i :| 0 <= i < |hs| && hs[i] == x;
    assert CentredAll(hs, b)[i] == Centred(x, b);
  }

  /** The preview is centred: the box is at least one cell each way, each
      triangle's offset lies within half the box on either side, and the
      first and last occupied column (row) sit at offsets that are
      negatives of each other. A piece without triangles shows nothing. */
  lemma PreviewCentred(np: Option<Piece>)
    requires np.Some? ==> |np.value.grid| > 0
    ensures np.None? ==> PreviewOf(np) == NoPreview
    ensures np.Some? ==>
      var p := np.value;
      (PreviewOf(np) == NoPreview <==> Scan(p.grid, |p.grid[0]|, |p.grid|) == [])
    ensures PreviewOf(np).Preview? ==>
      var b := PreviewOf(np).box;
      var ts := PreviewOf(np).tris;
      && Width(b) >= 1 && Height(b) >= 1
      && (forall t :: t in ts ==> 1 - Width(b) <= t.dx2 <= Width(b) - 1)
      && (forall t :: t in ts ==> 1 - Height(b) <= t.dy2 <= Height(b) - 1)
      && (exists t :: t in ts && t.dx2 == 1 - Width(b))
      && (exists t :: t in ts && t.dx2 == Width(b) - 1)
      && (exists t :: t in ts && t.dy2 == Height(b) - 1)
      && (exists t :: t in ts && t.dy2 == 1 - Height(b))
  {
    if np.Some? {
      var p := np.value;
      var hs := Scan(p.grid, |p.grid[0]|, |p.grid|);
      if BoundingBox(hs).Some? {
        CentredOffsets(hs, BoundingBox(hs).value);
      }
    }
  }
}
