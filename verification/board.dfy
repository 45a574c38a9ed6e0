/** The game board as the renderer reads it: a grid of optional square
    cells, each split into four optional quadrant triangles, and the fixed
    row / column / sub-row / sub-column scan that the renderer uses to walk
    it (tritris3d.js:610-618, 664-672, 760-768). */
module Board {

  datatype Option<T> = None | Some(value: T)

  /** The renderer's palette, indexed by a triangle's colour index. */
  const Palette: seq<int> := [0xff0000, 0x00ff00, 0xffff00, 0xff00ff, 0x00ffff, 0xfa6419, 0xffffff]

  /** A colour index is always a valid palette index. */
  type ColorIndex = i: int | 0 <= i < 7

  datatype Tri = Tri(clr: ColorIndex)

  /** A square cell: `tris[subRow][subCol]`, each slot optionally empty. */
  datatype Cell = Cell(tl: Option<Tri>, tr: Option<Tri>, bl: Option<Tri>, br: Option<Tri>)

  /** A row-major grid of optional cells; rows may be ragged. */
  type Grid = seq<seq<Option<Cell>>>

  /** The slot `tris[subRow][subCol]`; anything outside {0,1} x {0,1} is empty. */
  function TriAt(c: Cell, subRow: int, subCol: int): Option<Tri>
  {
    if subRow == 0 && subCol == 0 then c.tl
    else if subRow == 0 && subCol == 1 then c.tr
    else if subRow == 1 && subCol == 0 then c.bl
    else if subRow == 1 && subCol == 1 then c.br
    else None
  }

  /** `grid[row][col]`, with a missing entry read as an empty cell. */
  function CellAt(g: Grid, row: int, col: int): Option<Cell>
  {
    if 0 <= row < |g| && 0 <= col < |g[row]| then g[row][col] else None
  }

  /** The triangle at one slot of the grid, if any. */
  function SlotAt(g: Grid, row: int, col: int, subRow: int, subCol: int): Option<Tri>
  {
    match CellAt(g, row, col)
    case None => None
    case Some(c) => TriAt(c, subRow, subCol)
  }

  /** The identity `row,col,subRow,subCol` of one rendered triangle slot. */
  datatype Key = Key(row: int, col: int, subRow: int, subCol: int)

  /** One occupied slot met by the scan, with its colour. */
  datatype Hit = Hit(key: Key, clr: ColorIndex)

  predicate IsQuadrant(subRow: int, subCol: int)
  {
    0 <= subRow < 2 && 0 <= subCol < 2
  }

  /** The key lies on a `w` x `h` board. */
  predicate InBoard(k: Key, w: int, h: int)
  {
    0 <= k.row < h && 0 <= k.col < w && IsQuadrant(k.subRow, k.subCol)
  }

  /** Strict scan order: row, then col, then subRow, then subCol. */
  predicate Before(a: Key, b: Key)
  {
    || a.row < b.row
    || (a.row == b.row && a.col < b.col)
    || (a.row == b.row && a.col == b.col && a.subRow < b.subRow)
    || (a.row == b.row && a.col == b.col && a.subRow == b.subRow && a.subCol < b.subCol)
  }

  /** The hits are listed strictly in scan order. */
  predicate ScanOrdered(hs: seq<Hit>)
  {
    forall i, j :: 0 <= i < j < |hs| ==> Before(hs[i].key, hs[j].key)
  }

  function KeySet(hs: seq<Hit>): set<Key>
  {
    set h | h in hs :: h.key
  }

  /** Quadrant `q` in 0..3 is slot `tris[q / 2][q % 2]`. */
  function QuadKey(row: int, col: int, q: int): Key
  {
    Key(row, col, q / 2, q % 2)
  }

  /** The occupied slots of cell `c` from quadrant `q` on, in sub-row / sub-col order. */
  function QuadHits(c: Cell, row: int, col: int, q: int): seq<Hit>
    decreases 4 - q
  {
    if q < 0 || q >= 4 then []
    else
      var k := QuadKey(row, col, q);
      match TriAt(c, k.subRow, k.subCol)
      case None => QuadHits(c, row, col, q + 1)
      case Some(t) => [Hit(k, t.clr)] + QuadHits(c, row, col, q + 1)
  }

  /** The occupied slots of one cell, in sub-row / sub-col order. */
  function CellHits(g: Grid, row: int, col: int): seq<Hit>
  {
    match CellAt(g, row, col)
    case None => []
    case Some(c) => QuadHits(c, row, col, 0)
  }

  /** Columns `col .. w-1` of one row. */
  function ScanRow(g: Grid, row: int, col: int, w: int): seq<Hit>
    decreases w - col
  {
    if col >= w then [] else CellHits(g, row, col) + ScanRow(g, row, col + 1, w)
  }

  /** Rows `row .. h-1`. */
  function ScanRows(g: Grid, row: int, w: int, h: int): seq<Hit>
    decreases h - row
  {
    if row >= h then [] else ScanRow(g, row, 0, w) + ScanRows(g, row + 1, w, h)
  }

  /** Every occupied slot of a `w` x `h` board, in scan order. */
  function Scan(g: Grid, w: int, h: int): seq<Hit>
  {
    ScanRows(g, 0, w, h)
  }

  // ---------------------------------------------------------------------------
  // What the scan yields

  lemma {:induction false} QuadHitsSpec(c: Cell, row: int, col: int, q: int)
    requires 0 <= q <= 4
    ensures forall x :: x in QuadHits(c, row, col, q) <==>
      x.key.row == row && x.key.col == col && IsQuadrant(x.key.subRow, x.key.subCol)
      && q <= 2 * x.key.subRow + x.key.subCol
      && TriAt(c, x.key.subRow, x.key.subCol) == Some(Tri(x.clr))
    ensures ScanOrdered(QuadHits(c, row, col, q))
    decreases 4 - q
  {
    if q < 4 {
      QuadHitsSpec(c, row, col, q + 1);
      var k := QuadKey(row, col, q);
      var rest := QuadHits(c, row, col, q + 1);
      if TriAt(c, k.subRow, k.subCol).Some? {
        var hd := [Hit(k, TriAt(c, k.subRow, k.subCol).value.clr)];
        assert QuadHits(c, row, col, q) == hd + rest;
        assert forall x :: x in rest ==> Before(k, x.key);
        ConcatOrdered(hd, rest);
      }
    }
  }

  lemma CellHitsSpec(g: Grid, row: int, col: int)
    ensures forall x :: x in CellHits(g, row, col) <==>
      x.key.row == row && x.key.col == col && IsQuadrant(x.key.subRow, x.key.subCol)
      && SlotAt(g, row, col, x.key.subRow, x.key.subCol) == Some(Tri(x.clr))
    ensures ScanOrdered(CellHits(g, row, col))
  {
    if CellAt(g, row, col).Some? {
      QuadHitsSpec(CellAt(g, row, col).value, row, col, 0);
    }
  }

  lemma {:induction false} ScanRowSpec(g: Grid, row: int, col: int, w: int)
    requires 0 <= col
    ensures forall x :: x in ScanRow(g, row, col, w) <==>
      x.key.row == row && col <= x.key.col < w && IsQuadrant(x.key.subRow, x.key.subCol)
      && SlotAt(g, row, x.key.col, x.key.subRow, x.key.subCol) == Some(Tri(x.clr))
    ensures ScanOrdered(ScanRow(g, row, col, w))
    decreases w - col
  {
    if col < w {
      CellHitsSpec(g, row, col);
      ScanRowSpec(g, row, col + 1, w);
      var a: seq<Hit>, b: seq<Hit> := CellHits(g, row, col), ScanRow(g, row, col + 1, w);
      ConcatOrdered(a, b);
    }
  }

  /** Two ordered runs whose elements straddle a boundary give an ordered run. */
  lemma ConcatOrdered(a: seq<Hit>, b: seq<Hit>)
    requires ScanOrdered(a) && ScanOrdered(b)
    requires forall x, y :: x in a && y in b ==> Before(x.key, y.key)
    ensures ScanOrdered(a + b)
  {
    forall i, j | 0 <= i < j < |a + b| ensures Before((a + b)[i].key, (a + b)[j].key) {
      if j < |a| {
        assert (a + b)[i] == a[i] && (a + b)[j] == a[j];
      } else if |a| <= i {
        assert (a + b)[i] == b[i - |a|] && (a + b)[j] == b[j - |a|];
      }
    }
  }

  lemma {:induction false} ScanRowsMembers(g: Grid, row: int, w: int, h: int)
    requires 0 <= row && 0 <= w
    ensures forall x :: x in ScanRows(g, row, w, h) <==>
      row <= x.key.row < h && 0 <= x.key.col < w && IsQuadrant(x.key.subRow, x.key.subCol)
      && SlotAt(g, x.key.row, x.key.col, x.key.subRow, x.key.subCol) == Some(Tri(x.clr))
    decreases h - row
  {
    if row < h {
      ScanRowSpec(g, row, 0, w);
      ScanRowsMembers(g, row + 1, w, h);
    }
  }

  lemma {:induction false} ScanRowsOrdered(g: Grid, row: int, w: int, h: int)
    requires 0 <= row && 0 <= w
    ensures ScanOrdered(ScanRows(g, row, w, h))
    decreases h - row
  {
    if row < h {
      ScanRowSpec(g, row, 0, w);
      ScanRowsMembers(g, row + 1, w, h);
      ScanRowsOrdered(g, row + 1, w, h);
      ConcatOrdered(ScanRow(g, row, 0, w), ScanRows(g, row + 1, w, h));
    }
  }

  /** A cell yields at most its four quadrants, a row at most four per
      cell, `n` rows at most `4 * w * n`. */
  lemma {:induction false} QuadHitsLength(c: Cell, row: int, col: int, q: int)
    requires 0 <= q <= 4
    ensures |QuadHits(c, row, col, q)| <= 4 - q
    decreases 4 - q
  {
    if q < 4 {
      QuadHitsLength(c, row, col, q + 1);
    }
  }

  lemma {:induction false} ScanRowLength(g: Grid, row: int, col: int, w: int)
    requires 0 <= col <= w
    ensures |ScanRow(g, row, col, w)| <= 4 * (w - col)
    decreases w - col
  {
    if col < w {
      if CellAt(g, row, col).Some? {
        QuadHitsLength(CellAt(g, row, col).value, row, col, 0);
      }
      ScanRowLength(g, row, col + 1, w);
    }
  }

  lemma {:induction false} ScanRowsLength(g: Grid, row: int, w: nat, h: int)
    requires 0 <= row <= h
    ensures |ScanRows(g, row, w, h)| <= 4 * w * (h - row)
    decreases h - row
  {
    if row < h {
      var a, b := ScanRow(g, row, 0, w), ScanRows(g, row + 1, w, h);
      var k, m := 4 * w, h - (row + 1);
      ScanRowLength(g, row, 0, w);
      ScanRowsLength(g, row + 1, w, h);
      assert |a| <= k && |b| <= k * m;
      MulSucc(k, m);
      assert ScanRows(g, row, w, h) == a + b;
    }
  }

  lemma MulSucc(a: nat, n: nat)
    ensures a * (n + 1) == a * n + a && a * n >= 0
  {
  }

  /** The scan meets exactly the occupied slots of the board, each once, in
      row / col / subRow / subCol order, and there are at most 4*w*h of them. */
  lemma ScanSpec(g: Grid, w: nat, h: nat)
    ensures forall x :: x in Scan(g, w, h) <==>
      InBoard(x.key, w, h) && SlotAt(g, x.key.row, x.key.col, x.key.subRow, x.key.subCol) == Some(Tri(x.clr))
    ensures ScanOrdered(Scan(g, w, h))
    ensures |Scan(g, w, h)| <= 4 * w * h
  {
    ScanMembers(g, w, h);
    ScanRowsOrdered(g, 0, w, h);
    ScanRowsLength(g, 0, w, h);
  }

  /** The membership half of `ScanSpec` on its own. */
  lemma ScanMembers(g: Grid, w: nat, h: nat)
    ensures forall x :: x in Scan(g, w, h) <==>
      InBoard(x.key, w, h) && SlotAt(g, x.key.row, x.key.col, x.key.subRow, x.key.subCol) == Some(Tri(x.clr))
  {
    ScanRowsMembers(g, 0, w, h);
  }

  /** A strictly ordered run never repeats a key, so its key set is as large
      as the run itself. */
  lemma {:induction false} OrderedKeyCount(hs: seq<Hit>)
    requires ScanOrdered(hs)
    ensures |KeySet(hs)| == |hs|
  {
    if hs != [] {
      var t := hs[1..];
      assert ScanOrdered(t) by {
        forall i, j | 0 <= i < j < |t| ensures Before(t[i].key, t[j].key) {
          assert t[i] == hs[i + 1] && t[j] == hs[j + 1];
        }
      }
      OrderedKeyCount(t);
      forall x | x in t ensures x.key != hs[0].key {
        var j :| 0 <= j < |t| && t[j] == x;
        assert Before(hs[0].key, hs[j + 1].key);
      }
      KeySetCons(hs);
    }
  }

  lemma KeySetCons(hs: seq<Hit>)
    requires hs != []
    ensures KeySet(hs) == {hs[0].key} + KeySet(hs[1..])
  {
    forall k | k in KeySet(hs) ensures k in {hs[0].key} + KeySet(hs[1..]) {
      var x :| x in hs && x.key == k;
      var i :| 0 <= i < |hs| && hs[i] == x;
      if i > 0 { assert hs[1..][i - 1] == x; }
    }
    forall k | k in KeySet(hs[1..]) ensures k in KeySet(hs) {
      var x :| x in hs[1..] && x.key == k;
      assert x in hs;
    }
  }

  /** The renderer's locked set is never larger than four slots per cell. */
  lemma LockedSetBound(g: Grid, w: nat, h: nat)
    ensures |KeySet(Scan(g, w, h))| <= 4 * w * h
  {
    ScanSpec(g, w, h);
    OrderedKeyCount(Scan(g, w, h));
  }

  // ---------------------------------------------------------------------------
  // Board-to-world mapping, in half-cell units (a unit is cellSize / 2)

  /** Twice the world x of the centre of column `col`: (col - w/2 + 0.5) * 2. */
  function CenterX2(col: int, w: int): int
  {
    2 * col - w + 1
  }

  /** Twice the world y of the centre of row `row`: (h/2 - row - 0.5) * 2. */
  function CenterY2(row: int, h: int): int
  {
    h - 2 * row - 1
  }

  /** Row 0 is at the top, columns run left to right, consecutive cells are
      one cell (two half-cells) apart, and the board is centred on the origin. */
  lemma WorldMapping(row: int, col: int, w: int, h: int)
    ensures CenterY2(row + 1, h) == CenterY2(row, h) - 2
    ensures CenterX2(col + 1, w) == CenterX2(col, w) + 2
    ensures CenterY2(h - 1 - row, h) == -CenterY2(row, h)
    ensures CenterX2(w - 1 - col, w) == -CenterX2(col, w)
    ensures 0 <= row < h ==> -h < CenterY2(row, h) < h
    ensures 0 <= col < w ==> -w < CenterX2(col, w) < w
  {
  }
}
