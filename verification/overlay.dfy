/** Small integer helpers of the overlay and the board frame: the "Tri %"
    statistic (tritris3d.js:537-540), the grid lines (tritris3d.js:828-863)
    and the menu's rebuild check (tritris3d.js:199-211, 313-320). */
module Overlay {
  import opened Board

  /** `Math.round(3 * tritrisAmt / lines * 100)`, or 0 when no line was
      cleared. `Math.round` is floor(x + 1/2), which for a positive divisor
      is floor((600a + l) / (2l)), exactly Dafny's `/` on integers. */
  function TriPercent(lines: int, tritrisAmt: int): (p: int)
    ensures lines <= 0 ==> p == 0
    ensures lines > 0 ==> 2 * lines * p <= 600 * tritrisAmt + lines < 2 * lines * (p + 1)
  {
    if lines > 0 then (600 * tritrisAmt + lines) / (2 * lines) else 0
  }

  /** The integer result is `Math.round` of the real-valued percentage: the
      largest integer not above `300 a / l + 1/2`. */
  lemma TriPercentRounds(lines: int, tritrisAmt: int)
    requires lines > 0
    ensures var p := TriPercent(lines, tritrisAmt) as real;
      var x := 300.0 * (tritrisAmt as real) / (lines as real);
      p <= x + 0.5 < p + 1.0
  {
    var p := TriPercent(lines, tritrisAmt);
    var d := 2 * lines;
    var n := 600 * tritrisAmt + lines;
    CastMul(d, p);
    CastMul(d, p + 1);
    HalfUp(tritrisAmt as real, lines as real);
    DivBracket(p as real, n as real, d as real);
  }

  /** `x * y` computed in integers and then cast is the product of the casts. */
  lemma CastMul(x: int, y: int)
    ensures (x * y) as real == (x as real) * (y as real)
  {
  }

  lemma HalfUp(a: real, l: real)
    requires l > 0.0
    ensures 300.0 * a / l + 0.5 == (600.0 * a + l) / (2.0 * l)
  {
    var q := 300.0 * a / l;
    assert q * l == 300.0 * a;
    assert (q + 0.5) * (2.0 * l) == 600.0 * a + l;
    DivUnique(q + 0.5, 600.0 * a + l, 2.0 * l);
  }

  lemma DivUnique(q: real, n: real, d: real)
    requires d > 0.0 && q * d == n
    ensures n / d == q
  {
  }

  lemma DivBracket(p: real, n: real, d: real)
    requires d > 0.0 && p * d <= n < (p + 1.0) * d
    ensures p <= n / d < p + 1.0
  {
    var q := n / d;
    assert q * d == n;
    ScaleLe(p, q, d);
    ScaleLt(q, p + 1.0, d);
  }

  lemma ScaleLe(u: real, v: real, d: real)
    requires d > 0.0 && u * d <= v * d
    ensures u <= v
  {
  }

  lemma ScaleLt(u: real, v: real, d: real)
    requires d > 0.0 && u * d < v * d
    ensures u < v
  {
  }

  /** The statistic for no lines, and for 2 triple clears over 10 lines. */
  lemma TriPercentExamples()
    ensures TriPercent(0, 0) == 0
    ensures TriPercent(10, 2) == 60
    ensures TriPercent(7, 1) == 43
  {
  }

  // ---------------------------------------------------------------------------
  // Grid lines

  /** A board line at twice its world coordinate: horizontal at height
      `y2`, vertical at `x2`. */
  datatype GridLine = Horizontal(y2: int) | Vertical(x2: int)

  /** `_createGridLines`: a horizontal line for every r in 0..h (top to
      bottom), then a vertical line for every c in 0..w (left to right). */
  function GridLines(w: nat, h: nat): (r: seq<GridLine>)
    ensures |r| == (h + 1) + (w + 1)
    ensures forall i :: 0 <= i <= h ==> r[i] == Horizontal(h - 2 * i)
    ensures forall j :: 0 <= j <= w ==> r[h + 1 + j] == Vertical(2 * j - w)
  {
    seq(h + 1, i requires 0 <= i <= h => Horizontal(h - 2 * i))
      + seq(w + 1, j requires 0 <= j <= w => Vertical(2 * j - w))
  }

  /** The outermost lines are the board's edges, and every line lies on
      the board's outline or inside it. */
  lemma GridLinesFrameBoard(w: nat, h: nat)
    ensures Horizontal(h) in GridLines(w, h) && Horizontal(-(h as int)) in GridLines(w, h)
    ensures Vertical(-(w as int)) in GridLines(w, h) && Vertical(w) in GridLines(w, h)
    ensures forall i :: 0 <= i < |GridLines(w, h)| && GridLines(w, h)[i].Horizontal? ==>
      -(h as int) <= GridLines(w, h)[i].y2 <= h
    ensures forall i :: 0 <= i < |GridLines(w, h)| && GridLines(w, h)[i].Vertical? ==>
      -(w as int) <= GridLines(w, h)[i].x2 <= w
  {
    var g := GridLines(w, h);
    assert g[0] == Horizontal(h);
    assert g[h] == Horizontal(-(h as int));
    assert g[h + 1] == Vertical(-(w as int));
    assert g[h + 1 + w] == Vertical(w);
    forall i | 0 <= i < |g| && g[i].Vertical?
      ensures -(w as int) <= g[i].x2 <= w
    {
      assert g[h + 1 + (i - h - 1)] == g[i];
    }
  }

  /** Every cell is boxed in: its centre has a horizontal line one
      half-cell above and below it, and a vertical line one half-cell to its
      left and right. */
  lemma GridLinesSeparateCells(w: nat, h: nat, row: int, col: int)
    requires 0 <= row < h && 0 <= col < w
    ensures Horizontal(CenterY2(row, h) + 1) in GridLines(w, h)
    ensures Horizontal(CenterY2(row, h) - 1) in GridLines(w, h)
    ensures Vertical(CenterX2(col, w) - 1) in GridLines(w, h)
    ensures Vertical(CenterX2(col, w) + 1) in GridLines(w, h)
  {
    var g := GridLines(w, h);
    assert g[row] == Horizontal(CenterY2(row, h) + 1);
    assert g[row + 1] == Horizontal(CenterY2(row, h) - 1);
    assert g[h + 1 + col] == Vertical(CenterX2(col, w) - 1);
    assert g[h + 1 + (col + 1)] == Vertical(CenterX2(col, w) + 1);
  }

  // ---------------------------------------------------------------------------
  // Menu rebuild check

  /** What the menu was last drawn with: level, selected row, and the two
      settings it shows. */
  datatype MenuKey = MenuKey(level: int, selection: int, spin: bool, sound: bool)

  /** `uiGroup.userData`: whether the menu is on screen and what it shows. */
  datatype Menu = Menu(isMenu: bool, last: MenuKey)

  const NoMenu := Menu(false, MenuKey(0, 0, false, false))

  /** The menu afterwards, and whether its sprites were rebuilt. */
  datatype MenuStep = MenuStep(menu: Menu, rebuilt: bool)

  /** `showMenuUI`'s check: a menu already on screen with the same level,
      selection, spin and sound values is left alone; in every other case
      the menu is drawn again and remembers the new values. */
  function ShowMenu(m: Menu, k: MenuKey): (r: MenuStep)
    ensures r.menu == Menu(true, k)
    ensures r.rebuilt <==>
      (!m.isMenu || m.last.level != k.level || m.last.selection != k.selection
       || m.last.spin != k.spin || m.last.sound != k.sound)
  {
    if m.isMenu && m.last == k then MenuStep(m, false)
    else MenuStep(Menu(true, k), true)
  }

  /** Showing the menu twice with the same values draws it once. */
  lemma ShowMenuIdempotent(m: Menu, k: MenuKey)
    ensures !ShowMenu(ShowMenu(m, k).menu, k).rebuilt
    ensures ShowMenu(ShowMenu(m, k).menu, k).menu == ShowMenu(m, k).menu
  {
  }
}
