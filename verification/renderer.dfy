/** The renderer as a whole: its state record, `updateFromGame`
    (tritris3d.js:595-694), `triggerLineClear` (tritris3d.js:1027-1092), the
    per-frame latch of `renderThreeFromGame` (tritris3d.js:21-42), the
    bookkeeping of `render` (tritris3d.js:1100-1244) and the menu frame
    (tritris3d.js:45-57, 199-320). Sounds are recorded as events. */
module Renderer {
  import opened Board
  import opened Differ
  import opened Pieces
  import opened Overlay
  import opened Particles
  import opened Effects

  /** A sound played through `sfx.play`; the random pitch of the lock
      sound is left out. */
  datatype Sfx = LockSfx | LineClearSfx(detune: int) | LightshowSfx

  /** The game snapshot the renderer reads each frame. */
  datatype Game = Game(w: nat, h: nat, grid: Grid, current: Option<Piece>, next: Option<Piece>,
                       tritrisJustHappened: bool, animatingLines: seq<int>)

  /** `_updateNextPiece` reads `grid[0]` of a next piece, so it has a row. */
  predicate ValidGame(g: Game)
  {
    g.next.Some? ==> |g.next.value.grid| > 0
  }

  /** The renderer's fields that the bookkeeping touches. Scene groups are
      the mesh sequences `board`, `active`, `next` and `grid`. */
  datatype Renderer = Renderer(
    boardW: nat, boardH: nat,
    prevLocked: set<Key>,
    board: seq<Mesh>, active: seq<Mesh>, next: Preview, grid: seq<GridLine>,
    particles: seq<Particle>,
    bounce: Bounce, lightshow: Lightshow, lineClear: LineClear, star: Star,
    lineClearActive: bool, menu: Menu)

  /** The constructor's state: an 8 by 16 board, nothing drawn, all clocks
      at zero and the stars spinning forwards. */
  const Initial := Renderer(8, 16, {}, [], [], NoPreview, [], [],
                            Bounce(0, Resting), NoLightshow, NoLineClear, InitialStar, false, NoMenu)

  /** The colour of the line-clear sparks. */
  const BeamColor := 0x88ccff

  /** The clocks stay in the ranges `render` leaves them in, the spin
      direction is a sign, every particle has life left, and the lock
      memory fits the board. */
  predicate Inv(r: Renderer)
  {
    && (r.star.rotDir == 1 || r.star.rotDir == -1)
    && (r.star.speedTime > 0 ==> 0 <= r.star.speedElapsed < r.star.speedTime == StarPulseMs)
    && (r.lightshow.plane ==> 0 <= r.lightshow.elapsed < r.lightshow.time == LightshowMs)
    && (|r.lineClear.beams| > 0 ==> 0 <= r.lineClear.elapsed < r.lineClear.time == LineClearMs)
    && r.bounce.time <= BounceMs
    && AllAlive(r.particles)
    && |r.prevLocked| <= 4 * r.boardW * r.boardH
  }

  lemma InitialInv()
    ensures Inv(Initial)
  {
  }

  // ---------------------------------------------------------------------------
  // Particle bursts

  /** The placement burst for the newly locked triangles, in order: for
      each, 32 sparks then a ring at the centre of its cell, in its colour. */
  function Placements(pool: seq<Particle>, newly: seq<Hit>, w: int, h: int, lives: seq<int>): (r: seq<Particle>)
    requires ValidLives(lives)
    ensures |r| == |pool| + (SparksPerBurst + 1) * |newly|
    ensures r[..|pool|] == pool
    ensures AllAlive(pool) ==> AllAlive(r)
    decreases |newly|
  {
    if newly == [] then pool
    else
      var x := newly[0];
      var x2, y2, c := CenterX2(x.key.col, w), CenterY2(x.key.row, h), Palette[x.clr];
      var p1 := SpawnShockwave(SpawnParticles(pool, x2, y2, c, lives), x2, y2, c);
      var r := Placements(p1, newly[1..], w, h, lives);
      PrefixOfPrefix(pool, p1, r);
      r
  }

  /** Particle `j` of the placement burst of `x`: sparks 0 to 31 are
      streaks with the burst's lifetimes, particle 32 is the ring; all sit
      at the centre of the triangle's cell in its palette colour. */
  function BurstParticle(x: Hit, w: int, h: int, lives: seq<int>, j: nat): Particle
    requires ValidLives(lives) && j <= SparksPerBurst
  {
    var x2, y2, c := CenterX2(x.key.col, w), CenterY2(x.key.row, h), Palette[x.clr];
    if j < SparksPerBurst then Particle(Streak, x2, y2, c, lives[j], lives[j])
    else Particle(Ring, x2, y2, c, RingLifeMs, RingLifeMs)
  }

  /** The placement particles are laid out in blocks of 33, one block per
      newly locked triangle in order: its 32 sparks, then its ring. */
  lemma {:induction false} PlacementAt(pool: seq<Particle>, newly: seq<Hit>, w: int, h: int, lives: seq<int>, i: nat, j: nat)
    requires ValidLives(lives) && i < |newly| && j <= SparksPerBurst
    ensures |pool| + (SparksPerBurst + 1) * i + j < |Placements(pool, newly, w, h, lives)|
    ensures Placements(pool, newly, w, h, lives)[|pool| + (SparksPerBurst + 1) * i + j]
         == BurstParticle(newly[i], w, h, lives, j)
    decreases i
  {
    if i == 0 {
      FirstPlacement(pool, newly, w, h, lives, j);
    } else {
      var x := newly[0];
      var x2, y2, c := CenterX2(x.key.col, w), CenterY2(x.key.row, h), Palette[x.clr];
      var p1 := SpawnShockwave(SpawnParticles(pool, x2, y2, c, lives), x2, y2, c);
      assert Placements(pool, newly, w, h, lives) == Placements(p1, newly[1..], w, h, lives);
      PlacementAt(p1, newly[1..], w, h, lives, i - 1, j);
      assert newly[1..][i - 1] == newly[i];
    }
  }

  /** The first triangle's burst comes straight after the old pool. */
  lemma FirstPlacement(pool: seq<Particle>, newly: seq<Hit>, w: int, h: int, lives: seq<int>, j: nat)
    requires ValidLives(lives) && newly != [] && j <= SparksPerBurst
    ensures |pool| + j < |Placements(pool, newly, w, h, lives)|
    ensures Placements(pool, newly, w, h, lives)[|pool| + j] == BurstParticle(newly[0], w, h, lives, j)
  {
    var x := newly[0];
    var x2, y2, c := CenterX2(x.key.col, w), CenterY2(x.key.row, h), Palette[x.clr];
    var p1 := SpawnShockwave(SpawnParticles(pool, x2, y2, c, lives), x2, y2, c);
    var r := Placements(p1, newly[1..], w, h, lives);
    assert Placements(pool, newly, w, h, lives) == r;
    FirstBurst(pool, x, w, h, lives, j);
    assert r[|pool| + j] == r[..|p1|][|pool| + j];
  }

  /** The burst of one triangle, spawned onto `pool`, puts its particle `j`
      just past the old pool. */
  lemma FirstBurst(pool: seq<Particle>, x: Hit, w: int, h: int, lives: seq<int>, j: nat)
    requires ValidLives(lives) && j <= SparksPerBurst
    ensures var x2, y2, c := CenterX2(x.key.col, w), CenterY2(x.key.row, h), Palette[x.clr];
      var p1 := SpawnShockwave(SpawnParticles(pool, x2, y2, c, lives), x2, y2, c);
      |pool| + j < |p1| && p1[|pool| + j] == BurstParticle(x, w, h, lives, j)
  {
    var x2, y2, c := CenterX2(x.key.col, w), CenterY2(x.key.row, h), Palette[x.clr];
    var p0 := SpawnParticles(pool, x2, y2, c, lives);
    var p1 := SpawnShockwave(p0, x2, y2, c);
    if j < SparksPerBurst {
      assert p1[|pool| + j] == p1[..|p0|][|pool| + j] == p0[|pool| + j];
    }
  }

  /** Every newly locked triangle gets its own shockwave ring at the centre
      of its cell, in its palette colour, with the full ring lifetime. */
  lemma {:induction false} PlacementRings(pool: seq<Particle>, newly: seq<Hit>, w: int, h: int, lives: seq<int>)
    requires ValidLives(lives)
    ensures forall x :: x in newly ==>
      Particle(Ring, CenterX2(x.key.col, w), CenterY2(x.key.row, h), Palette[x.clr], RingLifeMs, RingLifeMs)
        in Placements(pool, newly, w, h, lives)
    decreases |newly|
  {
    if newly != [] {
      var x := newly[0];
      var x2, y2, c := CenterX2(x.key.col, w), CenterY2(x.key.row, h), Palette[x.clr];
      var p1 := SpawnShockwave(SpawnParticles(pool, x2, y2, c, lives), x2, y2, c);
      var r := Placements(p1, newly[1..], w, h, lives);
      PlacementRings(p1, newly[1..], w, h, lives);
      assert r[..|p1|] == p1;
      assert r[|p1| - 1] == p1[|p1| - 1];
      forall y | y in newly
        ensures Particle(Ring, CenterX2(y.key.col, w), CenterY2(y.key.row, h), Palette[y.clr], RingLifeMs, RingLifeMs) in r
      {
        if y != x {
          assert y in newly[1..];
        }
      }
    }
  }

  /** The sparks of one cleared row: a burst at each column centre from
      `col` to the right edge. */
  function RowSparks(pool: seq<Particle>, y2: int, col: nat, w: nat, lives: seq<int>): (r: seq<Particle>)
    requires ValidLives(lives) && col <= w
    ensures |r| == |pool| + SparksPerBurst * (w - col)
    ensures r[..|pool|] == pool
    ensures AllAlive(pool) ==> AllAlive(r)
    decreases w - col
  {
    if col == w then pool
    else
      var p1 := SpawnParticles(pool, CenterX2(col, w), y2, BeamColor, lives);
      var r := RowSparks(p1, y2, col + 1, w, lives);
      PrefixOfPrefix(pool, p1, r);
      r
  }

  /** A spark of a cleared row: a streak at the row's height, in the beam
      colour, inside the board's width. */
  predicate BeamSpark(p: Particle, y2: int, w: int)
  {
    p.shape == Streak && p.y2 == y2 && p.color == BeamColor && -w < p.x2 < w
  }

  /** Every spark a cleared row adds is a beam spark of that row. */
  lemma {:induction false} RowSparksPlaced(pool: seq<Particle>, y2: int, col: nat, w: nat, lives: seq<int>)
    requires ValidLives(lives) && col <= w
    ensures forall i :: |pool| <= i < |RowSparks(pool, y2, col, w, lives)| ==>
      BeamSpark(RowSparks(pool, y2, col, w, lives)[i], y2, w)
    decreases w - col
  {
    if col < w {
      var p1 := SpawnParticles(pool, CenterX2(col, w), y2, BeamColor, lives);
      var r := RowSparks(p1, y2, col + 1, w, lives);
      RowSparksPlaced(p1, y2, col + 1, w, lives);
      assert RowSparks(pool, y2, col, w, lives) == r;
      forall i | |pool| <= i < |p1|
        ensures BeamSpark(r[i], y2, w)
      {
        assert r[i] == r[..|p1|][i] == p1[i];
      }
    }
  }

  /** The sparks of `triggerLineClear`: a row of bursts per cleared row, at
      that row's height. */
  function LineSparks(pool: seq<Particle>, rows: seq<int>, w: nat, h: int, lives: seq<int>): (r: seq<Particle>)
    requires ValidLives(lives)
    ensures |r| == |pool| + SparksPerBurst * w * |rows|
    ensures r[..|pool|] == pool
    ensures AllAlive(pool) ==> AllAlive(r)
    decreases |rows|
  {
    if rows == [] then pool
    else
      var p1 := RowSparks(pool, CenterY2(rows[0], h), 0, w, lives);
      var r := LineSparks(p1, rows[1..], w, h, lives);
      var k := SparksPerBurst * w;
      MulSucc(k, |rows| - 1);
      assert |rows[1..]| == |rows| - 1;
      PrefixOfPrefix(pool, p1, r);
      r
  }

  lemma PrefixOfPrefix(a: seq<Particle>, b: seq<Particle>, c: seq<Particle>)
    requires |a| <= |b| <= |c| && c[..|b|] == b && b[..|a|] == a
    ensures c[..|a|] == a
  {
    assert c[..|a|] == c[..|b|][..|a|];
  }

  // ---------------------------------------------------------------------------
  // updateFromGame

  datatype Updated = Updated(r: Renderer, sfx: seq<Sfx>)

  /** `updateFromGame`: unless paused, scan the board, remember its keys,
      draw a mesh per locked triangle, and greet the first new key with the
      lock sound and a bounce; burst placement particles when fewer than 4
      keys are new; draw the falling piece unless paused; rebuild the
      preview and the grid lines, and leave the menu. */
  function UpdateFromGame(r: Renderer, g: Game, paused: bool, lives: seq<int>): (o: Updated)
    requires ValidGame(g) && ValidLives(lives)
    ensures o.r.boardW == g.w && o.r.boardH == g.h
    ensures |o.r.grid| == (g.h + 1) + (g.w + 1)
    ensures !o.r.menu.isMenu && o.r.menu.last == r.menu.last
    ensures o.r.star == r.star && o.r.lightshow == r.lightshow && o.r.lineClear == r.lineClear
    ensures o.r.lineClearActive == r.lineClearActive
    ensures paused || g.current.None? ==> o.r.active == []
    ensures !paused && g.current.Some? ==> o.r.active == ActiveMeshes(g.current.value)
    ensures o.r.next == PreviewOf(g.next)
    ensures o.sfx == [] || o.sfx == [LockSfx]
    ensures o.sfx == [] ==> o.r.bounce == r.bounce
    ensures o.sfx == [LockSfx] ==> o.r.bounce == Bounce(BounceMs, r.bounce.offset)
  {
    var hits := if paused then [] else Scan(g.grid, g.w, g.h);
    var newly := NewlyLocked(hits, r.prevLocked);
    var pool := if |newly| < 4 then Placements(r.particles, newly, g.w, g.h, lives) else r.particles;
    var anyNew := newly != [];
    var r1 := r.(boardW := g.w, boardH := g.h,
                 prevLocked := KeySet(hits),
                 board := Meshes(hits, 0, 0, false),
                 active := if !paused && g.current.Some? then ActiveMeshes(g.current.value) else [],
                 next := PreviewOf(g.next),
                 grid := GridLines(g.w, g.h),
                 particles := pool,
                 bounce := if anyNew then r.bounce.(time := BounceMs) else r.bounce,
                 menu := r.menu.(isMenu := false));
    Updated(r1, if anyNew then [LockSfx] else [])
  }

  /** Whether slot `k` holds a triangle of the board this frame reads. */
  predicate Occupied(g: Game, paused: bool, k: Key)
  {
    && !paused
    && InBoard(k, g.w, g.h)
    && SlotAt(g.grid, k.row, k.col, k.subRow, k.subCol).Some?
  }

  /** Afterwards the lock memory is exactly the set of occupied slots of
      this frame (empty when paused), at most four per cell. */
  lemma LockedSetReplaced(r: Renderer, g: Game, paused: bool, lives: seq<int>)
    requires ValidGame(g) && ValidLives(lives)
    ensures forall k :: k in UpdateFromGame(r, g, paused, lives).r.prevLocked <==> Occupied(g, paused, k)
    ensures |UpdateFromGame(r, g, paused, lives).r.prevLocked| <= 4 * g.w * g.h
  {
    ScanSpec(g.grid, g.w, g.h);
    LockedSetBound(g.grid, g.w, g.h);
    var hits := if paused then [] else Scan(g.grid, g.w, g.h);
    forall k ensures k in KeySet(hits) <==> Occupied(g, paused, k)
    {
      if Occupied(g, paused, k) {
        var t := SlotAt(g.grid, k.row, k.col, k.subRow, k.subCol).value;
        assert Hit(k, t.clr) in hits;
      }
    }
  }

  /** The board group holds one resting mesh per occupied slot, at the
      slot's own cell, in its colour, and nothing else. */
  lemma BoardMeshesPlaced(r: Renderer, g: Game, paused: bool, lives: seq<int>)
    requires ValidGame(g) && ValidLives(lives)
    ensures forall m :: m in UpdateFromGame(r, g, paused, lives).r.board <==>
      && !m.active
      && Occupied(g, paused, Key(m.row, m.col, m.subRow, m.subCol))
      && SlotAt(g.grid, m.row, m.col, m.subRow, m.subCol) == Some(Tri(m.clr))
    ensures |UpdateFromGame(r, g, paused, lives).r.board| == |UpdateFromGame(r, g, paused, lives).r.prevLocked|
  {
    ScanSpec(g.grid, g.w, g.h);
    var hits := if paused then [] else Scan(g.grid, g.w, g.h);
    var ms := Meshes(hits, 0, 0, false);
    forall m ensures m in ms <==>
      && !m.active
      && Occupied(g, paused, Key(m.row, m.col, m.subRow, m.subCol))
      && SlotAt(g.grid, m.row, m.col, m.subRow, m.subCol) == Some(Tri(m.clr))
    {
      if m in ms {
        var i :| 0 <= i < |ms| && ms[i] == m;
        assert hits[i] in hits;
      } else {
        var x := Hit(Key(m.row, m.col, m.subRow, m.subCol), m.clr);
        if x in hits {
          var i :| 0 <= i < |hits| && hits[i] == x;
          assert ms[i] in ms;
        }
      }
    }
    assert |KeySet(hits)| == |ms| by {
      OrderedKeyCount(hits);
    }
  }

  /** The lock sound plays, and the bounce restarts, exactly when some
      occupied slot was not in the lock memory; then it plays once. */
  lemma LockFeedback(r: Renderer, g: Game, paused: bool, lives: seq<int>)
    requires ValidGame(g) && ValidLives(lives)
    ensures var o := UpdateFromGame(r, g, paused, lives);
      (o.sfx == [LockSfx] <==> exists k :: Occupied(g, paused, k) && k !in r.prevLocked)
  {
    var hits := if paused then [] else Scan(g.grid, g.w, g.h);
    var newly := NewlyLocked(hits, r.prevLocked);
    LockedSetReplaced(r, g, paused, lives);
    NewlyLockedKeys(hits, r.prevLocked);
    if newly != [] {
      assert newly[0] in newly;
      assert newly[0].key in KeySet(hits);
    } else {
      forall k | Occupied(g, paused, k) ensures k in r.prevLocked {
        assert k in KeySet(hits);
        assert k !in KeySet(newly);
      }
    }
  }

  /** The number of newly locked triangles: occupied slots missing from the
      lock memory. */
  function NewCount(r: Renderer, g: Game, paused: bool): nat
  {
    |KeySet(if paused then [] else Scan(g.grid, g.w, g.h)) - r.prevLocked|
  }

  /** Placement effects: with fewer than 4 new triangles the pool grows by
      32 sparks and a ring for each of them, each new triangle having its
      ring at its cell's centre; with 4 or more (a whole piece dropped into
      view at once, or the board reappearing) nothing is spawned. */
  lemma PlacementBursts(r: Renderer, g: Game, paused: bool, lives: seq<int>)
    requires ValidGame(g) && ValidLives(lives)
    ensures var o := UpdateFromGame(r, g, paused, lives);
      var n := NewCount(r, g, paused);
      && (n < 4 ==> |o.r.particles| == |r.particles| + (SparksPerBurst + 1) * n)
      && (n < 4 ==> o.r.particles[..|r.particles|] == r.particles)
      && (n < 4 ==> forall k :: Occupied(g, paused, k) && k !in r.prevLocked ==>
            Particle(Ring, CenterX2(k.col, g.w), CenterY2(k.row, g.h),
                     Palette[SlotAt(g.grid, k.row, k.col, k.subRow, k.subCol).value.clr],
                     RingLifeMs, RingLifeMs) in o.r.particles)
      && (n >= 4 ==> o.r.particles == r.particles)
    ensures |NewHits(r, g, paused)| == NewCount(r, g, paused)
    ensures var o := UpdateFromGame(r, g, paused, lives);
      var n := NewCount(r, g, paused);
      n < 4 ==> forall i: nat, j: nat :: i < n && j <= SparksPerBurst ==>
        && |r.particles| + (SparksPerBurst + 1) * i + j < |o.r.particles|
        && o.r.particles[|r.particles| + (SparksPerBurst + 1) * i + j]
           == BurstParticle(NewHits(r, g, paused)[i], g.w, g.h, lives, j)
  {
    NewHitsCount(r, g, paused);
    if NewCount(r, g, paused) < 4 {
      forall i: nat, j: nat | i < NewCount(r, g, paused) && j <= SparksPerBurst
        ensures var ps := UpdateFromGame(r, g, paused, lives).r.particles;
          && |r.particles| + (SparksPerBurst + 1) * i + j < |ps|
          && ps[|r.particles| + (SparksPerBurst + 1) * i + j]
             == BurstParticle(NewHits(r, g, paused)[i], g.w, g.h, lives, j)
      {
        PlacementBurstAt(r, g, paused, lives, i, j);
      }
    }
    var hits := if paused then [] else Scan(g.grid, g.w, g.h);
    var newly := NewlyLocked(hits, r.prevLocked);
    assert |newly| == NewCount(r, g, paused) by {
      ScanSpec(g.grid, g.w, g.h);
      NewlyLockedOrdered(hits, r.prevLocked);
      OrderedKeyCount(newly);
      NewlyLockedKeys(hits, r.prevLocked);
    }
    if |newly| < 4 {
      PlacementRings(r.particles, newly, g.w, g.h, lives);
      forall k | Occupied(g, paused, k) && k !in r.prevLocked
        ensures Hit(k, SlotAt(g.grid, k.row, k.col, k.subRow, k.subCol).value.clr) in newly
      {
        ScanMembers(g.grid, g.w, g.h);
      }
    }
  }

  /** The triangles this frame treats as newly locked, in scan order. */
  function NewHits(r: Renderer, g: Game, paused: bool): seq<Hit>
  {
    NewlyLocked(if paused then [] else Scan(g.grid, g.w, g.h), r.prevLocked)
  }

  /** One newly locked hit per new key: the list is as long as the count
      of occupied slots missing from the lock memory. */
  lemma NewHitsCount(r: Renderer, g: Game, paused: bool)
    ensures |NewHits(r, g, paused)| == NewCount(r, g, paused)
  {
    var hits := if paused then [] else Scan(g.grid, g.w, g.h);
    var newly := NewlyLocked(hits, r.prevLocked);
    ScanSpec(g.grid, g.w, g.h);
    NewlyLockedOrdered(hits, r.prevLocked);
    OrderedKeyCount(newly);
    NewlyLockedKeys(hits, r.prevLocked);
  }

  /** Where each placement particle is: with fewer than 4 new triangles,
      block `i` of 33 appended particles belongs to the `i`-th newly locked
      triangle, an occupied slot missing from the lock memory, and holds
      its 32 sparks followed by its ring, at its cell centre in its colour. */
  lemma PlacementBurstAt(r: Renderer, g: Game, paused: bool, lives: seq<int>, i: nat, j: nat)
    requires ValidGame(g) && ValidLives(lives)
    requires NewCount(r, g, paused) < 4 && i < NewCount(r, g, paused) && j <= SparksPerBurst
    ensures |NewHits(r, g, paused)| == NewCount(r, g, paused)
    ensures FreshSlot(g, paused, r.prevLocked, NewHits(r, g, paused)[i])
    ensures var ps := UpdateFromGame(r, g, paused, lives).r.particles;
      var k := |r.particles| + (SparksPerBurst + 1) * i + j;
      k < |ps| && ps[k] == BurstParticle(NewHits(r, g, paused)[i], g.w, g.h, lives, j)
  {
    NewHitsCount(r, g, paused);
    NewHitSound(r, g, paused, i);
    BurstInPool(r, g, paused, lives, i, j);
  }

  /** Particle `j` of block `i` of the new particles is particle `j` of the
      `i`-th newly locked hit's burst. */
  lemma BurstInPool(r: Renderer, g: Game, paused: bool, lives: seq<int>, i: nat, j: nat)
    requires ValidGame(g) && ValidLives(lives)
    requires |NewHits(r, g, paused)| < 4 && i < |NewHits(r, g, paused)| && j <= SparksPerBurst
    ensures var ps := UpdateFromGame(r, g, paused, lives).r.particles;
      var k := |r.particles| + (SparksPerBurst + 1) * i + j;
      k < |ps| && ps[k] == BurstParticle(NewHits(r, g, paused)[i], g.w, g.h, lives, j)
  {
    UpdatePool(r, g, paused, lives);
    PlacementAt(r.particles, NewHits(r, g, paused), g.w, g.h, lives, i, j);
  }

  /** With fewer than 4 newly locked hits the pool gets their placement
      bursts. */
  lemma UpdatePool(r: Renderer, g: Game, paused: bool, lives: seq<int>)
    requires ValidGame(g) && ValidLives(lives)
    requires |NewHits(r, g, paused)| < 4
    ensures UpdateFromGame(r, g, paused, lives).r.particles
         == Placements(r.particles, NewHits(r, g, paused), g.w, g.h, lives)
  {
  }

  /** Hit `x` is an occupied slot of this frame, with that slot's colour,
      whose key is missing from the lock memory `prev`. */
  predicate FreshSlot(g: Game, paused: bool, prev: set<Key>, x: Hit)
  {
    && Occupied(g, paused, x.key) && x.key !in prev
    && SlotAt(g.grid, x.key.row, x.key.col, x.key.subRow, x.key.subCol) == Some(Tri(x.clr))
  }

  /** Each newly locked hit is an occupied slot, with that slot's colour,
      whose key was missing from the lock memory. */
  lemma NewHitSound(r: Renderer, g: Game, paused: bool, i: nat)
    requires i < |NewHits(r, g, paused)|
    ensures FreshSlot(g, paused, r.prevLocked, NewHits(r, g, paused)[i])
  {
    var newly := NewHits(r, g, paused);
    assert newly[i] in newly;
    ScanMembers(g.grid, g.w, g.h);
  }

  /** While paused nothing is drawn on the board, nothing is newly locked,
      no sound plays, no particle spawns, and the lock memory is cleared. */
  lemma PausedUpdateClears(r: Renderer, g: Game, lives: seq<int>)
    requires ValidGame(g) && ValidLives(lives)
    ensures var o := UpdateFromGame(r, g, true, lives);
      && o.r.board == [] && o.r.active == [] && o.r.prevLocked == {}
      && o.sfx == [] && o.r.particles == r.particles && o.r.bounce == r.bounce
  {
  }

  /** Redrawing an unchanged board is quiet: the second update finds no new
      key, so no sound, bounce or particle follows. */
  lemma SteadyBoardQuiet(r: Renderer, g: Game, lives: seq<int>)
    requires ValidGame(g) && ValidLives(lives)
    ensures var o1 := UpdateFromGame(r, g, false, lives);
      var o2 := UpdateFromGame(o1.r, g, false, lives);
      && o2.sfx == [] && o2.r.bounce == o1.r.bounce && o2.r.particles == o1.r.particles
      && o2.r.prevLocked == o1.r.prevLocked && o2.r.board == o1.r.board
  {
    var hits := Scan(g.grid, g.w, g.h);
    NothingNewTwice(hits, KeySet(hits));
  }

  /** Resuming re-announces the board: since a paused frame empties the
      lock memory, the first frame after it treats every locked triangle as
      new and plays the lock sound with a bounce, though nothing moved. */
  lemma ResumeRefiresLock(r: Renderer, g: Game, lives: seq<int>)
    requires ValidGame(g) && ValidLives(lives)
    requires Scan(g.grid, g.w, g.h) != []
    ensures var paused := UpdateFromGame(r, g, true, lives);
      var resumed := UpdateFromGame(paused.r, g, false, lives);
      && resumed.sfx == [LockSfx]
      && resumed.r.bounce.time == BounceMs
      && NewCount(paused.r, g, false) == |Scan(g.grid, g.w, g.h)|
  {
    var hits := Scan(g.grid, g.w, g.h);
    assert hits[0] in hits;
    assert NewlyLocked(hits, {}) == hits by {
      NewlyLockedAll(hits);
    }
    ScanSpec(g.grid, g.w, g.h);
    OrderedKeyCount(hits);
  }

  lemma {:induction false} NewlyLockedAll(hits: seq<Hit>)
    ensures NewlyLocked(hits, {}) == hits
    decreases |hits|
  {
    if hits != [] {
      NewlyLockedAll(hits[1..]);
    }
  }

  // ---------------------------------------------------------------------------
  // triggerLineClear, triggerLightshow and the per-frame latch

  /** The detune of the line-clear sound: -400 for one row, -700 for two,
      and no sound for more. */
  function LineClearSounds(rows: seq<int>): (s: seq<Sfx>)
    ensures |s| <= 1
    ensures forall e :: e in s ==> e.LineClearSfx?
    ensures forall d :: LineClearSfx(d) in s <==> (|rows| == 1 && d == -400) || (|rows| == 2 && d == -700)
  {
    if |rows| == 1 then [LineClearSfx(-400)]
    else if |rows| == 2 then [LineClearSfx(-700)]
    else []
  }

  /** `triggerLineClear`: the sound, a beam per row, the star pulse with
      the spin reversed, and a row of sparks along each cleared row. */
  function TriggerLineClear(r: Renderer, rows: seq<int>, lives: seq<int>): (o: Updated)
    requires ValidLives(lives)
    ensures o.r.lineClear.beams == rows && o.r.lineClear.elapsed == 0 && o.r.lineClear.time == LineClearMs
    ensures o.r.star.rotDir == -r.star.rotDir
    ensures o.r.star.speedTime == StarPulseMs && o.r.star.speedElapsed == 0
    ensures |o.r.particles| == |r.particles| + SparksPerBurst * r.boardW * |rows|
    ensures o.r.particles[..|r.particles|] == r.particles
    ensures o.r.(lineClear := r.lineClear, star := r.star, particles := r.particles) == r
  {
    Updated(r.(lineClear := StartLineClear(rows),
               star := PulseStars(r.star),
               particles := LineSparks(r.particles, rows, r.boardW, r.boardH, lives)),
            LineClearSounds(rows))
  }

  datatype Latched = Latched(r: Renderer, game: Game, sfx: seq<Sfx>)

  /** The top of `renderThreeFromGame`: a pending tritris starts a lightshow
      (with its sound) and is consumed; a non-empty list of clearing rows
      starts the line-clear effect unless one is already latched; the latch
      follows whether rows are clearing. */
  function Latch(r: Renderer, g: Game, lives: seq<int>): (o: Latched)
    requires ValidLives(lives)
    ensures !o.game.tritrisJustHappened && o.game == g.(tritrisJustHappened := false)
    ensures o.r.lineClearActive <==> |g.animatingLines| > 0
    ensures (LightshowSfx in o.sfx) <==> g.tritrisJustHappened
    ensures g.tritrisJustHappened ==> |o.sfx| > 0 && o.sfx[0] == LightshowSfx && LightshowSfx !in o.sfx[1..]
    ensures g.tritrisJustHappened ==> o.r.lightshow == Lightshow(true, LightshowMs, 0)
    ensures !g.tritrisJustHappened ==> o.r.lightshow == r.lightshow
    ensures o.r.board == r.board && o.r.prevLocked == r.prevLocked && o.r.bounce == r.bounce
  {
    var r1 := if g.tritrisJustHappened then r.(lightshow := FreshLightshow) else r;
    var s1 := if g.tritrisJustHappened then [LightshowSfx] else [];
    var g1 := g.(tritrisJustHappened := false);
    if |g.animatingLines| > 0 && !r1.lineClearActive then
      var t := TriggerLineClear(r1, g.animatingLines, lives);
      Latched(t.r.(lineClearActive := true), g1, s1 + t.sfx)
    else if r1.lineClearActive && |g.animatingLines| == 0 then
      Latched(r1.(lineClearActive := false), g1, s1)
    else Latched(r1, g1, s1)
  }

  /** The line clear fires exactly on the first frame of a run of frames
      with rows clearing: then the beams start, the stars pulse and turn
      round, and the sound matches the row count; on every other frame
      these are untouched and no line-clear sound plays. */
  lemma LatchFiresOnRisingEdge(r: Renderer, g: Game, lives: seq<int>)
    requires ValidLives(lives)
    ensures var o := Latch(r, g, lives);
      var fires := |g.animatingLines| > 0 && !r.lineClearActive;
      && (fires ==> o.r.lineClear == StartLineClear(g.animatingLines)
                    && o.r.star == Star(StarPulseMs, 0, -r.star.rotDir)
                    && |o.r.particles| == |r.particles| + SparksPerBurst * r.boardW * |g.animatingLines|)
      && (!fires ==> o.r.lineClear == r.lineClear && o.r.star == r.star && o.r.particles == r.particles)
      && (forall d :: LineClearSfx(d) in o.sfx <==>
            fires && ((|g.animatingLines| == 1 && d == -400) || (|g.animatingLines| == 2 && d == -700)))
  {
  }

  // ---------------------------------------------------------------------------
  // The latch over a run of frames

  /** Which frames fire the line clear, given the latch before the first
      frame and whether rows are clearing on each frame. */
  function LatchTrace(active: bool, clearing: seq<bool>): (fired: seq<bool>)
    ensures |fired| == |clearing|
    decreases |clearing|
  {
    if clearing == [] then []
    else [clearing[0] && !active] + LatchTrace(clearing[0], clearing[1..])
  }

  /** A frame fires exactly when rows are clearing on it and were not on
      the frame before (or, for the first frame, the latch was off). */
  lemma {:induction false} LatchTraceEdge(active: bool, clearing: seq<bool>, i: nat)
    requires i < |clearing|
    ensures LatchTrace(active, clearing)[i] <==> clearing[i] && !(if i == 0 then active else clearing[i - 1])
    decreases i
  {
    if i > 0 {
      var rest := clearing[1..];
      LatchTraceEdge(clearing[0], rest, i - 1);
      assert rest[i - 1] == clearing[i];
      if i > 1 {
        assert rest[i - 2] == clearing[i - 1];
      }
    }
  }

  /** Once per episode: between any two frames that fire there is a frame
      on which no rows were clearing. */
  lemma OncePerEpisode(active: bool, clearing: seq<bool>, i: nat, j: nat)
    requires i < j < |clearing|
    requires LatchTrace(active, clearing)[i] && LatchTrace(active, clearing)[j]
    ensures exists k :: i < k < j && !clearing[k]
  {
    LatchTraceEdge(active, clearing, i);
    LatchTraceEdge(active, clearing, j);
    assert !clearing[j - 1];
  }

  /** And every episode is announced: the first frame of a run of clearing
      frames fires. */
  lemma EpisodeStartFires(active: bool, clearing: seq<bool>, i: nat)
    requires i < |clearing| && clearing[i]
    requires if i == 0 then !active else !clearing[i - 1]
    ensures LatchTrace(active, clearing)[i]
  {
    LatchTraceEdge(active, clearing, i);
  }

  // ---------------------------------------------------------------------------
  // render and the frame

  /** The bookkeeping of `render`: the star pulse, the particle pass, the
      lightshow sweep, the line-clear beams and the board bounce each move
      by one frame; the groups are left as they are. */
  function Render(r: Renderer): (s: Renderer)
    ensures s.(star := r.star, particles := r.particles, lightshow := r.lightshow,
               lineClear := r.lineClear, bounce := r.bounce) == r
    ensures AllAlive(s.particles) && |s.particles| <= |r.particles|
    ensures s.star.rotDir == r.star.rotDir
    ensures r.bounce.time <= 0 ==> s.bounce.offset == Resting
    ensures !r.lightshow.plane ==> s.lightshow == r.lightshow
    ensures |r.lineClear.beams| == 0 ==> s.lineClear == r.lineClear
  {
    r.(star := AdvanceStars(r.star),
       particles := Advance(r.particles, FrameMs),
       lightshow := AdvanceLightshow(r.lightshow),
       lineClear := AdvanceLineClear(r.lineClear),
       bounce := AdvanceBounce(r.bounce))
  }

  datatype FrameOut = FrameOut(r: Renderer, game: Game, sfx: seq<Sfx>)

  /** `renderThreeFromGame`: the latch, then `updateFromGame`, then `render`. */
  function Frame(r: Renderer, g: Game, paused: bool, lives: seq<int>): (o: FrameOut)
    requires ValidGame(g) && ValidLives(lives)
    ensures !o.game.tritrisJustHappened
    ensures o.r.lineClearActive <==> |g.animatingLines| > 0
    ensures (LightshowSfx in o.sfx) <==> g.tritrisJustHappened
    ensures g.tritrisJustHappened ==> o.r.lightshow == Lightshow(true, LightshowMs, FrameMs)
    ensures o.r.star.rotDir ==
      (if |g.animatingLines| > 0 && !r.lineClearActive then -r.star.rotDir else r.star.rotDir)
  {
    var l := Latch(r, g, lives);
    var u := UpdateFromGame(l.r, l.game, paused, lives);
    FrameOut(Render(u.r), l.game, l.sfx + u.sfx)
  }

  /** A frame keeps the invariant: the spin stays a sign (it only turns on
      a line clear), the clocks stay in range, dead particles are gone, and
      the lock memory fits the new board. */
  lemma FrameKeepsInv(r: Renderer, g: Game, paused: bool, lives: seq<int>)
    requires ValidGame(g) && ValidLives(lives)
    requires Inv(r)
    ensures Inv(Frame(r, g, paused, lives).r)
  {
    var l := Latch(r, g, lives);
    LatchKeepsInv(r, g, lives);
    var u := UpdateFromGame(l.r, l.game, paused, lives);
    UpdateKeepsInv(l.r, l.game, paused, lives);
    RenderKeepsInv(u.r);
  }

  lemma LatchKeepsInv(r: Renderer, g: Game, lives: seq<int>)
    requires ValidLives(lives) && Inv(r)
    ensures Inv(Latch(r, g, lives).r)
  {
  }

  lemma UpdateKeepsInv(r: Renderer, g: Game, paused: bool, lives: seq<int>)
    requires ValidGame(g) && ValidLives(lives) && Inv(r)
    ensures Inv(UpdateFromGame(r, g, paused, lives).r)
  {
    LockedSetReplaced(r, g, paused, lives);
    PlacementAlive(r, g, paused, lives);
  }

  lemma RenderKeepsInv(r: Renderer)
    requires Inv(r)
    ensures Inv(Render(r))
  {
  }

  lemma PlacementAlive(r: Renderer, g: Game, paused: bool, lives: seq<int>)
    requires ValidGame(g) && ValidLives(lives)
    requires AllAlive(r.particles)
    ensures AllAlive(UpdateFromGame(r, g, paused, lives).r.particles)
  {
  }

  /** What one call of `renderThreeFromGame` receives: the game snapshot,
      the pause flag of that frame, and the spark lifetimes drawn for it. */
  datatype Tick = Tick(game: Game, paused: bool, lives: seq<int>)

  /** A tick whose snapshot `_updateNextPiece` can read and whose
      lifetimes are in the spark band. */
  type FrameInput = t: Tick | ValidGame(t.game) && ValidLives(t.lives)
    witness Tick(Game(0, 0, [], None, None, false, []), false, seq(SparksPerBurst, k => SparkLifeMinMs))

  /** The renderer after each frame of a run; every frame has its own
      snapshot, pause flag and lifetimes. */
  function Run(r: Renderer, ts: seq<FrameInput>): (rs: seq<Renderer>)
    ensures |rs| == |ts|
  {
    Trace(FrameStep, r, ts)
  }

  /** One frame as a step function on renderers. */
  function FrameStep(s: Renderer, t: FrameInput): Renderer
  {
    Frame(s, t.game, t.paused, t.lives).r
  }

  /** One frame's effect on the latch and the spin: the latch follows
      whether rows are clearing, and the stars turn round when they start
      to. */
  predicate SpinStep(prev: Renderer, s: Renderer, clearing: bool)
  {
    && (s.lineClearActive <==> clearing)
    && s.star.rotDir == (if clearing && !prev.lineClearActive then -prev.star.rotDir else prev.star.rotDir)
  }

  /** The renderer a run's frame `i` starts from. */
  function StartOf(r: Renderer, rs: seq<Renderer>, i: nat): Renderer
    requires i <= |rs|
  {
    if i == 0 then r else rs[i - 1]
  }

  /** Frame `i` of a run starts from what frame `i - 1` left. */
  lemma RunAt(r: Renderer, ts: seq<FrameInput>, i: nat)
    requires i < |ts|
    ensures SpinStep(StartOf(r, Run(r, ts), i), Run(r, ts)[i], |ts[i].game.animatingLines| > 0)
  {
    var rs := Run(r, ts);
    TraceAt(FrameStep, r, ts, i);
    StepSpin(StartOf(r, rs, i), ts[i]);
  }

  /** The line-clear flag and the spin after one step, whatever the pause
      flag and the lifetimes of that frame. */
  lemma StepSpin(prev: Renderer, t: FrameInput)
    ensures SpinStep(prev, FrameStep(prev, t), |t.game.animatingLines| > 0)
  {
  }

  /** `rs` is a sequence of spin steps from `r` on the flags `clearing`. */
  predicate Spins(r: Renderer, rs: seq<Renderer>, clearing: seq<bool>)
  {
    && |clearing| == |rs|
    && forall k :: 0 <= k < |rs| ==> SpinStep(StartOf(r, rs, k), rs[k], clearing[k])
  }

  /** In any sequence of renderers that took spin steps, the stars turn
      round exactly on the frames `LatchTrace` marks. */
  lemma TurnsOnEdges(r: Renderer, rs: seq<Renderer>, clearing: seq<bool>, i: nat)
    requires Spins(r, rs, clearing) && i < |rs|
    ensures rs[i].star.rotDir ==
      (if LatchTrace(r.lineClearActive, clearing)[i] then -StartOf(r, rs, i).star.rotDir
       else StartOf(r, rs, i).star.rotDir)
  {
    assert SpinStep(StartOf(r, rs, i), rs[i], clearing[i]);
    if i > 0 {
      assert SpinStep(StartOf(r, rs, i - 1), rs[i - 1], clearing[i - 1]);
    }
    LatchTraceEdge(r.lineClearActive, clearing, i);
  }

  /** Whether rows are clearing on each snapshot of a run. */
  function ClearingFlags(ts: seq<FrameInput>): (c: seq<bool>)
    ensures |c| == |ts|
    ensures forall j :: 0 <= j < |ts| ==> (c[j] <==> |ts[j].game.animatingLines| > 0)
  {
    seq(|ts|, j requires 0 <= j < |ts| => |ts[j].game.animatingLines| > 0)
  }

  /** Over a run of frames the stars turn round exactly on the frames
      `LatchTrace` marks for the run's clearing flags, which are the
      starts of line-clear episodes. */
  lemma RunTurnsOnEdges(r: Renderer, ts: seq<FrameInput>, i: nat)
    requires i < |ts|
    ensures var rs := Run(r, ts);
      rs[i].star.rotDir ==
        (if LatchTrace(r.lineClearActive, ClearingFlags(ts))[i] then -StartOf(r, rs, i).star.rotDir
         else StartOf(r, rs, i).star.rotDir)
  {
    RunSpins(r, ts);
    TurnsOnEdges(r, Run(r, ts), ClearingFlags(ts), i);
  }

  /** Every frame of a run is a spin step on the run's clearing flags. */
  lemma RunSpins(r: Renderer, ts: seq<FrameInput>)
    ensures Spins(r, Run(r, ts), ClearingFlags(ts))
  {
    forall k | 0 <= k < |ts|
      ensures SpinStep(StartOf(r, Run(r, ts), k), Run(r, ts)[k], ClearingFlags(ts)[k])
    {
      RunSpin(r, ts, k);
    }
  }

  /** `RunAt` with the clearing flag read from the run's flag sequence. */
  lemma RunSpin(r: Renderer, ts: seq<FrameInput>, i: nat)
    requires i < |ts|
    ensures SpinStep(StartOf(r, Run(r, ts), i), Run(r, ts)[i], ClearingFlags(ts)[i])
  {
    RunAt(r, ts, i);
  }

  // ---------------------------------------------------------------------------
  // The menu frame

  /** `renderThreeMenu`: draw the grid lines if the grid group is empty,
      show the menu (on a rebuild the preview and the falling piece are
      cleared), then `render`. The selected level is a parameter. */
  function MenuFrame(r: Renderer, k: MenuKey): (s: Renderer)
    ensures s.menu == Menu(true, k)
    ensures |s.grid| > 0
    ensures ShowMenu(r.menu, k).rebuilt ==> s.active == [] && s.next == NoPreview
    ensures !ShowMenu(r.menu, k).rebuilt ==> s.active == r.active && s.next == r.next
    ensures s.board == r.board && s.prevLocked == r.prevLocked
  {
    var r1 := if |r.grid| == 0 then r.(grid := GridLines(r.boardW, r.boardH)) else r;
    var m := ShowMenu(r1.menu, k);
    var r2 := if m.rebuilt then r1.(menu := m.menu, active := [], next := NoPreview) else r1.(menu := m.menu);
    Render(r2)
  }

  /** The menu frame keeps the invariant. */
  lemma MenuFrameKeepsInv(r: Renderer, k: MenuKey)
    requires Inv(r)
    ensures Inv(MenuFrame(r, k))
  {
    var r1 := if |r.grid| == 0 then r.(grid := GridLines(r.boardW, r.boardH)) else r;
    var m := ShowMenu(r1.menu, k);
    var r2 := if m.rebuilt then r1.(menu := m.menu, active := [], next := NoPreview) else r1.(menu := m.menu);
    assert Inv(r2);
    RenderKeepsInv(r2);
  }

  /** Leaving a game frame for the menu always rebuilds it, since every game
      frame marks the menu as gone; a second menu frame with the same
      values does not. */
  lemma MenuAfterGameRebuilds(r: Renderer, g: Game, paused: bool, lives: seq<int>, k: MenuKey)
    requires ValidGame(g) && ValidLives(lives)
    ensures ShowMenu(Frame(r, g, paused, lives).r.menu, k).rebuilt
    ensures !ShowMenu(MenuFrame(Frame(r, g, paused, lives).r, k).menu, k).rebuilt
  {
  }
}
