# Tritris 3D renderer bookkeeping, modelled in Dafny

`tritris3d.js` is a Three.js renderer for Tritris, a falling-blocks game played
with triangles. Each frame it reads a snapshot of the game and rebuilds the
scene from it:
- the locked board, where every cell is split into four quadrant triangles;
- the falling piece;
- the next-piece preview;
- the grid lines;
- the menu.

Besides drawing, it keeps a small amount of state:
- **Lock memory.** The set of triangle keys locked last frame (`prevLocked`).
  Triangles that are new relative to it get a lock sound, a board bounce and
  particle bursts.
- **Line-clear latch.** A latch (`lineClearActive`) makes a line clear fire
  once per clearing episode.
- **Timed effects.** The bounce, the rainbow lightshow, the line-clear beams
  and the star-speed pulse.
- **Particle pool.** A pool of sparks and shockwave rings that expire.
- **Geometry cache.** A memo of the four quadrant prisms.

The model replaces every Three.js object with a plain record.
- A scene group becomes a sequence of mesh records.
- Sounds become events in a returned trace.
- Time is integer milliseconds with a fixed 16 ms frame.
- World positions are in half-cell units:
  - x2 = 2·col − w + 1;
  - y2 = h − 2·row − 1;
  - row 0 is at the top.

Modules:
- `Board`: the grid, triangle keys, and the row/col/subRow/subCol scan.
- `Differ`: newly locked keys, and the loop that finds them.
- `Particles`: spawning and the per-frame particle pass.
- `Effects`: the frame clock, the bounce, the lightshow, the line-clear beams and the star pulse.
- `Geometry`: the symbolic prism cache.
- `Pieces`: falling-piece meshes and the centred preview.
- `Overlay`: the "Tri %" statistic, the grid lines and the menu rebuild check.
- `Renderer`: the state record, `updateFromGame`, `triggerLineClear`, the frame latch, `render`, and runs of frames.

Where the code and the documented intent differ, the model follows the code:
- **Pause.** A paused frame clears the board and falling-piece groups and empties the lock memory; the previous visuals do not persist. `Renderer.PausedUpdateClears` states this, and `Renderer.ResumeRefiresLock` shows its consequence: on resume the whole board counts as newly locked.
- **Grid lines.** They are rebuilt on every update, not only when the board size changes.
- **Prism size.** A prism has 8 triangles, not the 12 its comment announces.

## Model

| member | source | states |
|---|---|---|
| Board.ScanSpec | tritris3d.js:609-622 | A hit is in the board scan iff its key lies on the w×h board in a quadrant and that slot holds a triangle of the hit's colour. The scan is strictly ordered by (row, col, subRow, subCol), and it has at most 4·w·h hits. |
| Board.LockedSetBound | tritris3d.js:610-622 | The set of keys of one scan has at most four keys per cell. |
| Board.WorldMapping | tritris3d.js:650-651 | Cell centres step by one cell per row and column. Row 0 is at the top. The mapping is symmetric about the board centre, and every centre lies strictly inside the board. |
| Differ.NewlyLocked | tritris3d.js:624-625 | A hit is newly locked iff it is in the scan and its key is not in the lock memory. There are never more newly locked hits than scanned ones. |
| Differ.NewlyLockedOrdered | tritris3d.js:610-625 | Newly locked hits keep the scan order. |
| Differ.NewlyLockedKeys | tritris3d.js:622-625 | The keys of the newly locked hits are the scanned keys minus the lock memory. |
| Differ.NewlyLockedConcat | tritris3d.js:624-625 | Filtering a concatenation gives the concatenation of the filtered parts. |
| Differ.NothingNewTwice | tritris3d.js:624-625 | Once the memory covers every scanned key, nothing is newly locked. |
| Differ.DiffLocked | tritris3d.js:597-631 | The scan loop as written builds exactly the scanned key set and the newly locked list. It fires the lock event at most once, and fires it iff some key is new. |
| Particles.SpawnParticles | tritris3d.js:891-927 | Appends exactly 32 streaks at the origin in the given colour, each with a lifetime in [400, 700) ms that equals its start lifetime. The old pool is kept as a prefix. |
| Particles.SpawnShockwave | tritris3d.js:930-949 | Appends one ring at the origin with a 500 ms life and start life. The old pool is kept as a prefix. |
| Particles.Advance | tritris3d.js:1141-1151 | After the particle pass every particle has life left, and the pool did not grow. |
| Particles.AdvanceMembers | tritris3d.js:1141-1151 | The survivors are exactly the particles that had more than dt left, each with dt taken off. |
| Particles.AdvanceConcat | tritris3d.js:1141-1151 | The pass acts piecewise on the pool, so survivors keep their relative order. |
| Particles.AdvanceInPlace | tritris3d.js:1141-1151 | The backward loop with in-place splicing yields the same pool as the functional pass. |
| Particles.LoneParticleLifetime | tritris3d.js:1141-1151 | A particle with life L is present after n frames, with 16·n ms taken off, iff 16·n < L. |
| Particles.PoolDrains | tritris3d.js:1141-1151 | Without new spawns the pool is empty once 16·n reaches every life in it. |
| Particles.RingFrames | tritris3d.js:945-946 | A shockwave ring is drawn for 31 frames and is gone after the 32nd. |
| Effects.AdvanceBounce | tritris3d.js:1226-1244 | A positive countdown drops by one frame and moves the groups along the bounce arc; on frames 1 to 9 that arc, sin(πt)·(−0.70), is a dip below rest. A countdown at or below zero leaves the groups at offset 0. |
| Effects.BounceCountdown | tritris3d.js:1226-1228 | A countdown t stays positive after n frames iff 16·n < t, and until then it equals t − 16·n. |
| Effects.BounceLastsTenFrames | tritris3d.js:1095-1097 | A bounce started at any moment, even during another, moves the board for exactly ten frames. Bounces restart and never stack. |
| Effects.AdvanceLightshow | tritris3d.js:1174-1197 | A running sweep gains a frame of elapsed time. Its plane is removed, and its clock reset to 0, once elapsed reaches the duration. Otherwise nothing changes. |
| Effects.LightshowRuns | tritris3d.js:1174-1197 | The plane is still present after n frames iff elapsed + 16·n < duration. Once it is gone its clock is 0. |
| Effects.LightshowLasts25Frames | tritris3d.js:1006-1011 | A triggered lightshow is drawn for 24 frames and removed on the 25th. |
| Effects.AdvanceLineClear | tritris3d.js:1201-1222 | While beams exist their clock moves. All beams are dropped together once elapsed reaches the duration. |
| Effects.LineClearRuns | tritris3d.js:1201-1222 | The beams survive n frames iff elapsed + 16·n < duration, and are then the empty list. |
| Effects.LineClearLasts10Frames | tritris3d.js:1030-1032 | Line-clear beams are drawn for 9 frames and removed on the 10th. |
| Effects.AdvanceStars | tritris3d.js:1101-1111 | A running pulse gains a frame of elapsed time and ends when elapsed reaches its duration. The spin direction is untouched. |
| Effects.StarPulseRuns | tritris3d.js:1101-1111 | A pulse stays boosted after n frames iff elapsed + 16·n < duration. |
| Effects.StarPulseLasts125Frames | tritris3d.js:1033-1034 | The star speed pulse of a line clear lasts 125 frames. |
| Geometry.GetTriangleGeometry | tritris3d.js:384-390 | A cached entry is returned as is. With a coherent cache there is no geometry iff the quadrant is unknown; otherwise the result is that quadrant's prism. The cache gains exactly the valid key, keeps its old entries, and stays coherent. |
| Geometry.LookupTwice | tritris3d.js:385-386 | A repeated lookup returns the same geometry and leaves the cache unchanged. |
| Geometry.CacheHoldsAtMostFour | tritris3d.js:375-380 | A coherent cache holds only the four quadrant keys. |
| Geometry.PrismShape | tritris3d.js:423-437 | A prism is 8 triangles: the front face, the back face reversed, and two triangles per side that span exactly that side's four vertices. |
| Geometry.QuadrantShapes | tritris3d.js:370-379 | Exactly the four quadrants have a shape. Each is three distinct corners with the right angle at its own corner, it omits the opposite corner, and all four share one winding. |
| Pieces.ActiveMeshesPlaced | tritris3d.js:662-690 | A falling-piece mesh exists iff the piece's local slot is occupied. It is drawn at that slot plus the piece offset, in its colour, with the active material. |
| Pieces.BoundingBox | tritris3d.js:703-727 | The box exists iff some cell is occupied. It contains every occupied cell, and each of its four edges is attained by one. |
| Pieces.CentredOffsets | tritris3d.js:785-786 | Every preview offset lies within half the box on either side. The extreme columns (rows) sit at offsets that are negatives of each other. |
| Pieces.PreviewCentred | tritris3d.js:696-730 | No next piece, or one without triangles, shows nothing. Otherwise the box is at least one cell each way and the preview is centred on it. |
| Overlay.TriPercent | tritris3d.js:537-540 | 0 when no line was cleared. Otherwise the integer p with 2l·p ≤ 600a + l < 2l·(p+1). |
| Overlay.TriPercentRounds | tritris3d.js:537-540 | The statistic is round-half-up of the real value 300a/l. |
| Overlay.TriPercentExamples | tritris3d.js:537-540 | No lines gives 0, and 2 triple clears in 10 lines give 60. |
| Overlay.GridLines | tritris3d.js:842-862 | There are (h+1) horizontal then (w+1) vertical lines, top to bottom and left to right, spaced one cell apart. |
| Overlay.GridLinesFrameBoard | tritris3d.js:842-862 | The outermost lines are the board's four edges, and every line lies on or inside the board outline. |
| Overlay.GridLinesSeparateCells | tritris3d.js:842-862 | Every cell centre has a line half a cell above, below, left and right of it. |
| Overlay.ShowMenu | tritris3d.js:199-211 | The menu is rebuilt unless it is already shown with the same level, selection, spin and sound values. Afterwards it is shown with the new values. |
| Overlay.ShowMenuIdempotent | tritris3d.js:316-320 | Showing the menu twice with the same values draws it once. |
| Renderer.InitialInv | tritris3d.js:136-144 | The constructor's state satisfies the renderer invariant. |
| Renderer.Placements | tritris3d.js:648-657 | The placement burst adds 33 particles per newly locked triangle and keeps the old pool as a prefix. |
| Renderer.PlacementAt | tritris3d.js:648-657 | The placement particles come in blocks of 33, one per newly locked triangle in order. Block i holds the triangle's 32 streaks, with the burst's lifetimes in order, and then its 500 ms ring. All 33 sit at the centre of its cell, in its palette colour. |
| Renderer.PlacementRings | tritris3d.js:649-656 | Each newly locked triangle gets a ring at its cell's centre, in its palette colour. |
| Renderer.RowSparks | tritris3d.js:1087-1090 | One cleared row adds 32 sparks per column and keeps the old pool as a prefix. |
| Renderer.RowSparksPlaced | tritris3d.js:1087-1090 | Every spark a cleared row adds is a streak in the beam colour 0x88ccff, at that row's height and strictly within the board's width. |
| Renderer.LineSparks | tritris3d.js:1038-1091 | A line clear adds 32·w sparks per cleared row and keeps the old pool as a prefix. |
| Renderer.UpdateFromGame | tritris3d.js:595-694 | The falling piece is drawn unless paused, and the preview is rebuilt. The grid has (h+1)+(w+1) lines, and the menu is marked gone. The effects' clocks are untouched. At most one lock sound plays; when it does, the bounce restarts. |
| Renderer.LockedSetReplaced | tritris3d.js:658 | Afterwards the lock memory is exactly this frame's occupied slots (none when paused), and it has at most 4·w·h keys. |
| Renderer.BoardMeshesPlaced | tritris3d.js:609-641 | The board group holds exactly one resting mesh per occupied slot, at that slot, in its colour. It has as many meshes as the lock memory has keys, so no slot is drawn twice. |
| Renderer.LockFeedback | tritris3d.js:624-629 | The lock sound plays iff some occupied slot was missing from the lock memory. |
| Renderer.PlacementBursts | tritris3d.js:648-657 | With n < 4 new triangles the pool grows by 33·n and every new triangle gets its ring. Block i of the new particles is the i-th new triangle's 32 streaks and ring at its cell centre, in its colour. With 4 or more the pool is unchanged. |
| Renderer.NewHitsCount | tritris3d.js:622-625 | The newly locked list has one entry per occupied slot missing from the lock memory. |
| Renderer.NewHitSound | tritris3d.js:622-625 | Every newly locked hit is an occupied slot, with that slot's colour, whose key was not in the lock memory. |
| Renderer.BurstInPool | tritris3d.js:648-657 | With fewer than 4 newly locked hits, particle j of block i of the new particles is particle j of the i-th hit's burst. |
| Renderer.PlacementBurstAt | tritris3d.js:622-657 | With n < 4, the i-th newly locked hit is an occupied slot that was missing from the lock memory, with that slot's colour. Particle j of block i is its streak j (j < 32) or its ring (j = 32). |
| Renderer.PausedUpdateClears | tritris3d.js:603-609 | While paused: no board or piece meshes, an empty lock memory, no sound, no new particles, and no bounce. |
| Renderer.SteadyBoardQuiet | tritris3d.js:622-631 | Updating twice with the same board is quiet the second time: no sound, bounce or particles. |
| Renderer.ResumeRefiresLock | tritris3d.js:603-629 | After a paused frame, the first unpaused frame treats the whole board as newly locked. |
| Renderer.LineClearSounds | tritris3d.js:1028-1029 | A line-clear sound detuned by −400 plays for one row and by −700 for two; none plays otherwise. At most one sound plays, and it is a line-clear sound. |
| Renderer.TriggerLineClear | tritris3d.js:1027-1092 | Starts one beam per row with a fresh clock, and starts a star pulse with the spin reversed. Adds 32·w sparks per row and changes nothing else. |
| Renderer.Latch | tritris3d.js:24-37 | The tritris flag is consumed: it yields a fresh lightshow and exactly one lightshow sound, played first. Without it no lightshow sound plays. Afterwards the latch is on iff rows are clearing. |
| Renderer.LatchFiresOnRisingEdge | tritris3d.js:29-32 | The line clear fires iff rows are clearing and the latch was off. Otherwise the beams, stars, particles and line-clear sound are untouched. |
| Renderer.LatchTraceEdge | tritris3d.js:28-37 | Over a run of frames, a frame fires iff rows are clearing on it but were not on the frame before. |
| Renderer.OncePerEpisode | tritris3d.js:28-37 | Between any two firings there is a frame with no rows clearing. |
| Renderer.EpisodeStartFires | tritris3d.js:28-32 | The first frame of every clearing episode fires. |
| Renderer.Render | tritris3d.js:1100-1244 | One frame moves only the effect clocks and the particle pool. Particles are all alive and the pool does not grow. A bounce at rest keeps offset 0. |
| Renderer.Frame | tritris3d.js:21-42 | After a frame the tritris flag is cleared, and the latch is on iff rows are clearing. The lightshow sound plays iff a tritris happened. The spin turns only when the line clear fires. |
| Renderer.FrameKeepsInv | tritris3d.js:1035 | A frame keeps the invariant: the spin direction stays in {1, −1}, the clocks stay in range, all particles are alive, and the lock memory fits the board. |
| Renderer.RunAt | tritris3d.js:21-42 | Each frame of a run gets its own snapshot, pause flag and spark lifetimes. Frame i starts from what frame i−1 left (the initial renderer for frame 0). Afterwards the latch is on iff rows are clearing in snapshot i, and the spin is reversed iff rows are clearing and the latch was off, whatever that frame's pause flag. |
| Renderer.RunSpins | tritris3d.js:21-42 | Every frame of a run takes such a step on the run's clearing flags. |
| Renderer.TurnsOnEdges | tritris3d.js:28-37 | In any sequence of frames taking such steps, the spin is reversed exactly on the frames `LatchTrace` marks. |
| Renderer.RunTurnsOnEdges | tritris3d.js:1035 | Over any run of frames, pausing and resuming as it likes and with fresh lifetimes each frame, the stars turn round exactly on the frames that start a line-clear episode: the firings of `LatchTrace` for the snapshots' clearing flags. |
| Renderer.MenuFrame | tritris3d.js:45-57 | A menu frame shows the menu with the given values and ensures grid lines exist. A rebuild clears the preview and the falling piece; otherwise they are kept. |
| Renderer.MenuFrameKeepsInv | tritris3d.js:45-57 | A menu frame keeps the renderer invariant. |
| Renderer.MenuAfterGameRebuilds | tritris3d.js:596 | The first menu frame after a game frame always rebuilds the menu. A second one with the same values does not. |

## Left out

- Three.js objects (scenes, cameras, lights, materials, buffer geometry, normals, shaders, `dispose`) are abstract: groups are sequences of mesh records and a prism is a list of symbolic triangles.
- Floating-point visuals are not modelled: the bounce sine, shader uniforms, fades, colours, opacities, particle velocity, damping and drift, the grid pulse, and the preview spin driven by `performance.now()`.
- The random starfield and its rotation are not modelled; only the star pulse clock and the spin sign are.
- Random values are parameters or are dropped:
  - the lock sound's random pitch is dropped;
  - spark lifetimes are supplied by the caller as 32 values in [400, 700) ms.
- Particles.SpawnParticles: within one frame, one supplied list of 32 lifetimes is reused for every burst, where the code draws fresh random lifetimes per spark; only the range of each lifetime is kept. A run of frames supplies a new list for each frame.
- Time is exact integer milliseconds, not accumulated floating-point seconds. The elapsed sums restart from 0 on every trigger, and in doubles 25 additions of 0.016 give 0.40000000000000024 and 125 give 2.0000000000000013. Both reach their duration on the same frames as the integer model: the lightshow on the 25th, the star pulse on the 125th.
- Overlay.TriPercent: rounds the exact value of 300a/l. The code computes `3 * a / l * 100` in doubles first, which can put a half-way case just below .5, so it is rounded down. For a = 23, l = 120 the double is 57.49999999999999 and the code shows 57 where the model gives 58; a = 19, l = 200 gives 28 against 29.
- The rest of `_updateUI` is not modelled: text sprites and `_makeTextSprite`. Its dirty check is not claimed either. That guard compares fields that are never assigned, and the group is cleared before it.
- The menu's sprites, the `select('#level')` DOM read (the level is a parameter) and window resizing are not modelled.
- The sound module is not modelled: sounds are events in a returned list.
- Re-triggering a lightshow or a line clear while one is running leaves the old plane or beams in the scene in the code. The model keeps only the latest one.
- Grid reads outside the snapshot's rows are read as empty cells. In the code, a missing row throws.
- The preview's world placement, glow box and material are not modelled; only the bounding box and the centred offsets are.
- Pieces.PreviewOf: requires a next piece to have at least one row, and `Renderer.ValidGame` passes that requirement on to `updateFromGame`. With no rows the code throws at `np.grid[0].length`; the model leaves that error path out rather than invent a result for it.
- The geometry cache (`Geometry`) is modelled on its own and not threaded through the mesh builders. `_addTriangleMesh` skips a triangle whose geometry lookup fails, but every key the scans produce is a quadrant, so that skip never applies and `Pieces.Meshes` has no counterpart to it.
