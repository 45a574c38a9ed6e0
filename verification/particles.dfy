/** The particle pool (tritris3d.js:891-950, 1138-1171): spark bursts and
    shockwave rings that live for a fixed time and are then removed.
    Lifetimes are integer milliseconds; positions are the spawn origin in
    half-cell units, since motion, damping and opacity are left out. */
module Particles {
  import opened Effects

  /** Sparks per burst (tritris3d.js:892). */
  const SparksPerBurst := 32
  /** A ring lives 0.5 s (tritris3d.js:945-946). */
  const RingLifeMs := 500
  /** A spark lives 0.4 s plus up to 0.3 s of randomness (tritris3d.js:922). */
  const SparkLifeMinMs := 400
  const SparkLifeMaxMs := 700

  datatype Shape = Streak | Ring

  datatype Particle = Particle(shape: Shape, x2: int, y2: int, color: int, life: int, startLife: int)

  /** Every particle in the pool still has time left. */
  predicate AllAlive(ps: seq<Particle>)
  {
    forall i :: 0 <= i < |ps| ==> ps[i].life > 0
  }

  /** The random lifetimes of one burst, drawn by the caller: 32 values in
      the band [400, 700) ms. */
  predicate ValidLives(lives: seq<int>)
  {
    && |lives| == SparksPerBurst
    && forall i :: 0 <= i < |lives| ==> SparkLifeMinMs <= lives[i] < SparkLifeMaxMs
  }

  /** `spawnParticles`: appends one streak per supplied lifetime, all at the
      given origin and colour, each starting at its full lifetime. */
  function SpawnParticles(pool: seq<Particle>, x2: int, y2: int, color: int, lives: seq<int>): (r: seq<Particle>)
    requires ValidLives(lives)
    ensures |r| == |pool| + SparksPerBurst
    ensures r[..|pool|] == pool
    ensures forall i :: |pool| <= i < |r| ==>
      && r[i].shape == Streak && r[i].x2 == x2 && r[i].y2 == y2 && r[i].color == color
      && SparkLifeMinMs <= r[i].life == r[i].startLife < SparkLifeMaxMs
    ensures forall j :: 0 <= j < |lives| ==> r[|pool| + j] == Particle(Streak, x2, y2, color, lives[j], lives[j])
    ensures AllAlive(pool) ==> AllAlive(r)
  {
    pool + seq(|lives|, i requires 0 <= i < |lives| => Particle(Streak, x2, y2, color, lives[i], lives[i]))
  }

  /** `spawnShockwave`: appends one ring with the fixed ring lifetime. */
  function SpawnShockwave(pool: seq<Particle>, x2: int, y2: int, color: int): (r: seq<Particle>)
    ensures |r| == |pool| + 1
    ensures r[..|pool|] == pool
    ensures r[|pool|].shape == Ring && r[|pool|].x2 == x2 && r[|pool|].y2 == y2 && r[|pool|].color == color
    ensures r[|pool|].life == r[|pool|].startLife == RingLifeMs
    ensures AllAlive(pool) ==> AllAlive(r)
  {
    pool + [Particle(Ring, x2, y2, color, RingLifeMs, RingLifeMs)]
  }

  /** One particle after a frame of `dt`, or nothing once its life runs out. */
  function Step(p: Particle, dt: int): seq<Particle>
  {
    if p.life - dt <= 0 then [] else [p.(life := p.life - dt)]
  }

  /** The particle pass of one frame: each life drops by `dt`, particles at
      or below zero are removed, survivors keep their order. */
  function Advance(ps: seq<Particle>, dt: int): (r: seq<Particle>)
    ensures AllAlive(r)
    ensures |r| <= |ps|
  {
    if ps == [] then [] else Step(ps[0], dt) + Advance(ps[1..], dt)
  }

  /** After the pass, the pool holds exactly the particles that had more
      than `dt` left, each with `dt` taken off. */
  lemma {:induction false} AdvanceMembers(ps: seq<Particle>, dt: int)
    ensures forall q :: q in Advance(ps, dt) ==>
      exists p :: p in ps && p.life > dt && q == p.(life := p.life - dt)
    ensures forall p :: p in ps && p.life > dt ==> p.(life := p.life - dt) in Advance(ps, dt)
  {
    AdvanceSound(ps, dt);
    AdvanceComplete(ps, dt);
  }

  lemma {:induction false} AdvanceSound(ps: seq<Particle>, dt: int)
    ensures forall q :: q in Advance(ps, dt) ==>
      exists p :: p in ps && p.life > dt && q == p.(life := p.life - dt)
    decreases |ps|
  {
    if ps != [] {
      var rest := Advance(ps[1..], dt);
      AdvanceSound(ps[1..], dt);
      assert Advance(ps, dt) == Step(ps[0], dt) + rest;
      forall q | q in Advance(ps, dt)
        ensures exists p :: p in ps && p.life > dt && q == p.(life := p.life - dt)
      {
        if q in Step(ps[0], dt) {
          assert ps[0] in ps;
        } else {
          assert q in rest;
          var p :| p in ps[1..] && p.life > dt && q == p.(life := p.life - dt);
          assert p in ps;
        }
      }
    }
  }

  lemma {:induction false} AdvanceComplete(ps: seq<Particle>, dt: int)
    ensures forall p :: p in ps && p.life > dt ==> p.(life := p.life - dt) in Advance(ps, dt)
    decreases |ps|
  {
    if ps != [] {
      var rest := Advance(ps[1..], dt);
      AdvanceComplete(ps[1..], dt);
      assert Advance(ps, dt) == Step(ps[0], dt) + rest;
      forall p | p in ps && p.life > dt
        ensures p.(life := p.life - dt) in Advance(ps, dt)
      {
        if p != ps[0] {
          assert p in ps[1..];
          assert p.(life := p.life - dt) in rest;
        }
      }
    }
  }

  /** The pass treats the pool piecewise, so relative order is kept. */
  lemma {:induction false} AdvanceConcat(a: seq<Particle>, b: seq<Particle>, dt: int)
    ensures Advance(a + b, dt) == Advance(a, dt) + Advance(b, dt)
    decreases |a|
  {
    if a == [] {
      assert a + b == b;
    } else {
      assert (a + b)[0] == a[0];
      assert (a + b)[1..] == a[1..] + b;
      AdvanceConcat(a[1..], b, dt);
    }
  }

  lemma AdvanceAt(ps: seq<Particle>, i: int, dt: int)
    requires 0 <= i < |ps|
    ensures Advance(ps[i..], dt) == Step(ps[i], dt) + Advance(ps[i + 1..], dt)
  {
    assert ps[i..][0] == ps[i];
    assert ps[i..][1..] == ps[i + 1..];
  }

  /** The particle loop as written: it walks the pool from the back,
      decrements each life in place and splices out the expired ones. It
      ends with exactly the pool `Advance` describes. */
  method AdvanceInPlace(ps: seq<Particle>, dt: int) returns (pool: seq<Particle>)
    ensures pool == Advance(ps, dt)
    ensures AllAlive(pool)
  {
    pool := ps;
    var i := |ps| - 1;
    while i >= 0
      invariant -1 <= i < |ps|
      invariant pool == ps[..i + 1] + Advance(ps[i + 1..], dt)
    {
      SpliceStep(ps, i, dt, pool);
      var p := pool[i].(life := pool[i].life - dt);
      if p.life <= 0 {
        pool := pool[..i] + pool[i + 1..];
      } else {
        pool := pool[..i] + [p] + pool[i + 1..];
      }
      i := i - 1;
    }
    assert ps[0..] == ps;
  }

  /** One iteration of the loop: splicing out (or updating) slot `i` moves
      the boundary between untouched and finished particles down by one. */
  lemma SpliceStep(ps: seq<Particle>, i: int, dt: int, pool: seq<Particle>)
    requires 0 <= i < |ps| && pool == ps[..i + 1] + Advance(ps[i + 1..], dt)
    ensures i < |pool| && pool[i] == ps[i]
    ensures var p := pool[i].(life := pool[i].life - dt);
      (if p.life <= 0 then pool[..i] + pool[i + 1..] else pool[..i] + [p] + pool[i + 1..])
        == ps[..i] + Advance(ps[i..], dt)
  {
    var done := Advance(ps[i + 1..], dt);
    SplitAt(ps[..i + 1], done, i);
    assert ps[..i + 1][..i] == ps[..i] && ps[..i + 1][i + 1..] == [];
    assert pool[..i] == ps[..i] && pool[i + 1..] == done;
    AdvanceAt(ps, i, dt);
    var p := pool[i].(life := pool[i].life - dt);
    if p.life > 0 {
      assert ps[..i] + [p] + done == ps[..i] + ([p] + done);
    }
  }

  /** Cutting a concatenation at an index of its first part. */
  lemma SplitAt(a: seq<Particle>, b: seq<Particle>, i: int)
    requires 0 <= i < |a|
    ensures (a + b)[..i] == a[..i] && (a + b)[i] == a[i] && (a + b)[i + 1..] == a[i + 1..] + b
  {
  }

  /** The particle pass of one frame. */
  function Pass(ps: seq<Particle>): seq<Particle>
  {
    Advance(ps, FrameMs)
  }

  /** The pool after `n` frames without new spawns. */
  function Frames(ps: seq<Particle>, n: nat): seq<Particle>
  {
    Iterate(Pass, ps, n)
  }

  /** A lone particle of positive life `L` is still present, with `16*n` ms
      taken off, exactly while `16*n < L`; afterwards it is gone. */
  lemma {:induction false} LoneParticleLifetime(p: Particle, n: nat)
    requires p.life > 0
    ensures Frames([p], n) == (if FrameMs * n < p.life then [p.(life := p.life - FrameMs * n)] else [])
    decreases n
  {
    if n > 0 {
      assert [p][1..] == [];
      assert Advance([p], FrameMs) == Step(p, FrameMs);
      if p.life - FrameMs <= 0 {
        FramesOfEmpty(n - 1);
      } else {
        LoneParticleLifetime(p.(life := p.life - FrameMs), n - 1);
      }
    }
  }

  lemma {:induction false} FramesOfEmpty(n: nat)
    ensures Frames([], n) == []
  {
    if n > 0 {
      FramesOfEmpty(n - 1);
    }
  }

  lemma {:induction false} FramesConcat(a: seq<Particle>, b: seq<Particle>, n: nat)
    ensures Frames(a + b, n) == Frames(a, n) + Frames(b, n)
    decreases n
  {
    if n > 0 {
      AdvanceConcat(a, b, FrameMs);
      FramesConcat(Advance(a, FrameMs), Advance(b, FrameMs), n - 1);
    }
  }

  /** Without new spawns the pool drains: once `16*n` reaches every life in
      it, nothing is left. This is the only bound on the pool's size. */
  lemma {:induction false} PoolDrains(ps: seq<Particle>, n: nat)
    requires AllAlive(ps)
    requires forall i :: 0 <= i < |ps| ==> ps[i].life <= FrameMs * n
    ensures Frames(ps, n) == []
    decreases |ps|
  {
    if ps == [] {
      FramesOfEmpty(n);
    } else {
      assert ps == [ps[0]] + ps[1..];
      FramesConcat([ps[0]], ps[1..], n);
      LoneParticleLifetime(ps[0], n);
      PoolDrains(ps[1..], n);
    }
  }

  /** A shockwave ring is drawn for 31 frames and gone after the 32nd. */
  lemma RingFrames(x2: int, y2: int, color: int)
    ensures Frames(SpawnShockwave([], x2, y2, color), 31) != []
    ensures Frames(SpawnShockwave([], x2, y2, color), 32) == []
  {
    var p := Particle(Ring, x2, y2, color, RingLifeMs, RingLifeMs);
    assert SpawnShockwave([], x2, y2, color) == [p];
    LoneParticleLifetime(p, 31);
    LoneParticleLifetime(p, 32);
  }
}
