/** The pure rules of one game frame: the constants of the logical 800 x 500
    play-field, gravity, pipe spawning, the pass-through score test, the
    box collision test, the field bounds, and the specification of the pass
    that shifts, scores, tests and filters the active pipes in order. */
module Rules {

  // Bird: fixed column, bounding box of half-side BirdRadius.
  const BirdX: int := 100
  const BirdRadius: int := 25
  const StartY: real := 250.0
  const Gravity: real := 0.5
  const JumpStrength: real := -9.0

  // Pipes.
  const PipeSpeed: int := 3
  const PipeGap: real := 180.0
  const PipeWidth: int := 60
  const SpawnX: int := 800
  const SpawnPeriod: int := 90

  // Play-field height and the range the random gap top is drawn from:
  // Math.random() * (500 - 180 - 100) + 50 lies in [50, 270).
  const FieldHeight: real := 500.0
  const MinGapY: real := 50.0
  const MaxGapY: real := 270.0

  datatype Status = Start | Playing | GameOver

  /** A pipe pair: left edge `x`, top of the gap `gapY`, and the frame it was spawned in as `id`. */
  datatype Pipe = Pipe(x: int, gapY: real, id: int)

  /** One frame of scrolling: only the left edge moves. */
  function Shift(p: Pipe): (q: Pipe)
    ensures q.id == p.id && q.gapY == p.gapY && q.x < p.x
  {
    p.(x := p.x - PipeSpeed)
  }

  /** The pipe's right edge is left of the bird's left edge, that is, its
      left edge is left of x = 15. */
  function Passed(p: Pipe): (r: bool)
    ensures r <==> p.x < 15
  {
    p.x + PipeWidth < BirdX - BirdRadius
  }

  /** The pipe earns a point now: passed and not yet credited. */
  function Credited(p: Pipe, scored: set<int>): (r: bool)
    ensures r <==> p.id !in scored && p.x < 15
  {
    p.id !in scored && Passed(p)
  }

  /** The bird's box overlaps the pipe horizontally and leaves its gap
      vertically. A pipe the bird has passed can never collide. */
  function Collides(p: Pipe, y: real): (r: bool)
    ensures r ==> !Passed(p)
    ensures r ==> BirdX - BirdRadius - PipeWidth < p.x < BirdX + BirdRadius
  {
    BirdX + BirdRadius > p.x &&
    BirdX - BirdRadius < p.x + PipeWidth &&
    (y - BirdRadius as real < p.gapY || y + BirdRadius as real > p.gapY + PipeGap)
  }

  /** A shifted pipe stays on the list: no collision and not yet fully off
      the left edge. It survives iff its right edge is still on the field and
      either it does not overlap the bird's column (x <= 15 or x >= 125) or
      the bird's box fits inside its gap. */
  function Survives(p: Pipe, y: real): (r: bool)
    ensures r <==> p.x > -PipeWidth &&
                   (p.x <= 15 || p.x >= 125 ||
                    (p.gapY + BirdRadius as real <= y && y + BirdRadius as real <= p.gapY + PipeGap))
  {
    !Collides(p, y) && p.x > -PipeWidth
  }

  /** The bird's box leaves the field through the floor or the ceiling:
      its centre is outside [25, 475]. */
  function OutOfBounds(y: real): (r: bool)
    ensures r <==> !(25.0 <= y <= 475.0)
  {
    y + BirdRadius as real > FieldHeight || y - BirdRadius as real < 0.0
  }

  function Max(a: int, b: int): (r: int)
    ensures r >= a && r >= b
    ensures r == a || r == b
  {
    if a >= b then a else b
  }

  /** The pipe list after the spawn step of frame `f`: the old pipes, followed
      by a new pipe at the right edge carrying `f` as its id exactly when `f`
      is a multiple of the spawn period. */
  function Spawn(ps: seq<Pipe>, f: int, gapY: real): (r: seq<Pipe>)
    ensures f % SpawnPeriod == 0 ==> |r| == |ps| + 1 && r[|ps|] == Pipe(SpawnX, gapY, f)
    ensures f % SpawnPeriod != 0 ==> |r| == |ps|
    ensures r[..|ps|] == ps
  {
    if f % SpawnPeriod == 0 then ps + [Pipe(SpawnX, gapY, f)] else ps
  }

  /** Ids strictly increase along the list (spawn order). */
  ghost predicate IdsIncreasing(ps: seq<Pipe>)
  {
    forall i, j :: 0 <= i < j < |ps| ==> ps[i].id < ps[j].id
  }

  /** Where a pipe spawned in frame `p.id` is after frame `f` has been
      processed, and the range its gap was drawn from. */
  ghost predicate Placed(p: Pipe, f: int)
  {
    0 < p.id && p.id % SpawnPeriod == 0 &&
    MinGapY <= p.gapY < MaxGapY &&
    p.x == SpawnX - PipeSpeed * (f - p.id + 1)
  }

  /** The active pipe list at the end of frame `f`. */
  ghost predicate PipesInPlay(ps: seq<Pipe>, f: int)
  {
    IdsIncreasing(ps) &&
    forall i :: 0 <= i < |ps| ==> Placed(ps[i], f) && ps[i].id <= f && ps[i].x > -PipeWidth
  }

  /** The credited set after pipe `p` has been considered. */
  function Credit(p: Pipe, scored: set<int>): (r: set<int>)
  {
    if Credited(p, scored) then scored + {p.id} else scored
  }

  /** What the pipe pass of one frame produces. */
  datatype PassResult = PassResult(kept: seq<Pipe>, scored: set<int>, points: nat, hit: bool)

  /** The pipe pass over `ps`, pipe by pipe in list order: shift, credit a
      point once per id, test collision, keep survivors. It is written as a
      fold: the pass over all pipes is the pass over all but the last,
      followed by the step for the last. A collision does not stop the pass:
      later pipes are still shifted, scored and tested. */
  function PipePass(ps: seq<Pipe>, y: real, scored: set<int>): (r: PassResult)
    ensures scored <= r.scored
    ensures |r.kept| <= |ps|
    decreases |ps|
  {
    if ps == [] then PassResult([], scored, 0, false)
    else
      var prev := PipePass(ps[..|ps| - 1], y, scored);
      var p := Shift(ps[|ps| - 1]);
      PassResult(prev.kept + (if Survives(p, y) then [p] else []),
                 Credit(p, prev.scored),
                 prev.points + (if Credited(p, prev.scored) then 1 else 0),
                 prev.hit || Collides(p, y))
  }

  /** Ids of the pipes of `ps` that have passed the bird once shifted. */
  function PassedIds(ps: seq<Pipe>): (r: set<int>)
  {
    set i | 0 <= i < |ps| && Passed(Shift(ps[i])) :: ps[i].id
  }

  lemma PassedIdsUnfold(ps: seq<Pipe>)
    requires ps != []
    ensures var last := ps[|ps| - 1];
            PassedIds(ps) == PassedIds(ps[..|ps| - 1]) + (if Passed(Shift(last)) then {last.id} else {})
  {
  }

  /** The credited set grows by exactly the ids of the pipes that passed the
      bird this frame, whatever happened to other pipes. */
  lemma {:induction false} PassScoredIds(ps: seq<Pipe>, y: real, scored: set<int>)
    ensures PipePass(ps, y, scored).scored == scored + PassedIds(ps)
    decreases |ps|
  {
    if ps != [] {
      PassScoredIds(ps[..|ps| - 1], y, scored);
      PassedIdsUnfold(ps);
    }
  }

  /** Each point awarded is one new id in the credited set: no id earns twice. */
  lemma {:induction false} PassPointsAreNewIds(ps: seq<Pipe>, y: real, scored: set<int>)
    ensures PipePass(ps, y, scored).points == |PipePass(ps, y, scored).scored| - |scored|
    decreases |ps|
  {
    if ps != [] {
      var prev := PipePass(ps[..|ps| - 1], y, scored);
      var p := Shift(ps[|ps| - 1]);
      PassPointsAreNewIds(ps[..|ps| - 1], y, scored);
      if Credited(p, prev.scored) {
        assert |prev.scored + {p.id}| == |prev.scored| + 1;
      }
    }
  }

  /** The frame ends the game through a pipe iff some shifted pipe collides. */
  lemma {:induction false} PassHit(ps: seq<Pipe>, y: real, scored: set<int>)
    ensures PipePass(ps, y, scored).hit <==> exists i :: 0 <= i < |ps| && Collides(Shift(ps[i]), y)
    decreases |ps|
  {
    if ps != [] {
      var init := ps[..|ps| - 1];
      PassHit(init, y, scored);
      if exists i :: 0 <= i < |ps| && Collides(Shift(ps[i]), y) {
        var i :| 0 <= i < |ps| && Collides(Shift(ps[i]), y);
        if i < |init| { assert init[i] == ps[i]; }
      }
      if exists i :: 0 <= i < |init| && Collides(Shift(init[i]), y) {
        var i :| 0 <= i < |init| && Collides(Shift(init[i]), y);
        assert ps[i] == init[i];
      }
    }
  }

  /** The kept list holds exactly the shifted pipes that survive: every kept
      pipe is some input pipe moved left by PipeSpeed with nothing else
      changed, and every surviving pipe is kept. */
  lemma {:induction false} PassKept(ps: seq<Pipe>, y: real, scored: set<int>)
    ensures forall k :: 0 <= k < |PipePass(ps, y, scored).kept| ==>
              exists i :: 0 <= i < |ps| && PipePass(ps, y, scored).kept[k] == Shift(ps[i]) && Survives(Shift(ps[i]), y)
    ensures forall i :: 0 <= i < |ps| && Survives(Shift(ps[i]), y) ==> Shift(ps[i]) in PipePass(ps, y, scored).kept
    decreases |ps|
  {
    if ps != [] {
      var init := ps[..|ps| - 1];
      var prev := PipePass(init, y, scored);
      var p := Shift(ps[|ps| - 1]);
      var kept := PipePass(ps, y, scored).kept;
      var tail := if Survives(p, y) then [p] else [];
      PassKept(init, y, scored);
      assert kept == prev.kept + tail;
      forall k | 0 <= k < |kept|
        ensures exists i :: 0 <= i < |ps| && kept[k] == Shift(ps[i]) && Survives(Shift(ps[i]), y)
      {
        if k < |prev.kept| {
          assert kept[k] == prev.kept[k];
          var i :| 0 <= i < |init| && prev.kept[k] == Shift(init[i]) && Survives(Shift(init[i]), y);
          assert ps[i] == init[i];
        } else {
          assert kept[k] == Shift(ps[|ps| - 1]) && Survives(Shift(ps[|ps| - 1]), y);
        }
      }
      forall i | 0 <= i < |ps| && Survives(Shift(ps[i]), y) ensures Shift(ps[i]) in kept {
        if i < |init| {
          assert init[i] == ps[i];
        }
      }
    } else {
      assert PipePass(ps, y, scored).kept == [];
    }
  }

  /** Survivors keep their relative order: increasing ids stay increasing. */
  lemma {:induction false} PassKeepsOrder(ps: seq<Pipe>, y: real, scored: set<int>)
    requires IdsIncreasing(ps)
    ensures IdsIncreasing(PipePass(ps, y, scored).kept)
    decreases |ps|
  {
    if ps != [] {
      var init := ps[..|ps| - 1];
      var prev := PipePass(init, y, scored);
      var p := Shift(ps[|ps| - 1]);
      var kept := PipePass(ps, y, scored).kept;
      assert IdsIncreasing(init);
      PassKeepsOrder(init, y, scored);
      PassKept(init, y, scored);
      if Survives(p, y) {
        assert kept == prev.kept + [p];
        forall k | 0 <= k < |prev.kept| ensures prev.kept[k].id < p.id {
          var i :| 0 <= i < |init| && prev.kept[k] == Shift(init[i]) && Survives(Shift(init[i]), y);
          assert init[i] == ps[i];
        }
        forall a, b | 0 <= a < b < |kept| ensures kept[a].id < kept[b].id {
          assert kept[a] == prev.kept[a];
          if b < |prev.kept| {
            assert kept[b] == prev.kept[b];
          }
        }
      } else {
        assert kept == prev.kept;
      }
    }
  }

  /** The in-order filter of the shifted pipes by the keep rule. */
  function Survivors(ps: seq<Pipe>, y: real): (r: seq<Pipe>)
    ensures |r| <= |ps|
  {
    if ps == [] then []
    else
      (if Survives(Shift(ps[0]), y) then [Shift(ps[0])] else []) + Survivors(ps[1..], y)
  }

  lemma {:induction false} SurvivorsAppend(ps: seq<Pipe>, last: Pipe, y: real)
    ensures Survivors(ps + [last], y) ==
            Survivors(ps, y) + (if Survives(Shift(last), y) then [Shift(last)] else [])
    decreases |ps|
  {
    if ps != [] {
      assert (ps + [last])[0] == ps[0];
      assert (ps + [last])[1..] == ps[1..] + [last];
      SurvivorsAppend(ps[1..], last, y);
    }
  }

  /** The kept list is exactly the shifted pipes filtered by the keep rule,
      in their original order, whatever the list and the credited set. */
  lemma {:induction false} PassKeptIsFilter(ps: seq<Pipe>, y: real, scored: set<int>)
    ensures PipePass(ps, y, scored).kept == Survivors(ps, y)
    decreases |ps|
  {
    if ps != [] {
      var init := ps[..|ps| - 1];
      PassKeptIsFilter(init, y, scored);
      SurvivorsAppend(init, ps[|ps| - 1], y);
      assert init + [ps[|ps| - 1]] == ps;
    }
  }

  /** The spawn step of frame `f` keeps the list in order: a new pipe carries
      the largest id so far, sits at the right edge and has its gap in range. */
  lemma SpawnInOrder(ps: seq<Pipe>, f: int, gapY: real)
    requires PipesInPlay(ps, f - 1)
    requires f > 0 && MinGapY <= gapY < MaxGapY
    ensures IdsIncreasing(Spawn(ps, f, gapY))
    ensures forall i :: 0 <= i < |Spawn(ps, f, gapY)| ==>
              Placed(Shift(Spawn(ps, f, gapY)[i]), f) && Spawn(ps, f, gapY)[i].id <= f
  {
  }

  /** One full pipe pass of frame `f`, started from the spawned list, leaves
      a list that is in play at frame `f`. */
  lemma PassInPlay(ps: seq<Pipe>, f: int, y: real, scored: set<int>)
    requires IdsIncreasing(ps)
    requires forall i :: 0 <= i < |ps| ==> Placed(Shift(ps[i]), f) && ps[i].id <= f
    ensures PipesInPlay(PipePass(ps, y, scored).kept, f)
  {
    PassKeepsOrder(ps, y, scored);
    PassKept(ps, y, scored);
  }

  /** Frame `f` (spawn, then the pipe pass) takes a list in play at frame
      `f - 1` to one in play at frame `f`, and every point it awards is a new
      credited id. */
  lemma FrameKeepsPipesInPlay(ps: seq<Pipe>, f: int, gapY: real, y: real, scored: set<int>)
    requires PipesInPlay(ps, f - 1)
    requires f > 0 && MinGapY <= gapY < MaxGapY
    ensures var r := PipePass(Spawn(ps, f, gapY), y, scored);
            PipesInPlay(r.kept, f) && r.points == |r.scored| - |scored|
  {
    SpawnInOrder(ps, f, gapY);
    PassInPlay(Spawn(ps, f, gapY), f, y, scored);
    PassPointsAreNewIds(Spawn(ps, f, gapY), y, scored);
  }

  /** The bird's (y, velocity) after `n` frames of gravity with no input:
      each frame adds Gravity to the velocity, then the new velocity to y, so
      after `n` frames the velocity has grown by n times Gravity. */
  function FreeFall(y: real, v: real, n: nat): (r: (real, real))
    ensures r.1 == v + Gravity * n as real
  {
    if n == 0 then (y, v)
    else
      var prev := FreeFall(y, v, n - 1);
      (prev.0 + prev.1 + Gravity, prev.1 + Gravity)
  }

  /** Falling from the start position at rest, after `n` frames the velocity
      is 0.5 n and the bird has dropped 0.5 (1 + 2 + ... + n) = n (n + 1) / 4. */
  lemma {:induction false} FreeFallFromStart(n: nat)
    ensures FreeFall(StartY, 0.0, n).1 == 0.5 * n as real
    ensures FreeFall(StartY, 0.0, n).0 == StartY + 0.25 * (n * (n + 1)) as real
  {
    if n > 0 {
      FreeFallFromStart(n - 1);
      assert n * (n + 1) == (n - 1) * n + 2 * n;
    }
  }

  /** n (n + 1) first exceeds 900 at n = 30. */
  lemma ProductPasses900At30(n: nat)
    ensures n * (n + 1) > 900 <==> n >= 30
  {
    if n >= 30 {
      assert n * (n + 1) == 930 + (n - 30) * (n + 31);
      assert (n - 30) * (n + 31) >= 0;
    } else {
      assert n * (n + 1) == 870 - (29 - n) * (n + 30);
      assert (29 - n) * (n + 30) >= 0;
    }
  }

  /** With no input the bird stays in the field for 29 frames and leaves it
      through the floor in frame 30. */
  lemma FreeFallLeavesFieldAt30(n: nat)
    ensures OutOfBounds(FreeFall(StartY, 0.0, n).0) <==> n >= 30
  {
    FreeFallFromStart(n);
    ProductPasses900At30(n);
  }
}
