/** The game session object: the bird, the active pipes, the set of pipe ids
    already credited, the frame counter, score, high score and the session
    status, all updated in place by the start, jump and frame-tick handlers. */
module Engine {
  import opened Rules

  class Game {
    var birdY: real
    var vel: real
    var pipes: seq<Pipe>
    var frame: int
    var scored: set<int>
    var score: nat
    var highScore: nat
    var status: Status

    /** The session invariant: every point is one credited id, the high score
        is at least the score, and the pipe list is in spawn order with each
        pipe where its spawn frame puts it. */
    ghost predicate Valid()
      reads this
    {
      frame >= 0 &&
      score == |scored| &&
      score <= highScore &&
      PipesInPlay(pipes, frame)
    }

    /** The state a new session starts in. */
    ghost predicate NewSession()
      reads this
    {
      birdY == StartY && vel == 0.0 &&
      pipes == [] && scored == {} &&
      frame == 0 && score == 0 &&
      status == Playing
    }

    /** The state when the page loads: a fresh session waiting for the first flap. */
    constructor ()
      ensures Valid()
      ensures birdY == StartY && vel == 0.0 && pipes == [] && scored == {}
      ensures frame == 0 && score == 0 && highScore == 0 && status == Start
    {
      birdY, vel := StartY, 0.0;
      pipes, scored := [], {};
      frame, score, highScore := 0, 0, 0;
      status := Start;
    }

    /** Start (or restart) a session; the high score survives. */
    method StartGame()
      requires Valid()
      modifies this
      ensures Valid() && NewSession()
      ensures highScore == old(highScore)
    {
      birdY, vel := StartY, 0.0;
      pipes, scored := [], {};
      frame := 0;
      score := 0;
      status := Playing;
    }

    /** The flap input: starts the session from the start screen, overwrites
        the velocity while playing, and is ignored after game over. */
    method Jump()
      requires Valid()
      modifies this
      ensures Valid()
      ensures old(status) == Start ==> NewSession() && highScore == old(highScore)
      ensures old(status) == Playing ==>
                vel == JumpStrength && status == Playing &&
                birdY == old(birdY) && pipes == old(pipes) && frame == old(frame) &&
                scored == old(scored) && score == old(score) && highScore == old(highScore)
      ensures old(status) == GameOver ==> unchanged(this)
    {
      if status == Start {
        StartGame();
      } else if status == Playing {
        vel := JumpStrength;
      }
    }

    /** One frame of the game loop. `gapY` is the random gap top the frame
        would give a pipe spawned in it. Outside a running session nothing
        changes. A collision ends the game but the frame runs to its end: the
        remaining pipes are still shifted, scored and tested, and the bounds
        test still runs. */
    method Tick(gapY: real)
      requires Valid()
      requires MinGapY <= gapY < MaxGapY
      modifies this
      ensures Valid()
      ensures old(status) != Playing ==> unchanged(this)
      ensures old(status) == Playing ==>
                frame == old(frame) + 1 &&
                vel == old(vel) + Gravity &&
                birdY == old(birdY) + vel
      ensures old(status) == Playing ==>
                var r := PipePass(Spawn(old(pipes), frame, gapY), birdY, old(scored));
                pipes == r.kept && scored == r.scored &&
                score == old(score) + r.points &&
                highScore == Max(old(highScore), score) &&
                (status == Playing || status == GameOver) &&
                (status == GameOver <==> r.hit || OutOfBounds(birdY))
    {
      if status != Playing {
        return;
      }
      frame := frame + 1;

      vel := vel + Gravity;
      birdY := birdY + vel;

      if frame % SpawnPeriod == 0 {
        pipes := pipes + [Pipe(SpawnX, gapY, frame)];
      }
      assert pipes == Spawn(old(pipes), frame, gapY);
      FrameKeepsPipesInPlay(old(pipes), frame, gapY, birdY, scored);

      PassPipes();

      if OutOfBounds(birdY) {
        status := GameOver;
      }
    }

    /** The pipe pass of the current frame over the active pipes, in list
        order: each pipe is shifted, credited once per id (raising the high
        score with the score), tested for collision, and kept only if it
        survives. A collision ends the game without stopping the pass. */
    method PassPipes()
      requires status == Playing && score <= highScore
      modifies this
      ensures var r := PipePass(old(pipes), birdY, old(scored));
              pipes == r.kept && scored == r.scored &&
              score == old(score) + r.points &&
              highScore == Max(old(highScore), score) &&
              (status == Playing || status == GameOver) &&
              (status == GameOver <==> r.hit)
      ensures birdY == old(birdY) && vel == old(vel) && frame == old(frame)
    {
      var y := birdY;
      var all := pipes;
      var kept: seq<Pipe> := [];
      var i := 0;
      while i < |all|
        invariant 0 <= i <= |all|
        invariant y == birdY == old(birdY) && vel == old(vel) && frame == old(frame) && all == old(pipes)
        invariant status == Playing || status == GameOver
        invariant score >= old(score)
        invariant PipePass(all[..i], y, old(scored)) ==
                  PassResult(kept, scored, score - old(score), status == GameOver)
        invariant highScore == Max(old(highScore), score)
      {
        assert all[..i + 1][..i] == all[..i];
        var pipe := Shift(all[i]);
        if Credited(pipe, scored) {
          scored := scored + {pipe.id};
          score := score + 1;
          highScore := Max(highScore, score);
        }
        if Collides(pipe, y) {
          status := GameOver;
        } else if pipe.x > -PipeWidth {
          kept := kept + [pipe];
        }
        i := i + 1;
      }
      assert all[..i] == all;
      pipes := kept;
    }
  }

  /** A session left without input from its start: the bird falls for 30
      frames, never meets a pipe (the first spawns in frame 90), leaves the
      field through the floor in frame 30 with its centre at 482.5, and the
      score stays 0. */
  method FallWithoutInput(gapY: real) returns (frames: nat, y: real, over: bool, points: nat)
    requires MinGapY <= gapY < MaxGapY
    ensures frames == 30 && y == 482.5 && over && points == 0
  {
    var g := new Game();
    g.StartGame();
    frames := 0;
    while g.status == Playing
      invariant g.Valid() && g.frame == frames && frames <= 30
      invariant g.pipes == [] && g.score == 0
      invariant (g.birdY, g.vel) == FreeFall(StartY, 0.0, frames)
      invariant g.status == Playing || g.status == GameOver
      invariant g.status == GameOver <==> frames == 30
      decreases 30 - frames
    {
      g.Tick(gapY);
      frames := frames + 1;
      FreeFallLeavesFieldAt30(frames);
    }
    FreeFallFromStart(30);
    y, over, points := g.birdY, g.status == GameOver, g.score;
  }
}
