/**
 * The Snake game of CSC/snake_game/script.js: one call of `drawGame` is a
 * transition over a handful of integer globals. Drawing, sound, the DOM and
 * the timer that schedules the next tick are not modelled; what remains is the
 * latched keyboard input, the direction-reversal guard, the head movement, the
 * game-over test, the apple test and the push/trim of the body list.
 */
module Snake {

  /** Number of tiles along each side of the square play field. */
  const TileCount: int := 20

  /** The tail length the game starts with; every apple eaten adds one. */
  const InitialTailLength: int := 2

  datatype Option<T> = None | Some(value: T)

  /** One grid cell of the snake's body (a `SnakePart`). */
  datatype Part = Part(x: int, y: int)

  /** A velocity in tiles per tick. */
  datatype Velocity = Velocity(dx: int, dy: int)

  const Still: Velocity := Velocity(0, 0)

  /** One tile up, down, left or right. */
  predicate IsUnit(v: Velocity) {
    (v.dx == 0 && (v.dy == 1 || v.dy == -1)) || (v.dy == 0 && (v.dx == 1 || v.dx == -1))
  }

  /** Standing still, or one tile along one axis. */
  predicate IsStep(v: Velocity) {
    v == Still || IsUnit(v)
  }

  predicate InField(x: int, y: int) {
    0 <= x < TileCount && 0 <= y < TileCount
  }

  /** The wall test of `isGameOver`: only the exact edge values count on the far side. */
  predicate HitsWall(x: int, y: int) {
    x < 0 || x == TileCount || y < 0 || y == TileCount
  }

  /** The keys that steer: arrow keys and WASD. */
  predicate IsSteeringKey(code: string) {
    code == "ArrowUp" || code == "KeyW" || code == "ArrowDown" || code == "KeyS" ||
    code == "ArrowLeft" || code == "KeyA" || code == "ArrowRight" || code == "KeyD"
  }

  /** The direction `keyDown` latches for a key code; other codes latch nothing. */
  function KeyDirection(code: string): (r: Option<Velocity>)
    ensures r.Some? <==> IsSteeringKey(code)
    ensures r.Some? ==> IsUnit(r.value)
  {
    if code == "ArrowUp" || code == "KeyW" then Some(Velocity(0, -1))
    else if code == "ArrowDown" || code == "KeyS" then Some(Velocity(0, 1))
    else if code == "ArrowLeft" || code == "KeyA" then Some(Velocity(-1, 0))
    else if code == "ArrowRight" || code == "KeyD" then Some(Velocity(1, 0))
    else None
  }

  /** On one axis: the previous velocity was a unit step and the request is its exact opposite. */
  predicate Reverses(requested: int, previous: int) {
    (previous == 1 || previous == -1) && requested == -previous
  }

  /**
   * The reversal guard of `drawGame`: a request for the exact opposite of the
   * previous velocity on one axis keeps the previous component on that axis.
   */
  function Steer(input: Velocity, previous: Velocity): (v: Velocity)
    ensures !Reverses(v.dx, previous.dx) && !Reverses(v.dy, previous.dy)
    ensures !Reverses(input.dx, previous.dx) ==> v.dx == input.dx
    ensures !Reverses(input.dy, previous.dy) ==> v.dy == input.dy
    ensures IsStep(input) && IsStep(previous) ==> IsStep(v)
  {
    Velocity(if Reverses(input.dx, previous.dx) then previous.dx else input.dx,
             if Reverses(input.dy, previous.dy) then previous.dy else input.dy)
  }

  lemma SteerRightThenLeft()
    ensures Steer(Velocity(-1, 0), Velocity(1, 0)) == Velocity(1, 0)
    ensures Steer(Velocity(1, 0), Velocity(-1, 0)) == Velocity(-1, 0)
    ensures Steer(Velocity(0, 1), Velocity(0, -1)) == Velocity(0, -1)
    ensures Steer(Velocity(0, -1), Velocity(0, 1)) == Velocity(0, 1)
  {
  }

  /** The value `isGameOver` computes: a moving head on a wall or on a body part. */
  predicate GameOver(v: Velocity, head: Part, parts: seq<Part>) {
    v != Still && (HitsWall(head.x, head.y) || head in parts)
  }

  /**
   * The body list after `drawSnake` pushed the head: the oldest parts are
   * shifted off the front until at most `n` remain.
   */
  function Trim<T>(s: seq<T>, n: nat): (r: seq<T>)
    ensures |r| <= n && (|s| <= n ==> r == s)
    ensures |s| >= n ==> |r| == n
  {
    if |s| <= n then s else s[|s| - n..]
  }

  /**
   * Pushing the head and trimming keeps the head last, keeps at most `n`
   * parts, and keeps a suffix of the old list in order before it.
   */
  lemma PushTrim(parts: seq<Part>, head: Part, n: nat)
    requires n >= 1
    ensures var r := Trim(parts + [head], n);
      0 < |r| <= n && r[|r| - 1] == head && r[..|r| - 1] == parts[|parts| - (|r| - 1)..]
  {
    var s := parts + [head];
    var r := Trim(s, n);
    assert r == s[|s| - |r|..];
    assert r[..|r| - 1] == s[|s| - |r|..|s| - 1];
  }

  predicate AllInField(parts: seq<Part>) {
    forall i :: 0 <= i < |parts| ==> InField(parts[i].x, parts[i].y)
  }

  /** Parts pushed from inside the field stay inside the field after the trim. */
  lemma PushTrimInField(parts: seq<Part>, head: Part, n: nat)
    requires AllInField(parts) && InField(head.x, head.y)
    ensures AllInField(Trim(parts + [head], n))
  {
    var s := parts + [head];
    var r := Trim(s, n);
    assert AllInField(s);
    forall i | 0 <= i < |r| ensures InField(r[i].x, r[i].y) {
      assert r[i] == s[|s| - |r| + i];
    }
  }

  /** A step from inside the field that does not hit a wall stays inside the field. */
  lemma StepStaysInField(x: int, y: int, v: Velocity)
    requires InField(x, y) && IsStep(v)
    requires !HitsWall(x + v.dx, y + v.dy)
    ensures InField(x + v.dx, y + v.dy)
  {
  }

  /** The module globals of script.js that the game logic reads and writes. */
  class Game {
    var headX: int
    var headY: int
    var snakeParts: seq<Part>
    var tailLength: int
    var appleX: int
    var appleY: int
    /** The direction last latched by `keyDown`. */
    var inputsXVelocity: int
    var inputsYVelocity: int
    /** The velocity applied in the current tick. */
    var xVelocity: int
    var yVelocity: int
    /** The velocity applied in the previous tick, read by the reversal guard. */
    var previousXVelocity: int
    var previousYVelocity: int
    var score: int

    /** What holds between two ticks of a game that has not ended. */
    ghost predicate Valid()
      reads this
    {
      IsStep(Velocity(inputsXVelocity, inputsYVelocity)) &&
      IsStep(Velocity(previousXVelocity, previousYVelocity)) &&
      xVelocity == previousXVelocity && yVelocity == previousYVelocity &&
      InField(headX, headY) &&
      InField(appleX, appleY) &&
      tailLength >= InitialTailLength &&
      score == tailLength - InitialTailLength &&
      |snakeParts| <= tailLength &&
      (snakeParts != [] ==> snakeParts[|snakeParts| - 1] == Part(headX, headY)) &&
      AllInField(snakeParts)
    }

    /** The initial values of the globals. */
    constructor ()
      ensures Valid()
      ensures headX == 10 && headY == 10 && snakeParts == [] && tailLength == 2
      ensures appleX == 5 && appleY == 5 && score == 0
      ensures inputsXVelocity == 0 && inputsYVelocity == 0
      ensures xVelocity == 0 && yVelocity == 0
      ensures previousXVelocity == 0 && previousYVelocity == 0
    {
      headX, headY := 10, 10;
      snakeParts := [];
      tailLength := InitialTailLength;
      appleX, appleY := 5, 5;
      inputsXVelocity, inputsYVelocity := 0, 0;
      xVelocity, yVelocity := 0, 0;
      score := 0;
      previousXVelocity, previousYVelocity := 0, 0;
    }

    /** The `keyDown` handler: latch the direction of a steering key, ignore any other key. */
    method KeyDown(code: string)
      requires Valid()
      modifies this`inputsXVelocity, this`inputsYVelocity
      ensures Valid()
      ensures KeyDirection(code).Some? ==>
        Velocity(inputsXVelocity, inputsYVelocity) == KeyDirection(code).value
      ensures KeyDirection(code).None? ==>
        inputsXVelocity == old(inputsXVelocity) && inputsYVelocity == old(inputsYVelocity)
    {
      if code == "ArrowUp" || code == "KeyW" {
        inputsYVelocity := -1;
        inputsXVelocity := 0;
      }
      if code == "ArrowDown" || code == "KeyS" {
        inputsYVelocity := 1;
        inputsXVelocity := 0;
      }
      if code == "ArrowLeft" || code == "KeyA" {
        inputsYVelocity := 0;
        inputsXVelocity := -1;
      }
      if code == "ArrowRight" || code == "KeyD" {
        inputsYVelocity := 0;
        inputsXVelocity := 1;
      }
    }

    /**
     * The first lines of `drawGame`: take the latched input, apply the reversal
     * guard against the previous velocity, and remember the result as previous.
     */
    method SteerFromInput()
      modifies this`xVelocity, this`yVelocity, this`previousXVelocity, this`previousYVelocity
      ensures Velocity(xVelocity, yVelocity) ==
        Steer(Velocity(inputsXVelocity, inputsYVelocity), old(Velocity(previousXVelocity, previousYVelocity)))
      ensures previousXVelocity == xVelocity && previousYVelocity == yVelocity
    {
      xVelocity := inputsXVelocity;
      yVelocity := inputsYVelocity;

      if previousXVelocity == 1 && xVelocity == -1 {
        xVelocity := previousXVelocity;
      }
      if previousXVelocity == -1 && xVelocity == 1 {
        xVelocity := previousXVelocity;
      }
      if previousYVelocity == -1 && yVelocity == 1 {
        yVelocity := previousYVelocity;
      }
      if previousYVelocity == 1 && yVelocity == -1 {
        yVelocity := previousYVelocity;
      }

      previousXVelocity := xVelocity;
      previousYVelocity := yVelocity;
    }

    /** `changeSnakePosition`: the head advances by the applied velocity. */
    method ChangeSnakePosition()
      modifies this`headX, this`headY
      ensures headX == old(headX) + xVelocity && headY == old(headY) + yVelocity
    {
      headX := headX + xVelocity;
      headY := headY + yVelocity;
    }

    /**
     * `isGameOver`: never while standing still; otherwise a wall was reached or
     * the head lies on one of the parts pushed in earlier ticks.
     */
    method IsGameOver() returns (gameOver: bool)
      ensures xVelocity == 0 && yVelocity == 0 ==> !gameOver
      ensures gameOver <==> ((xVelocity != 0 || yVelocity != 0) &&
        (HitsWall(headX, headY) || Part(headX, headY) in snakeParts))
    {
      gameOver := false;

      if yVelocity == 0 && xVelocity == 0 {
        return false;
      }

      if headX < 0 {
        gameOver := true;
      } else if headX == TileCount {
        gameOver := true;
      } else if headY < 0 {
        gameOver := true;
      } else if headY == TileCount {
        gameOver := true;
      }

      for i := 0 to |snakeParts|
        invariant gameOver <==> (HitsWall(headX, headY) || Part(headX, headY) in snakeParts[..i])
      {
        var part := snakeParts[i];
        if part.x == headX && part.y == headY {
          gameOver := true;
          break;
        }
      }
    }

    /**
     * `checkAppleCollision`: a head on the apple moves the apple to a random
     * tile and adds one to the tail length and to the score.
     */
    method CheckAppleCollision()
      modifies this`appleX, this`appleY, this`tailLength, this`score
      ensures old(appleX) == headX && old(appleY) == headY ==>
        InField(appleX, appleY) && tailLength == old(tailLength) + 1 && score == old(score) + 1
      ensures !(old(appleX) == headX && old(appleY) == headY) ==>
        appleX == old(appleX) && appleY == old(appleY) &&
        tailLength == old(tailLength) && score == old(score)
    {
      if appleX == headX && appleY == headY {
        // Math.floor(Math.random() * tileCount) picks some tile index
        var x :| 0 <= x < TileCount;
        var y :| 0 <= y < TileCount;
        appleX, appleY := x, y;
        tailLength := tailLength + 1;
        score := score + 1;
      }
    }

    /** The list update of `drawSnake`: push the head, then shift from the front down to `tailLength`. */
    method PushHead()
      requires tailLength >= 0
      modifies this`snakeParts
      ensures snakeParts == Trim(old(snakeParts) + [Part(headX, headY)], tailLength)
      ensures tailLength >= 1 ==> snakeParts != [] && snakeParts[|snakeParts| - 1] == Part(headX, headY)
      ensures AllInField(old(snakeParts)) && InField(headX, headY) ==> AllInField(snakeParts)
    {
      ghost var before, head := snakeParts, Part(headX, headY);
      ghost var pushed := before + [head];
      snakeParts := snakeParts + [Part(headX, headY)];
      while |snakeParts| > tailLength
        invariant |snakeParts| <= |pushed|
        invariant snakeParts == pushed[|pushed| - |snakeParts|..]
        invariant |snakeParts| < |pushed| ==> |snakeParts| >= tailLength
        decreases |snakeParts|
      {
        snakeParts := snakeParts[1..];
      }
      assert snakeParts == Trim(pushed, tailLength);
      if tailLength >= 1 {
        PushTrim(before, head, tailLength);
      }
      if AllInField(before) && InField(head.x, head.y) {
        PushTrimInField(before, head, tailLength);
      }
    }

    /**
     * One call of `drawGame`. Returns whether the game ended; an ending tick
     * leaves the body, the apple, the tail length and the score alone.
     */
    method Tick() returns (ended: bool)
      requires Valid()
      modifies this
      ensures Velocity(xVelocity, yVelocity) ==
        Steer(old(Velocity(inputsXVelocity, inputsYVelocity)), old(Velocity(previousXVelocity, previousYVelocity)))
      ensures previousXVelocity == xVelocity && previousYVelocity == yVelocity
      ensures inputsXVelocity == old(inputsXVelocity) && inputsYVelocity == old(inputsYVelocity)
      ensures headX == old(headX) + xVelocity && headY == old(headY) + yVelocity
      ensures IsStep(Velocity(headX - old(headX), headY - old(headY)))
      ensures ended <==> GameOver(Velocity(xVelocity, yVelocity), Part(headX, headY), old(snakeParts))
      ensures ended ==>
        snakeParts == old(snakeParts) && tailLength == old(tailLength) && score == old(score) &&
        appleX == old(appleX) && appleY == old(appleY)
      ensures !ended ==> Valid()
      ensures !ended && old(appleX) == headX && old(appleY) == headY ==>
        tailLength == old(tailLength) + 1 && score == old(score) + 1
      ensures !ended && !(old(appleX) == headX && old(appleY) == headY) ==>
        tailLength == old(tailLength) && score == old(score) &&
        appleX == old(appleX) && appleY == old(appleY)
      ensures !ended ==> snakeParts == Trim(old(snakeParts) + [Part(headX, headY)], tailLength)
    {
      SteerFromInput();
      assert IsStep(Velocity(xVelocity, yVelocity));

      ChangeSnakePosition();

      var result := IsGameOver();
      if result {
        ended := true;
      } else {
        StepStaysInField(old(headX), old(headY), Velocity(xVelocity, yVelocity));
        assert InField(headX, headY);
        CheckAppleCollision();
        assert InField(appleX, appleY) && score == tailLength - InitialTailLength;
        PushHead();
        ended := false;
      }
    }
  }
}
