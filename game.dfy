/**
 * The game-state engine: the page's module-level state as one object whose
 * methods are the game's operations. The canvas is `width` by `height`
 * cells. `clockArmed` records whether the periodic tick is scheduled; the
 * tick itself calls `Step`.
 */
module Engine {
  import opened Optional
  import opened Grid
  import opened Keys
  import opened Speed
  import opened Rules
  import opened Food

  /** The self-collision scan of a tick: every segment except the last. */
  method CollidesWithBody(body: seq<Cell>, head: Cell) returns (hit: bool)
    ensures hit <==> HitsBody(body, head)
  {
    var i := 0;
    while i < |body| - 1
      invariant 0 <= i && (i == 0 || i <= |body| - 1)
      invariant forall j :: 0 <= j < i ==> body[j] != head
    {
      if body[i] == head {
        return true;
      }
      i := i + 1;
    }
    return false;
  }

  /** The scan of a food draw against every segment. */
  method OnBody(body: seq<Cell>, c: Cell) returns (found: bool)
    ensures found <==> c in body
  {
    var k := 0;
    while k < |body|
      invariant 0 <= k <= |body|
      invariant c !in body[..k]
    {
      if body[k] == c {
        return true;
      }
      k := k + 1;
    }
    assert body[..k] == body;
    return false;
  }

  class Game {
    const width: int
    const height: int
    var snake: seq<Cell>
    var food: Option<Cell>
    var direction: Direction
    var nextDirection: Direction
    var score: int
    var highScore: int
    var speed: int
    var isPaused: bool
    var isGameOver: bool
    var wallCollisionEnabled: bool
    var difficulty: Difficulty
    var clockArmed: bool

    /**
     * The part of the state invariant that does not involve the headings.
     * Before the first game there is no snake. Once there is one, it has at
     * least three distinct in-grid segments, the food is on a free cell, and
     * the score counts the segments grown. The clock runs only in an
     * unpaused game.
     */
    ghost predicate Board()
      reads this
    {
      && width >= 7 && height >= 11
      && (snake == [] ==> isGameOver && score == 0)
      && (snake != [] ==>
            && |snake| >= 3
            && food.Some?
            && WellFormed(snake, food.value, width, height)
            && score == 10 * (|snake| - 3))
      && (clockArmed ==> !isGameOver && !isPaused)
      && (isPaused ==> !isGameOver)
    }

    /**
     * The state invariant: the board invariant, and while a game is on the
     * head is one move from the neck along the current heading. The pending
     * heading never reverses the current one.
     */
    ghost predicate Valid()
      reads this
    {
      && Board()
      && (!isGameOver ==> Follows(snake, direction, width, height))
      && nextDirection != Opposite(direction)
    }

    /** The state when the page loads; the high score comes from storage. */
    constructor (width: int, height: int, storedHighScore: int, selected: Difficulty)
      requires width >= 7 && height >= 11
      ensures Valid()
      ensures this.width == width && this.height == height
      ensures snake == [] && food == None && score == 0 && highScore == storedHighScore
      ensures direction == Right && nextDirection == Right && speed == DefaultSpeed
      ensures !isPaused && isGameOver && wallCollisionEnabled && difficulty == selected && !clockArmed
    {
      this.width := width;
      this.height := height;
      snake := [];
      food := None;
      direction := Right;
      nextDirection := Right;
      score := 0;
      highScore := storedHighScore;
      speed := DefaultSpeed;
      isPaused := false;
      isGameOver := true;
      wallCollisionEnabled := true;
      difficulty := selected;
      clockArmed := false;
    }

    /** Ends the game: stops the clock and keeps the better of score and high score. */
    method GameOver()
      modifies this`isGameOver, this`highScore, this`clockArmed
      ensures isGameOver && !clockArmed
      ensures highScore == if score > old(highScore) then score else old(highScore)
      ensures highScore >= old(highScore) && highScore >= score
    {
      clockArmed := false;
      isGameOver := true;
      if score > highScore {
        highScore := score;
      }
    }

    /**
     * Rejection sampling: takes draws until one is off the snake. The food
     * is the first free draw.
     */
    method GenerateFood(draws: seq<Cell>)
      requires FairDraws(draws, snake, width, height)
      modifies this`food
      ensures food == Some(draws[FirstFree(draws, snake)])
      ensures InGrid(food.value, width, height) && food.value !in snake
    {
      ghost var k := FirstFree(draws, snake);
      var i := 0;
      var candidate := draws[0];
      var onSnake := OnBody(snake, candidate);
      while onSnake
        invariant 0 <= i <= k
        invariant candidate == draws[i]
        invariant onSnake <==> candidate in snake
        decreases k - i
      {
        i := i + 1;
        candidate := draws[i];
        onSnake := OnBody(snake, candidate);
      }
      food := Some(candidate);
    }

    /** After a meal: half a step faster (capped) when the score is on the level's period. */
    method IncreaseSpeed()
      modifies this`speed, this`clockArmed
      ensures speed == SpeedAfterMeal(old(speed), difficulty, score)
      ensures clockArmed == (old(clockArmed) || speed != old(speed))
    {
      if speed < MaxSpeed {
        var period := SpeedUpPeriod(difficulty);
        if period.Some? && score % period.value == 0 {
          speed := Min(MaxSpeed, speed + 1);
          clockArmed := true;
        }
      }
    }

    /**
     * One tick: latch the pending heading, move the head, end the game on a
     * wall or on any segment but the last, then grow onto food (score +10,
     * new food, maybe faster) or drop the tail.
     */
    method Step(draws: seq<Cell>)
      requires Valid() && clockArmed
      requires var o := Advance(snake, food.value, nextDirection, wallCollisionEnabled, width, height);
        o.Moved? && o.ate ==> FairDraws(draws, o.body, width, height)
      modifies this`direction, this`snake, this`food, this`score, this`speed
      modifies this`clockArmed, this`isGameOver, this`highScore
      ensures Valid()
      ensures direction == old(nextDirection)
      ensures var o := Advance(old(snake), old(food).value, old(nextDirection), wallCollisionEnabled, width, height);
        match o
        case Crash =>
          && snake == old(snake) && food == old(food) && score == old(score) && speed == old(speed)
          && isGameOver && !clockArmed
          && highScore == (if score > old(highScore) then score else old(highScore))
        case Moved(body, ate) =>
          && snake == body && !isGameOver && clockArmed && highScore == old(highScore)
          && score == old(score) + (if ate then 10 else 0)
          && food == (if ate then Some(draws[FirstFree(draws, body)]) else old(food))
          && speed == (if ate then SpeedAfterMeal(old(speed), difficulty, score) else old(speed))
    {
      direction := nextDirection;
      var head := Move(snake[0], direction);
      if wallCollisionEnabled {
        if head.x < 0 || head.x >= width || head.y < 0 || head.y >= height {
          GameOver();
          return;
        }
      } else {
        head := Wrap(head, width, height);
      }
      var hit := CollidesWithBody(snake, head);
      if hit {
        GameOver();
        return;
      }
      MoveOnto(head, draws);
    }

    /**
     * The second half of a tick, once the new head is known to be free: the
     * head is prepended; on food the score rises, new food is drawn and the
     * speed may rise, otherwise the tail is dropped.
     */
    method MoveOnto(head: Cell, draws: seq<Cell>)
      requires Board() && !isGameOver && clockArmed && nextDirection == direction
      requires NextHead(snake[0], direction, wallCollisionEnabled, width, height) == Some(head)
      requires !HitsBody(snake, head)
      requires head == food.value ==> FairDraws(draws, [head] + snake, width, height)
      modifies this`snake, this`food, this`score, this`speed, this`clockArmed
      ensures Valid()
      ensures var o := Advance(old(snake), old(food).value, direction, wallCollisionEnabled, width, height);
        && o == Moved(snake, head == old(food).value) && clockArmed
        && score == old(score) + (if o.ate then 10 else 0)
        && food == (if o.ate then Some(draws[FirstFree(draws, snake)]) else old(food))
        && speed == (if o.ate then SpeedAfterMeal(old(speed), difficulty, score) else old(speed))
    {
      AdvanceKeepsBoard(snake, food.value, direction, wallCollisionEnabled, width, height);
      AdvanceMovesTo(snake, food.value, direction, wallCollisionEnabled, width, height, head);
      var ateFood := head == food.value;
      snake := [head] + snake;
      if ateFood {
        score := score + 10;
        GenerateFood(draws);
        IncreaseSpeed();
      } else {
        snake := snake[..|snake| - 1];
      }
    }

    /** A heading request: `null` is ignored, and so is a 180-degree turn from the current heading. */
    method ChangeDirection(requested: Option<Direction>)
      requires Valid()
      modifies this`nextDirection
      ensures Valid()
      ensures nextDirection ==
        if requested.Some? && !IsReversal(direction, requested.value) then requested.value
        else old(nextDirection)
    {
      if requested.None? {
        return;
      }
      ReversalIsOpposite(direction, requested.value);
      if IsReversal(direction, requested.value) {
        return;
      }
      nextDirection := requested.value;
    }

    /**
     * A key press: Space pauses or resumes a game that is on, R resets, and
     * in an unpaused game an arrow key requests a heading.
     */
    method HandleKeyPress(code: string)
      requires Valid()
      modifies this`isPaused, this`clockArmed, this`isGameOver, this`nextDirection
      ensures Valid()
      ensures code == "Space" && !old(isGameOver) ==>
        && isPaused == !old(isPaused) && clockArmed == !isPaused
        && !isGameOver && nextDirection == old(nextDirection)
      ensures !(code == "Space" && !old(isGameOver)) && code == "KeyR" ==>
        && isGameOver && !isPaused && !clockArmed && nextDirection == old(nextDirection)
      ensures !(code == "Space" && !old(isGameOver)) && code != "KeyR" ==>
        && isPaused == old(isPaused) && clockArmed == old(clockArmed) && isGameOver == old(isGameOver)
        && nextDirection ==
             if !old(isPaused) && !old(isGameOver) && DirectionFromKey(code).Some?
                && !IsReversal(direction, DirectionFromKey(code).value)
             then DirectionFromKey(code).value
             else old(nextDirection)
    {
      if code == "Space" && !isGameOver {
        TogglePause();
        return;
      }
      if code == "KeyR" {
        ResetGame();
        return;
      }
      if isPaused || isGameOver {
        return;
      }
      ChangeDirection(DirectionFromKey(code));
    }

    /** Pause or resume; nothing once the game is over. The clock runs exactly when not paused. */
    method TogglePause()
      requires Valid()
      modifies this`isPaused, this`clockArmed
      ensures Valid()
      ensures old(isGameOver) ==> isPaused == old(isPaused) && clockArmed == old(clockArmed)
      ensures !old(isGameOver) ==> isPaused == !old(isPaused) && clockArmed == !isPaused
    {
      if isGameOver {
        return;
      }
      isPaused := !isPaused;
      if isPaused {
        clockArmed := false;
      } else {
        clockArmed := true;
      }
    }

    /** Stops the clock and ends any game; board, score and high score stay as they are. */
    method ResetGame()
      requires Valid()
      modifies this`clockArmed, this`isGameOver, this`isPaused
      ensures Valid()
      ensures isGameOver && !isPaused && !clockArmed
    {
      clockArmed := false;
      isGameOver := true;
      isPaused := false;
    }

    /** Selects a level: its initial speed applies at once, and the clock restarts in a running game. */
    method UpdateDifficulty(selected: Difficulty)
      requires Valid()
      modifies this`difficulty, this`speed, this`clockArmed
      ensures Valid()
      ensures difficulty == selected && speed == InitialSpeed(selected)
      ensures clockArmed == (old(clockArmed) || (!isGameOver && !isPaused))
    {
      difficulty := selected;
      speed := InitialSpeed(selected);
      if !isGameOver && !isPaused {
        clockArmed := true;
      }
    }

    /** Sets the speed from a whole-number slider value; the clock restarts in a running game. */
    method UpdateSpeed(sliderValue: int)
      requires Valid()
      modifies this`speed, this`clockArmed
      ensures Valid()
      ensures speed == FromSlider(sliderValue)
      ensures clockArmed == (old(clockArmed) || (!isGameOver && !isPaused))
    {
      speed := FromSlider(sliderValue);
      if !isGameOver && !isPaused {
        clockArmed := true;
      }
    }

    method SetWallCollision(enabled: bool)
      requires Valid()
      modifies this`wallCollisionEnabled
      ensures Valid() && wallCollisionEnabled == enabled
    {
      wallCollisionEnabled := enabled;
    }

    /**
     * A new game: the canonical three-segment snake heading right, food on
     * the first free draw, score 0, and the selected level's speed.
     */
    method Init(draws: seq<Cell>)
      requires Valid() && isGameOver
      requires FairDraws(draws, InitialSnake(), width, height)
      modifies this`snake, this`food, this`score, this`direction, this`nextDirection
      modifies this`isGameOver, this`difficulty, this`speed, this`clockArmed
      ensures Valid()
      ensures snake == InitialSnake() && food == Some(draws[FirstFree(draws, InitialSnake())])
      ensures score == 0 && direction == Right && nextDirection == Right && !isGameOver
      ensures difficulty == old(difficulty) && speed == InitialSpeed(difficulty) && clockArmed
    {
      snake := InitialSnake();
      InitialSnakeWellPlaced(width, height);
      GenerateFood(draws);
      score := 0;
      direction := Right;
      nextDirection := Right;
      isGameOver := false;
      UpdateDifficulty(difficulty);
    }

    /**
     * The start button: after a game over, a new game; when paused, resume
     * and nothing else; when running, only restart the clock.
     */
    method StartGame(draws: seq<Cell>)
      requires Valid()
      requires isGameOver ==> FairDraws(draws, InitialSnake(), width, height)
      modifies this`snake, this`food, this`score, this`direction, this`nextDirection
      modifies this`isGameOver, this`isPaused, this`difficulty, this`speed, this`clockArmed
      ensures Valid()
      ensures !isGameOver && !isPaused && clockArmed
      ensures difficulty == old(difficulty)
      ensures old(isGameOver) ==>
        && snake == InitialSnake() && food == Some(draws[FirstFree(draws, InitialSnake())])
        && score == 0 && direction == Right && nextDirection == Right
        && speed == InitialSpeed(difficulty)
      ensures !old(isGameOver) ==>
        && snake == old(snake) && food == old(food) && score == old(score)
        && direction == old(direction) && nextDirection == old(nextDirection) && speed == old(speed)
    {
      if isGameOver {
        Init(draws);
      } else if isPaused {
        TogglePause();
        return;
      }
      clockArmed := true;
      isGameOver := false;
      isPaused := false;
    }

    /**
     * The restart button: reset, then start. Whatever state the previous
     * game ended in, the new one begins from the canonical snake with score 0.
     */
    method Restart(draws: seq<Cell>)
      requires Valid()
      requires FairDraws(draws, InitialSnake(), width, height)
      modifies this`snake, this`food, this`score, this`direction, this`nextDirection
      modifies this`isGameOver, this`isPaused, this`difficulty, this`speed, this`clockArmed
      ensures Valid()
      ensures snake == InitialSnake() && score == 0 && direction == Right && nextDirection == Right
      ensures food == Some(draws[FirstFree(draws, InitialSnake())])
      ensures !isGameOver && !isPaused && clockArmed
      ensures difficulty == old(difficulty) && speed == InitialSpeed(difficulty)
      ensures highScore == old(highScore)
    {
      ResetGame();
      StartGame(draws);
    }
  }
}
