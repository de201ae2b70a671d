/**
 * The Pong game state and its per-tick transition (`MainState::update`),
 * written as pure functions. The keyboard, the frame time, the drawable size,
 * the random number generator and `cos` of the tick count are parameters.
 */
module Game {
  import opened Prelude

  /** Gap between a racket and its edge of the screen. */
  const Padding: real := 10.0
  const RacketHeight: real := 100.0
  const RacketWidth: real := 10.0
  const RacketHeightHalf: real := RacketHeight * 0.5
  const RacketWidthHalf: real := RacketWidth * 0.5
  /** Side of the ball's collision box. */
  const BallSize: real := 10.0
  const BallSizeHalf: real := BallSize * 0.5
  /** Racket speed in pixels per second. */
  const PlayerSpeed: real := 600.0
  /** Magnitude of each velocity component when the ball is served. */
  const BallSpeed: real := 270.0
  /** Fraction of `PlayerSpeed` at which the opponent tracks the ball. */
  const OpponentSpeedFactor: real := 0.4
  /** Horizontal speed added by every racket hit. */
  const HitBoost: real := 30.0

  const LightStrength: real := 0.0005
  const LightGlowFactor: real := 0.000005

  const AmbientColor: Color := Color(0.0, 0.0, 0.0, 1.0)
  /** Light colour at start-up. */
  const Magenta: Color := Color(1.0, 0.0, 1.0, 1.0)
  /** Light colour after player 1 hits the ball. */
  const Blue: Color := Color(0.0, 0.0, 1.0, 1.0)
  /** Light colour after player 2 hits the ball. */
  const Red: Color := Color(1.0, 0.0, 0.0, 1.0)

  /** The light's position in the frame: normalised, origin bottom-left. */
  datatype LightPos = LightPos(x: Scalar, y: Scalar)

  /** The uniform block shared by the three shaders (`Light`). */
  datatype Light = Light(
    lightColor: Color,
    shadowColor: Color,
    pos: LightPos,
    screenSize: Vec2,
    glow: real,
    strength: real)

  /** `MainState` without its meshes, canvases, shaders and background image. */
  datatype GameState = GameState(
    player1: Vec2,
    player2: Vec2,
    ballPos: Vec2,
    ballVel: Vec2,
    score1: int,
    score2: int,
    torch: Light)

  /** Two successive `rng.gen_bool(0.5)` draws. */
  datatype Coins = Coins(first: bool, second: bool)

  /** Which of the four racket keys are held during the tick. */
  datatype Keys = Keys(w: bool, s: bool, up: bool, down: bool)

  /**
   * Everything `update` reads from the `Context`: the frame time, the drawable
   * size, the keys, the random draws of each serve, and `cos(ticks / 5.0)`.
   */
  datatype TickInput = TickInput(
    dt: real,
    screenW: real,
    screenH: real,
    keys: Keys,
    leftServe: Coins,
    rightServe: Coins,
    glowCos: real)

  ghost predicate RacketInBounds(y: real, screenH: real)
  {
    RacketHeightHalf <= y <= screenH - RacketHeightHalf
  }

  ghost predicate BallInBounds(y: real, screenH: real)
  {
    BallSizeHalf <= y <= screenH - BallSizeHalf
  }

  /** The state invariant every tick re-establishes. */
  ghost predicate InBounds(s: GameState, screenH: real)
  {
    RacketInBounds(s.player1.y, screenH)
    && RacketInBounds(s.player2.y, screenH)
    && BallInBounds(s.ballPos.y, screenH)
  }

  /** The in-place `clamp` helper: bounds a value from below, then from above. */
  function Clamp(value: real, low: real, high: real): (r: real)
    ensures r == value || r == low || r == high
    ensures low <= high ==> low <= r <= high
    ensures low <= value <= high ==> r == value
    ensures value < low ==> r == low
    ensures low <= value && high < value ==> r == high
  {
    if value < low then low
    else if value > high then high
    else value
  }

  lemma ClampIdempotent(value: real, low: real, high: real)
    requires low <= high
    ensures Clamp(Clamp(value, low, high), low, high) == Clamp(value, low, high)
  {
  }

  /**
   * `move_racket`: a held key moves the racket by `PlayerSpeed * dt` against
   * `yDir` (the source passes 1.0 for the up key and -1.0 for the down key),
   * then the racket is kept on screen.
   */
  function MoveRacket(y: real, pressed: bool, yDir: real, dt: real, screenH: real): (r: real)
    ensures screenH >= RacketHeight ==> RacketInBounds(r, screenH)
    ensures var target := if pressed then y - PlayerSpeed * dt * yDir else y;
            RacketInBounds(target, screenH) ==> r == target
    ensures pressed && dt >= 0.0 && yDir == 1.0 && RacketInBounds(y, screenH) ==> r <= y
    ensures pressed && dt >= 0.0 && yDir == -1.0 && RacketInBounds(y, screenH) ==> r >= y
  {
    var moved := if pressed then y - PlayerSpeed * dt * yDir else y;
    Clamp(moved, RacketHeightHalf, screenH - RacketHeightHalf)
  }

  /** `randomize_vec`: each coin picks the sign of one component. */
  function RandomizeVec(x: real, y: real, coins: Coins): (v: Vec2)
    ensures Abs(v.x) == Abs(x) && Abs(v.y) == Abs(y)
    ensures x != 0.0 ==> (v.x == x <==> coins.first)
    ensures y != 0.0 ==> (v.y == y <==> coins.second)
  {
    Vec2(if coins.first then x else -x, if coins.second then y else -y)
  }

  /** Every one of the four serve directions is possible. */
  lemma RandomizeVecCoversAllSigns(x: real, y: real, sx: real, sy: real)
    requires sx == 1.0 || sx == -1.0
    requires sy == 1.0 || sy == -1.0
    ensures exists coins :: RandomizeVec(x, y, coins) == Vec2(sx * x, sy * y)
  {
    var coins := Coins(sx == 1.0, sy == 1.0);
    assert RandomizeVec(x, y, coins) == Vec2(sx * x, sy * y);
  }

  /** `MainState::new`, for a drawable of size `screenW` x `screenH`. */
  function InitialState(screenW: real, screenH: real, serve: Coins): (s: GameState)
    ensures s.score1 == 0 && s.score2 == 0
    ensures Abs(s.ballVel.x) == BallSpeed && Abs(s.ballVel.y) == BallSpeed
    ensures s.ballPos.x * 2.0 == screenW && s.ballPos.y * 2.0 == screenH
    ensures s.player1.x == RacketWidthHalf + Padding
    ensures s.player2.x == screenW - RacketWidthHalf - Padding
    ensures screenH >= RacketHeight ==> InBounds(s, screenH)
    ensures s.torch.strength == LightStrength && s.torch.glow == 0.0
  {
    var half := Vec2(screenW * 0.5, screenH * 0.5);
    GameState(
      player1 := Vec2(RacketWidthHalf + Padding, half.y),
      player2 := Vec2(screenW - RacketWidthHalf - Padding, half.y),
      ballPos := half,
      ballVel := RandomizeVec(BallSpeed, BallSpeed, serve),
      score1 := 0,
      score2 := 0,
      torch := Light(
        lightColor := Magenta,
        shadowColor := AmbientColor,
        pos := LightPos(Finite(half.x), Finite(half.y)),
        screenSize := Vec2(screenW, screenH),
        glow := 0.0,
        strength := LightStrength))
  }

  /** The four `move_racket` calls at the start of a tick. */
  function MovePlayers(s: GameState, keys: Keys, dt: real, screenH: real): (r: GameState)
    ensures screenH >= RacketHeight ==>
              RacketInBounds(r.player1.y, screenH) && RacketInBounds(r.player2.y, screenH)
    ensures r == s.(player1 := Vec2(s.player1.x, r.player1.y),
                    player2 := Vec2(s.player2.x, r.player2.y))
    ensures !keys.w && !keys.s && RacketInBounds(s.player1.y, screenH) ==> r.player1 == s.player1
    ensures !keys.up && !keys.down && RacketInBounds(s.player2.y, screenH) ==> r.player2 == s.player2
  {
    var y1 := MoveRacket(MoveRacket(s.player1.y, keys.w, 1.0, dt, screenH), keys.s, -1.0, dt, screenH);
    var y2 := MoveRacket(MoveRacket(s.player2.y, keys.up, 1.0, dt, screenH), keys.down, -1.0, dt, screenH);
    s.(player1 := Vec2(s.player1.x, y1), player2 := Vec2(s.player2.x, y2))
  }

  /** `ball_pos += ball_vel * dt`. */
  function MoveBall(s: GameState, dt: real): (r: GameState)
    ensures r == s.(ballPos := r.ballPos)
    ensures r.ballPos.x - s.ballPos.x == s.ballVel.x * dt
    ensures r.ballPos.y - s.ballPos.y == s.ballVel.y * dt
  {
    s.(ballPos := Vec2(s.ballPos.x + s.ballVel.x * dt, s.ballPos.y + s.ballVel.y * dt))
  }

  /** Two moves of the ball in a row are one move over the summed time. */
  lemma MoveBallCompose(s: GameState, dt1: real, dt2: real)
    ensures MoveBall(MoveBall(s, dt1), dt2) == MoveBall(s, dt1 + dt2)
  {
  }

  /**
   * Over a non-negative time step the ball moves with its velocity: each
   * coordinate changes in the direction of that velocity component, and not
   * at all when the component is zero.
   */
  lemma MoveBallFollowsVelocity(s: GameState, dt: real)
    requires dt >= 0.0
    ensures var p := MoveBall(s, dt).ballPos;
            (s.ballVel.x > 0.0 ==> p.x >= s.ballPos.x)
            && (s.ballVel.x < 0.0 ==> p.x <= s.ballPos.x)
            && (s.ballVel.x == 0.0 ==> p.x == s.ballPos.x)
            && (s.ballVel.y > 0.0 ==> p.y >= s.ballPos.y)
            && (s.ballVel.y < 0.0 ==> p.y <= s.ballPos.y)
            && (s.ballVel.y == 0.0 ==> p.y == s.ballPos.y)
  {
  }

  /** The ball left through the left edge: player 2 scores and the ball is served again. */
  function ScoreLeft(s: GameState, screenW: real, screenH: real, coins: Coins): (r: GameState)
    ensures s.ballPos.x < 0.0 ==>
              r.score2 == s.score2 + 1
              && r.ballPos.x * 2.0 == screenW && r.ballPos.y * 2.0 == screenH
              && Abs(r.ballVel.x) == BallSpeed && Abs(r.ballVel.y) == BallSpeed
    ensures s.ballPos.x >= 0.0 ==> r == s
    ensures r == s.(ballPos := r.ballPos, ballVel := r.ballVel, score2 := r.score2)
  {
    if s.ballPos.x < 0.0 then
      s.(ballPos := Vec2(screenW * 0.5, screenH * 0.5),
         ballVel := RandomizeVec(BallSpeed, BallSpeed, coins),
         score2 := s.score2 + 1)
    else s
  }

  /** The ball left through the right edge: player 1 scores and the ball is served again. */
  function ScoreRight(s: GameState, screenW: real, screenH: real, coins: Coins): (r: GameState)
    ensures s.ballPos.x > screenW ==>
              r.score1 == s.score1 + 1
              && r.ballPos.x * 2.0 == screenW && r.ballPos.y * 2.0 == screenH
              && Abs(r.ballVel.x) == BallSpeed && Abs(r.ballVel.y) == BallSpeed
    ensures s.ballPos.x <= screenW ==> r == s
    ensures r == s.(ballPos := r.ballPos, ballVel := r.ballVel, score1 := r.score1)
  {
    if s.ballPos.x > screenW then
      s.(ballPos := Vec2(screenW * 0.5, screenH * 0.5),
         ballVel := RandomizeVec(BallSpeed, BallSpeed, coins),
         score1 := s.score1 + 1)
    else s
  }

  /** Bounce off the top and bottom walls: clamp y and point the vertical velocity back in. */
  function BounceWalls(s: GameState, screenH: real): (r: GameState)
    ensures screenH >= BallSize ==> BallInBounds(r.ballPos.y, screenH)
    ensures s.ballPos.y < BallSizeHalf ==> r.ballPos.y == BallSizeHalf && r.ballVel.y >= 0.0
    ensures BallSizeHalf <= s.ballPos.y && s.ballPos.y > screenH - BallSizeHalf ==>
              r.ballPos.y == screenH - BallSizeHalf && r.ballVel.y <= 0.0
    ensures BallInBounds(s.ballPos.y, screenH) ==> r == s
    ensures Abs(r.ballVel.y) == Abs(s.ballVel.y)
    ensures r == s.(ballPos := Vec2(s.ballPos.x, r.ballPos.y),
                    ballVel := Vec2(s.ballVel.x, r.ballVel.y))
  {
    if s.ballPos.y < BallSizeHalf then
      s.(ballPos := Vec2(s.ballPos.x, BallSizeHalf),
         ballVel := Vec2(s.ballVel.x, Abs(s.ballVel.y)))
    else if s.ballPos.y > screenH - BallSizeHalf then
      s.(ballPos := Vec2(s.ballPos.x, screenH - BallSizeHalf),
         ballVel := Vec2(s.ballVel.x, -Abs(s.ballVel.y)))
    else s
  }

  /** The opponent's racket steps towards the ball at 40% of the player speed. */
  function TrackOpponent(s: GameState, dt: real, screenH: real): (r: GameState)
    ensures screenH >= RacketHeight ==> RacketInBounds(r.player2.y, screenH)
    ensures r == s.(player2 := Vec2(s.player2.x, r.player2.y))
    ensures dt >= 0.0 && RacketInBounds(s.player2.y, screenH) && s.ballPos.y < s.player2.y ==>
              r.player2.y <= s.player2.y
    ensures dt >= 0.0 && RacketInBounds(s.player2.y, screenH) && s.ballPos.y >= s.player2.y ==>
              r.player2.y >= s.player2.y
    ensures var step := PlayerSpeed * OpponentSpeedFactor * dt;
            var target := if s.ballPos.y < s.player2.y then s.player2.y - step else s.player2.y + step;
            RacketInBounds(target, screenH) ==> r.player2.y == target
  {
    var step := PlayerSpeed * OpponentSpeedFactor * dt;
    var y := if s.ballPos.y < s.player2.y then s.player2.y - step else s.player2.y + step;
    s.(player2 := Vec2(s.player2.x, Clamp(y, RacketHeightHalf, screenH - RacketHeightHalf)))
  }

  /** An axis-aligned box with open interior `(lo.x, hi.x) x (lo.y, hi.y)`. */
  datatype Box = Box(lo: Vec2, hi: Vec2)

  function BallBox(p: Vec2): Box
  {
    Box(Vec2(p.x - BallSizeHalf, p.y - BallSizeHalf), Vec2(p.x + BallSizeHalf, p.y + BallSizeHalf))
  }

  function RacketBox(p: Vec2): Box
  {
    Box(Vec2(p.x - RacketWidthHalf, p.y - RacketHeightHalf), Vec2(p.x + RacketWidthHalf, p.y + RacketHeightHalf))
  }

  ghost predicate Inside(q: Vec2, b: Box)
  {
    b.lo.x < q.x < b.hi.x && b.lo.y < q.y < b.hi.y
  }

  /** Two boxes overlap when some point lies strictly inside both. */
  ghost predicate Overlap(a: Box, b: Box)
  {
    exists q :: Inside(q, a) && Inside(q, b)
  }

  /** The hit test of `update`, as the four strict comparisons the source writes. */
  predicate Intersects(ball: Vec2, racket: Vec2)
  {
    ball.x - BallSizeHalf < racket.x + RacketWidthHalf
    && ball.x + BallSizeHalf > racket.x - RacketWidthHalf
    && ball.y - BallSizeHalf < racket.y + RacketHeightHalf
    && ball.y + BallSizeHalf > racket.y - RacketHeightHalf
  }

  /** The four comparisons are exactly "the ball's box and the racket's box share an interior point". */
  lemma IntersectsIffOverlap(ball: Vec2, racket: Vec2)
    ensures Intersects(ball, racket) <==> Overlap(BallBox(ball), RacketBox(racket))
  {
    var a, b := BallBox(ball), RacketBox(racket);
    if Intersects(ball, racket) {
      var q := Vec2((Max(a.lo.x, b.lo.x) + Min(a.hi.x, b.hi.x)) / 2.0,
                    (Max(a.lo.y, b.lo.y) + Min(a.hi.y, b.hi.y)) / 2.0);
      assert Inside(q, a) && Inside(q, b);
    }
    if Overlap(a, b) {
      var q :| Inside(q, a) && Inside(q, b);
      assert Intersects(ball, racket);
    }
  }

  /** Player 1's racket hit: the ball is put in front of the racket and sent right. */
  function HitPlayer1(s: GameState): (r: GameState)
    ensures Intersects(s.ballPos, s.player1) ==>
              r.ballPos.x == RacketWidth * 2.0 + Padding
              && r.ballVel.x >= HitBoost
              && r.ballVel.x - HitBoost == Abs(s.ballVel.x)
              && r.torch.lightColor == Blue
    ensures !Intersects(s.ballPos, s.player1) ==> r == s
    ensures r == s.(ballPos := Vec2(r.ballPos.x, s.ballPos.y),
                    ballVel := Vec2(r.ballVel.x, s.ballVel.y),
                    torch := s.torch.(lightColor := r.torch.lightColor))
  {
    if Intersects(s.ballPos, s.player1) then
      s.(ballPos := Vec2(RacketWidth * 2.0 + Padding, s.ballPos.y),
         ballVel := Vec2(Abs(s.ballVel.x) + HitBoost, s.ballVel.y),
         torch := s.torch.(lightColor := Blue))
    else s
  }

  /** Player 2's racket hit: the ball is put in front of the racket and sent left. */
  function HitPlayer2(s: GameState, screenW: real): (r: GameState)
    ensures Intersects(s.ballPos, s.player2) ==>
              r.ballPos.x == screenW - RacketWidth * 2.0 - Padding
              && r.ballVel.x <= -HitBoost
              && -r.ballVel.x - HitBoost == Abs(s.ballVel.x)
              && r.torch.lightColor == Red
    ensures !Intersects(s.ballPos, s.player2) ==> r == s
    ensures r == s.(ballPos := Vec2(r.ballPos.x, s.ballPos.y),
                    ballVel := Vec2(r.ballVel.x, s.ballVel.y),
                    torch := s.torch.(lightColor := r.torch.lightColor))
  {
    if Intersects(s.ballPos, s.player2) then
      s.(ballPos := Vec2(screenW - RacketWidth * 2.0 - Padding, s.ballPos.y),
         ballVel := Vec2(-Abs(s.ballVel.x) - HitBoost, s.ballVel.y),
         torch := s.torch.(lightColor := Red))
    else s
  }

  /**
   * A hit moves the ball clear of a racket standing at its start-up x, so the
   * same racket cannot hit it again before it moves.
   */
  lemma HitsSeparate(s: GameState, screenW: real)
    ensures s.player1.x == RacketWidthHalf + Padding ==>
              !Intersects(HitPlayer1(s).ballPos, s.player1)
    ensures s.player2.x == screenW - RacketWidthHalf - Padding ==>
              !Intersects(HitPlayer2(s, screenW).ballPos, s.player2)
  {
  }

  /**
   * Where the light sits for a ball at `ball`: the ball's drawn centre,
   * normalised by the drawable size, with y flipped so that the origin is the
   * bottom-left corner.
   */
  function LightPosition(ball: Vec2, screenW: real, screenH: real): (p: LightPos)
    ensures p.x.Finite? <==> screenW != 0.0
    ensures p.y.Finite? <==> screenH != 0.0
    ensures p.x.Finite? ==> p.x.value * screenW + BallSizeHalf == ball.x
    ensures p.y.Finite? ==> (1.0 - p.y.value) * screenH + BallSizeHalf == ball.y
    ensures screenH > 0.0 && BallInBounds(ball.y, screenH) ==> 0.0 <= p.y.value <= 1.0
  {
    var ty := match Quotient(ball.y - BallSizeHalf, screenH)
              case Finite(v) => Finite(0.5 + 0.5 - v)
              case NonFinite => NonFinite;
    LightPos(Quotient(ball.x - BallSizeHalf, screenW), ty)
  }

  /**
   * The end of a tick: the glow phase is set and the light follows the ball.
   * `glowCos` stands for `cos(ticks / LIGHT_GLOW_RATE)`.
   */
  function FollowBall(s: GameState, screenW: real, screenH: real, glowCos: real): (r: GameState)
    ensures r == s.(torch := s.torch.(pos := r.torch.pos, glow := r.torch.glow))
    ensures r.torch.pos == LightPosition(s.ballPos, screenW, screenH)
    ensures -1.0 <= glowCos <= 1.0 ==> Abs(r.torch.glow) <= LightGlowFactor
    ensures -1.0 <= glowCos <= 1.0 && s.torch.strength == LightStrength ==>
              r.torch.strength + r.torch.glow > 0.0
  {
    s.(torch := s.torch.(pos := LightPosition(s.ballPos, screenW, screenH),
                         glow := LightGlowFactor * glowCos))
  }

  /** Rackets moved, ball moved, points scored and the ball served again where it left. */
  function Served(s: GameState, inp: TickInput): GameState
  {
    var moved := MoveBall(MovePlayers(s, inp.keys, inp.dt, inp.screenH), inp.dt);
    ScoreRight(ScoreLeft(moved, inp.screenW, inp.screenH, inp.leftServe),
               inp.screenW, inp.screenH, inp.rightServe)
  }

  /** `MainState::update`: one simulation tick. */
  function Update(s: GameState, inp: TickInput): (r: GameState)
    ensures inp.screenH >= RacketHeight ==> InBounds(r, inp.screenH)
    ensures inp.screenH >= BallSize ==> BallInBounds(r.ballPos.y, inp.screenH)
    ensures inp.screenW >= RacketWidth * 2.0 + Padding ==> 0.0 <= r.ballPos.x <= inp.screenW
    ensures s.score1 <= r.score1 <= s.score1 + 1
    ensures s.score2 <= r.score2 <= s.score2 + 1
    ensures r.player1.x == s.player1.x && r.player2.x == s.player2.x
    ensures r.torch == s.torch.(lightColor := r.torch.lightColor, pos := r.torch.pos, glow := r.torch.glow)
    ensures r.torch.lightColor in {s.torch.lightColor, Blue, Red}
    ensures -1.0 <= inp.glowCos <= 1.0 ==> Abs(r.torch.glow) <= LightGlowFactor
    ensures -1.0 <= inp.glowCos <= 1.0 && s.torch.strength == LightStrength ==>
              r.torch.strength + r.torch.glow > 0.0
  {
    var bounced := BounceWalls(Served(s, inp), inp.screenH);
    var hit := HitPlayer2(HitPlayer1(TrackOpponent(bounced, inp.dt, inp.screenH)), inp.screenW);
    FollowBall(hit, inp.screenW, inp.screenH, inp.glowCos)
  }

  /**
   * Scoring over a whole tick: player 2 scores exactly when the moved ball is
   * left of the screen, player 1 exactly when it is right of it, and never both.
   */
  lemma UpdateScoring(s: GameState, inp: TickInput)
    requires inp.screenW >= 0.0
    ensures var x := MoveBall(MovePlayers(s, inp.keys, inp.dt, inp.screenH), inp.dt).ballPos.x;
            (Update(s, inp).score2 == s.score2 + 1 <==> x < 0.0)
            && (Update(s, inp).score1 == s.score1 + 1 <==> x > inp.screenW)
    ensures Update(s, inp).score1 == s.score1 || Update(s, inp).score2 == s.score2
  {
    var moved := MoveBall(MovePlayers(s, inp.keys, inp.dt, inp.screenH), inp.dt);
    var left := ScoreLeft(moved, inp.screenW, inp.screenH, inp.leftServe);
    assert moved.ballPos.x < 0.0 ==> left.ballPos.x <= inp.screenW;
    assert Served(s, inp).score1 == Update(s, inp).score1;
    assert Served(s, inp).score2 == Update(s, inp).score2;
  }

  /**
   * Over a whole tick, the wall bounce decides the ball's final y and the sign
   * of its vertical velocity: the racket hits change neither.
   */
  lemma UpdateBounce(s: GameState, inp: TickInput)
    ensures var b := BounceWalls(Served(s, inp), inp.screenH);
            Update(s, inp).ballPos.y == b.ballPos.y && Update(s, inp).ballVel.y == b.ballVel.y
    ensures var y := Served(s, inp).ballPos.y;
            y < BallSizeHalf ==> Update(s, inp).ballVel.y >= 0.0
    ensures var y := Served(s, inp).ballPos.y;
            BallSizeHalf <= y && y > inp.screenH - BallSizeHalf ==> Update(s, inp).ballVel.y <= 0.0
  {
  }

  /**
   * After a tick on a screen at least as tall as the ball, the light's
   * vertical position lies in [0, 1], and both coordinates map back to the
   * ball's position.
   */
  lemma UpdateLightPosition(s: GameState, inp: TickInput)
    requires inp.screenW != 0.0
    requires inp.screenH >= BallSize
    ensures var r := Update(s, inp);
            r.torch.pos == LightPosition(r.ballPos, inp.screenW, inp.screenH)
            && r.torch.pos.x.Finite? && r.torch.pos.y.Finite?
            && 0.0 <= r.torch.pos.y.value <= 1.0
  {
    var bounced := BounceWalls(Served(s, inp), inp.screenH);
    var hit := HitPlayer2(HitPlayer1(TrackOpponent(bounced, inp.dt, inp.screenH)), inp.screenW);
    assert hit.ballPos.y == bounced.ballPos.y;
    assert Update(s, inp) == FollowBall(hit, inp.screenW, inp.screenH, inp.glowCos);
  }
}
