# rusty_pong: game tick and 2D lighting, modelled in Dafny

rusty_pong is a ggez Pong game. A point light follows the ball and the two
rackets cast shadows. This project models the parts of `src/main.rs` that hold
logic, and proves properties of them:

- `prelude.dfy` (`Prelude`): the shared value types. These are vectors, RGBA
  colours, `Option`, and `Scalar`, the value of an `f32` division that may be
  non-finite.
- `game.dfy` (`Game`): the `clamp` helper, `move_racket`, `randomize_vec`,
  `MainState::new` and `MainState::update`. The tick is a pure function from a
  state and a `TickInput` to a new state. The input holds the frame time, the
  drawable size, the keys, the random draws and `cos(ticks / 5)`. The tick is
  built from one function per stage: rackets, ball motion, scoring, wall
  bounce, opponent tracking, the two racket hits, and the light that follows
  the ball.
- `shaders.dfy` (`Shaders`): the logic of the three GLSL fragment shaders.
  - The occlusion pass is an imperative 1024-step march with loop invariants.
    It is proved equal to a first-hit search (`FirstOpaqueFrom`). The sample
    offset `(i / 1024) * dir` is built up one step at a time, and a lemma
    shows the two forms agree.
  - Also modelled: the two-channel texel encoding, the angle wrap, the shadow
    and glow intensities, and GLSL `mix`.

All arithmetic is over `real`. The texture reads, `cos`, `sin`, `atan`,
`length` and `distance` are parameters: functions such as `alphaAt` and
`occlusionAt`, or input numbers such as the polar coordinates of a fragment.

Behaviour of the code worth knowing:

- The shadow pass's `intensity` is the amount of shadow colour. At 1 the
  fragment gets the full shadow colour; it does not keep the underlying colour.
  On a lit fragment this amount grows with distance from the light
  (`ShadowIntensityMonotone`).
- Hit distances are `distance * 0.5` of a sample clamped to the unit square.
  They go up to about 0.707 and are not capped at 0.5.
- `torch.screen_size` is set once, in `MainState::new`, and never changed by a
  tick. `Update` keeps it unchanged.
- A zero-size drawable is not rejected. The light position then becomes
  non-finite (`LightPosition`).
- The secondary channels of the occlusion texel are written but never read:
  both later passes read only the red channel.

## Model

| member | source | states |
|---|---|---|
| `Game.Clamp` | src/main.rs:180-187 | With ordered bounds the result lies in them; a value already in range is kept; the result is always the value or one of the bounds |
| `Game.ClampIdempotent` | src/main.rs:181-187 | With ordered bounds, clamping twice gives the same as clamping once |
| `Game.MoveRacket` | src/main.rs:189-202 | On a screen at least a racket tall, the racket ends in [50, screen_h - 50]; an in-range move is applied exactly; the up key never moves the racket down and the down key never moves it up |
| `Game.RandomizeVec` | src/main.rs:204-215 | Each component keeps its magnitude; the first draw picks the sign of x and the second the sign of y |
| `Game.RandomizeVecCoversAllSigns` | src/main.rs:205-215 | Every one of the four sign combinations comes from some pair of draws |
| `Game.InitialState` | src/main.rs:240-357 | Scores start at 0 and the ball at the centre, with both speed components of magnitude 270; the rackets start at their fixed x; the state starts within bounds |
| `Game.MovePlayers` | src/main.rs:413-416 | Both rackets end within bounds; only their y changes; an in-bounds racket whose keys are up stays put |
| `Game.MoveBallCompose` | src/main.rs:418 | Moving the ball by dt1 and then by dt2 is the same as one move by dt1 + dt2, so the motion does not depend on how time is sliced into frames |
| `Game.MoveBallFollowsVelocity` | src/main.rs:418 | Over a non-negative time step each ball coordinate moves in the direction of its velocity component, and stays put when that component is zero |
| `Game.ScoreLeft` | src/main.rs:420-425 | A ball left of x = 0 gives player 2 exactly one point, returns to the screen centre and is served with both speed components of magnitude 270; otherwise nothing changes |
| `Game.ScoreRight` | src/main.rs:426-431 | A ball right of screen_w gives player 1 exactly one point, returns to the centre and is served again; otherwise nothing changes |
| `Game.BounceWalls` | src/main.rs:432-438 | The ball's y ends in [5, screen_h - 5]; a top clamp leaves vel.y >= 0 and a bottom clamp vel.y <= 0; the vertical speed keeps its magnitude; a ball in range is untouched |
| `Game.TrackOpponent` | src/main.rs:440-450 | The opponent racket ends within bounds and moves towards the ball's side; when a step of PLAYER_SPEED * 0.4 * dt towards that side stays within bounds, it moves by exactly that step; only its y changes |
| `Game.IntersectsIffOverlap` | src/main.rs:452-456 | The four strict comparisons of the hit test hold exactly when the ball's box and the racket's box share an interior point |
| `Game.HitPlayer1` | src/main.rs:452-471 | On overlap with player 1, ball x becomes 30, vel.x becomes abs(vel.x) + 30 (so at least 30), and the light turns blue; y, vel.y and all other fields are unchanged |
| `Game.HitPlayer2` | src/main.rs:472-491 | On overlap with player 2, ball x becomes screen_w - 30, vel.x becomes -abs(vel.x) - 30 (at most -30), and the light turns red; nothing else changes |
| `Game.HitsSeparate` | src/main.rs:458-491 | After a hit, the ball no longer overlaps a racket standing at its start-up x |
| `Game.LightPosition` | src/main.rs:495-502 | The light position maps back to the ball position (x * screen_w + 5 = ball.x, (1 - y) * screen_h + 5 = ball.y); y lies in [0, 1] for an in-bounds ball; a zero screen dimension gives a non-finite coordinate |
| `Game.FollowBall` | src/main.rs:493-502 | The glow has magnitude at most LIGHT_GLOW_FACTOR, so strength + glow stays positive; the light is placed at the ball's light position; nothing else changes |
| `Game.Update` | src/main.rs:409-505 | One tick keeps the ball vertically in bounds on a screen at least a ball tall, and horizontally within [0, screen_w] on a screen at least RACKET_WIDTH * 2 + PADDING wide (scoring re-centres it, hits put it beside a racket); rackets and ball in bounds on one at least a racket tall; each score rises by at most 1 and never falls; racket x never changes; of the light, only its colour (old, blue or red), position and glow change; with the game's strength, the light's power stays positive |
| `Game.UpdateScoring` | src/main.rs:418-431 | Over a tick, player 2 scores exactly when the moved ball is left of the screen, player 1 exactly when it is right of it, and never both |
| `Game.UpdateBounce` | src/main.rs:432-491 | Over a tick, the final ball y and vel.y are those set by the wall bounce, because the racket hits never change them |
| `Game.UpdateLightPosition` | src/main.rs:432-502 | After a tick on a screen at least a ball (10 px) tall, the light position is finite, its y lies in [0, 1], and it is the ball's light position |
| `Shaders.GlslClamp` | src/main.rs:84 | GLSL clamp lands in the bounds and keeps an in-range value |
| `Shaders.ClampAgreesWithGlsl` | src/main.rs:181-187 | The game's clamp and GLSL's min/max clamp agree whenever the bounds are ordered |
| `Shaders.ClampUnit` | src/main.rs:84 | Every sample point lies in the unit square; a point already inside is kept |
| `Shaders.Sample` | src/main.rs:80-84 | Every sample lies in the unit square; step 0 of a light inside the square samples the light itself |
| `Shaders.OffsetClosedForm` | src/main.rs:81-83 | The offset of step i, built up one 1/1024 step at a time, is exactly (i / 1024) * dir |
| `Shaders.FirstOpaqueFrom` | src/main.rs:80-89 | The result is the smallest step at or after k whose sample is opaque, with no opaque step before it; None means no step up to 1024 is opaque |
| `Shaders.EncodeTexel` | src/main.rs:90-91 | The texel is (dist, others, others, 1); `others` is 0 exactly for the no-hit sentinel 1.0 or a zero distance, and equals `dist` otherwise |
| `Shaders.MarchRay` | src/main.rs:76-92 | The loop's early-exit march writes exactly the texel of the first-hit reference definition (`OcclusionTexel` over `FirstOpaqueFrom`) |
| `Shaders.FirstOpaqueFromHit` | src/main.rs:80-89 | From step i on, the march stops at whichever step k is the first opaque one |
| `Shaders.FirstOpaqueFromMiss` | src/main.rs:80-89 | From step i on, a ray with no opaque sample finds nothing |
| `Shaders.FirstOpaqueFromFound` | src/main.rs:80-89 | A ray with an opaque sample at step k stops at k or earlier |
| `Shaders.OcclusionTexelMiss` | src/main.rs:77-91 | With no opaque sample among the 1024 steps, the ray writes (1, 0, 0, 1) |
| `Shaders.OcclusionTexelHit` | src/main.rs:80-89 | When step k is the first opaque sample, the ray writes half the distance from the light to that sample |
| `Shaders.RenderOcclusionMap` | src/main.rs:369-377 | The occlusion pass writes the whole map: one texel per ray, texel i being the first-hit texel of the ray along `dirs[i]` (`OcclusionMap`) |
| `Shaders.EmptySceneMap` | src/main.rs:77-91 | With no opaque foreground texel, every ray writes the sentinel 1 with secondary channels 0 |
| `Shaders.HitAtStart` | src/main.rs:80-90 | A light on an opaque texel hits at step 0 and writes (0, 0, 0, 1): the secondary channel reads as for a miss |
| `Shaders.HitIsNotSentinel` | src/main.rs:84-91 | With distances in the unit square below 2, a ray with any opaque sample never writes the sentinel, so its secondary channel equals its distance |
| `Shaders.WrapTurn` | src/main.rs:119-123 | A raw angle in (-0.5, 0.5] turns wraps into [0, 1); the wrapped value differs from the raw one by exactly 0 or 1 |
| `Shaders.WrapTurnCanonical` | src/main.rs:160-166 | The wrapped angle is the one representative in [0, 1) of the raw angle modulo a whole turn, so -10 and 350 degrees read the same map texel |
| `Shaders.Lerp` | src/main.rs:133 | GLSL mix on one channel returns x at 0 and y at 1, and a * y when mixing from 0 |
| `Shaders.LerpBetween` | src/main.rs:133 | For a factor in [0, 1], mix on one channel lies between its two ends |
| `Shaders.Mix` | src/main.rs:133 | GLSL mix on a vec4 returns x at 0 and y at 1, keeps a shared alpha, and scales y by the factor when mixing from black |
| `Shaders.MixBetween` | src/main.rs:133 | For a factor in [0, 1], mix on a vec4 lies between its two ends channel by channel |
| `Shaders.MixFromBlack` | src/main.rs:174 | Mixing from black with a factor in [0, 0.6] gives each non-negative channel between 0 and 0.6 times its value |
| `Shaders.ShadowIntensity` | src/main.rs:124-132 | The shadow amount lies in [0, 1]; it is 1 beyond the occlusion radius or for non-positive power, and 0 close enough to the light |
| `Shaders.LightIntensity` | src/main.rs:165-173 | The glow amount lies in [0, 0.6]; it is 0 beyond the occlusion radius, positive for positive power inside it, and 0.6 close enough to the light |
| `Shaders.InverseSquareAntitone` | src/main.rs:131 | For non-negative power, p / d^2 does not grow as d^2 grows |
| `Shaders.ShadowIntensityMonotone` | src/main.rs:127-132 | The shadow amount never decreases as the squared distance from the light grows |
| `Shaders.LightIntensityMonotone` | src/main.rs:168-173 | The glow amount never increases as the squared distance from the light grows |
| `Shaders.ShadowLightComplement` | src/main.rs:124-173 | On a lit fragment below the glow cap, shadow amount plus glow amount is exactly 1 |
| `Shaders.ShadowFragment` | src/main.rs:116-134 | The shadow texel is opaque; beyond the occlusion radius it is exactly the shadow colour, whatever the strength and glow |
| `Shaders.ShadowFragmentBounded` | src/main.rs:124-134 | For a shadow colour in the unit cube, the shadow texel lies channel by channel between the shadow colour and white, so multiplicative blending only darkens |
| `Shaders.LightFragment` | src/main.rs:157-175 | The light texel is opaque; beyond the occlusion radius it is black, so additive blending adds nothing there |
| `Shaders.LightFragmentBounded` | src/main.rs:165-175 | For a light colour in the unit cube, each channel of the light texel lies in [0, 0.6 * light channel] |
| `Shaders.UnoccludedFragmentGlows` | src/main.rs:165-173 | A fragment whose ray hit nothing and that lies within 2 of the light is lit: positive power gives it some glow and less than full shadow |
| `Shaders.TickLightsOpenFragments` | src/main.rs:493 | The light that a tick sets up gives positive glow to every unoccluded fragment within reach, whatever the glow phase |

## Left out

- ggez plumbing is not modelled: canvases, clears, `set_canvas`, blend modes, `present`, mesh and text construction, score rendering, the `draw` order, `render_light`'s scaling of the map to the screen, and `main`. These are I/O and GPU calls with nothing to prove.
- The ball's mesh colour is not modelled. It mirrors the light colour, which is modelled.
- Shader compilation and the std140 layout of the `Light` uniform block are not modelled. They belong to a foreign library.
- `texture()`, `cos`, `sin`, `atan`, `radians`/`degrees`, `length` and `distance` are not computed. They are parameters: `alphaAt`, `occlusionAt`, `distance`, the ray directions, the fragment's `Polar` coordinates and `glowCos`.
- f32 rounding is not modelled: arithmetic is over `real`. Non-finite results are modelled only where a zero drawable size would produce them in the light position.
- Randomness, the keyboard and the timer are parameters: `Coins`, `Keys`, `dt` and `glowCos`.
- Game.Update: scores are unbounded integers. The i32 overflow after 2^31 - 1 points (a panic in debug builds, a wrap in release builds) is not modelled.
- Shaders.ShadowFragment: requires a positive squared distance. At the light's own fragment, f32 gives infinity or NaN for `p / (d * d)`.
- Shaders.LightFragment: requires a positive squared distance, for the same reason.
- Shaders.ShadowIntensityMonotone: stated in the squared distance `d * d`, not in `d`. The two order fragments the same way, since distances are non-negative.
- Shaders.LightIntensityMonotone: stated in the squared distance, as above.
- Shaders.RenderOcclusionMap: takes any number of ray directions rather than exactly the 620 texels of `LIGHT_RAY_COUNT`. The mapping from texel coordinate to angle is part of the direction inputs.
- Shaders.GlslClamp: requires ordered bounds. GLSL leaves `clamp` undefined otherwise, and every use in the shaders has constant, ordered bounds.
