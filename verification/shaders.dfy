/**
 * The logic of the three fragment shaders that light the scene.
 *
 * The occlusion pass marches one ray per texel of a 1D map and records how far
 * the ray travels before it meets an opaque foreground texel. The shadow and
 * light passes then turn each screen fragment into polar coordinates around
 * the light, read the map at the fragment's angle, and decide whether the
 * fragment is lit. Texture reads and the transcendental functions (`cos`,
 * `sin`, `atan`, `length`, `distance`) are parameters of the model.
 */
module Shaders {
  import opened Prelude
  import Game

  /** Steps each ray takes, each of length 1/1024 of the unit square. */
  const MarchSteps: nat := 1024
  /** A foreground texel occludes when its alpha exceeds this. */
  const OpaqueAlpha: real := 0.8
  /** Distance written by a ray that meets nothing. */
  const NoHit: real := 1.0
  /** The light pass never adds more than this fraction of the light colour. */
  const GlowCap: real := 0.6

  const White: Color := Color(1.0, 1.0, 1.0, 1.0)
  const Black: Color := Color(0.0, 0.0, 0.0, 1.0)

  /** GLSL `clamp`, defined by the language as `min(max(x, lo), hi)`. */
  function GlslClamp(x: real, lo: real, hi: real): (r: real)
    requires lo <= hi
    ensures lo <= r <= hi
    ensures lo <= x <= hi ==> r == x
    ensures x <= lo ==> r == lo
    ensures hi <= x ==> r == hi
  {
    Min(Max(x, lo), hi)
  }

  /** The game's `clamp` helper and GLSL's `clamp` agree whenever the bounds are ordered. */
  lemma ClampAgreesWithGlsl(value: real, low: real, high: real)
    requires low <= high
    ensures Game.Clamp(value, low, high) == GlslClamp(value, low, high)
  {
  }

  ghost predicate InUnitSquare(p: Vec2)
  {
    0.0 <= p.x <= 1.0 && 0.0 <= p.y <= 1.0
  }

  /** GLSL `clamp(v, 0.0, 1.0)` on a `vec2`, component by component. */
  function ClampUnit(p: Vec2): (q: Vec2)
    ensures InUnitSquare(q)
    ensures InUnitSquare(p) ==> q == p
  {
    Vec2(GlslClamp(p.x, 0.0, 1.0), GlslClamp(p.y, 0.0, 1.0))
  }

  /**
   * The offset `(i / 1024) * dir` of step `i` from the light, built up one
   * step of `dir / 1024` at a time; `OffsetClosedForm` shows that this is the
   * shader's product.
   */
  function Offset(dir: Vec2, i: nat): Vec2
  {
    if i == 0 then Vec2(0.0, 0.0)
    else
      var o := Offset(dir, i - 1);
      Vec2(o.x + dir.x / MarchSteps as real, o.y + dir.y / MarchSteps as real)
  }

  /** Step `i` of a ray lies `i / 1024` of the way along `dir`. */
  lemma {:induction false} OffsetClosedForm(dir: Vec2, i: nat)
    ensures Offset(dir, i) == Vec2((i as real / MarchSteps as real) * dir.x,
                                   (i as real / MarchSteps as real) * dir.y)
  {
    if i > 0 {
      OffsetClosedForm(dir, i - 1);
      StepFraction(i - 1, dir.x);
      StepFraction(i - 1, dir.y);
    }
  }

  lemma StepFraction(j: nat, d: real)
    ensures (j as real / MarchSteps as real) * d + d / MarchSteps as real
            == ((j + 1) as real / MarchSteps as real) * d
  {
  }

  /** The point a ray from `pos` along `dir` samples at step `i`, clamped to the unit square. */
  function Sample(pos: Vec2, dir: Vec2, i: nat): (p: Vec2)
    ensures InUnitSquare(p)
    ensures i == 0 && InUnitSquare(pos) ==> p == pos
  {
    var o := Offset(dir, i);
    ClampUnit(Vec2(pos.x + o.x, pos.y + o.y))
  }

  /** `texture(t_Texture, p).a > 0.8`, with the foreground's alpha channel given as `alphaAt`. */
  predicate Opaque(alphaAt: Vec2 -> real, p: Vec2)
  {
    alphaAt(p) > OpaqueAlpha
  }

  /** The first step at or after `k` whose sample is opaque, if any. */
  function FirstOpaqueFrom(pos: Vec2, dir: Vec2, alphaAt: Vec2 -> real, k: nat): (r: Option<nat>)
    requires k <= MarchSteps
    ensures r.Some? ==>
              k <= r.value < MarchSteps
              && Opaque(alphaAt, Sample(pos, dir, r.value))
              && forall j :: k <= j < r.value ==> !Opaque(alphaAt, Sample(pos, dir, j))
    ensures r.None? ==>
              forall j :: k <= j < MarchSteps ==> !Opaque(alphaAt, Sample(pos, dir, j))
    decreases MarchSteps - k
  {
    if k == MarchSteps then None
    else if Opaque(alphaAt, Sample(pos, dir, k)) then Some(k)
    else FirstOpaqueFrom(pos, dir, alphaAt, k + 1)
  }

  /** The first opaque step of the whole ray, if any. */
  function FirstOpaque(pos: Vec2, dir: Vec2, alphaAt: Vec2 -> real): Option<nat>
  {
    FirstOpaqueFrom(pos, dir, alphaAt, 0)
  }

  /** The texel the occlusion pass writes for a ray that stopped at distance `dist`. */
  function EncodeTexel(dist: real): (t: Color)
    ensures t.r == dist && t.a == 1.0 && t.g == t.b
    ensures t.g == 0.0 <==> dist == NoHit || dist == 0.0
    ensures t.g != 0.0 ==> t.g == dist
  {
    var others := if dist == NoHit then 0.0 else dist;
    Color(dist, others, others, 1.0)
  }

  /**
   * What the occlusion pass writes for one ray: half the distance from the
   * light to the first opaque sample, or the no-hit sentinel.
   * `distance` stands for GLSL's `distance`.
   */
  function OcclusionTexel(pos: Vec2, dir: Vec2, alphaAt: Vec2 -> real,
                          distance: (Vec2, Vec2) -> real): Color
  {
    match FirstOpaque(pos, dir, alphaAt)
    case Some(k) => EncodeTexel(distance(pos, Sample(pos, dir, k)) * 0.5)
    case None => EncodeTexel(NoHit)
  }

  /**
   * The occlusion shader's loop for one ray: march outwards and stop at the
   * first opaque sample.
   */
  method MarchRay(pos: Vec2, dir: Vec2, alphaAt: Vec2 -> real, distance: (Vec2, Vec2) -> real)
    returns (t: Color)
    ensures t == OcclusionTexel(pos, dir, alphaAt, distance)
  {
    var dist := NoHit;
    var i := 0;
    while i < MarchSteps
      invariant 0 <= i <= MarchSteps
      invariant FirstOpaque(pos, dir, alphaAt) == FirstOpaqueFrom(pos, dir, alphaAt, i)
    {
      var p := Sample(pos, dir, i);
      if alphaAt(p) > OpaqueAlpha {
        dist := distance(pos, p) * 0.5;
        break;
      }
      i := i + 1;
    }
    var others := if dist == NoHit then 0.0 else dist;
    t := Color(dist, others, others, 1.0);
  }

  /**
   * From step `i` on, a ray none of whose samples is opaque finds nothing;
   * a consequence of `FirstOpaqueFrom`'s contract.
   */
  lemma FirstOpaqueFromMiss(pos: Vec2, dir: Vec2, alphaAt: Vec2 -> real, i: nat)
    requires i <= MarchSteps
    requires forall j :: i <= j < MarchSteps ==> !Opaque(alphaAt, Sample(pos, dir, j))
    ensures FirstOpaqueFrom(pos, dir, alphaAt, i) == None
  {
  }

  /** From step `i` on, the march stops at the first opaque step `k`, whichever it is. */
  lemma FirstOpaqueFromHit(pos: Vec2, dir: Vec2, alphaAt: Vec2 -> real, i: nat, k: nat)
    requires i <= k < MarchSteps && Opaque(alphaAt, Sample(pos, dir, k))
    requires forall j :: i <= j < k ==> !Opaque(alphaAt, Sample(pos, dir, j))
    ensures FirstOpaqueFrom(pos, dir, alphaAt, i) == Some(k)
  {
  }

  /** From step `i` on, a ray with an opaque sample at step `k` stops at `k` or earlier. */
  lemma FirstOpaqueFromFound(pos: Vec2, dir: Vec2, alphaAt: Vec2 -> real, i: nat, k: nat)
    requires i <= k < MarchSteps && Opaque(alphaAt, Sample(pos, dir, k))
    ensures FirstOpaqueFrom(pos, dir, alphaAt, i).Some?
    ensures FirstOpaqueFrom(pos, dir, alphaAt, i).value <= k
  {
  }

  /** A ray none of whose 1024 samples is opaque writes the sentinel texel (1, 0, 0, 1). */
  lemma OcclusionTexelMiss(pos: Vec2, dir: Vec2, alphaAt: Vec2 -> real, distance: (Vec2, Vec2) -> real)
    requires forall i :: 0 <= i < MarchSteps ==> !Opaque(alphaAt, Sample(pos, dir, i))
    ensures OcclusionTexel(pos, dir, alphaAt, distance) == Color(NoHit, 0.0, 0.0, 1.0)
  {
    FirstOpaqueFromMiss(pos, dir, alphaAt, 0);
  }

  /**
   * A ray whose first opaque sample is step `k` writes half the distance
   * from the light to that sample.
   */
  lemma OcclusionTexelHit(pos: Vec2, dir: Vec2, alphaAt: Vec2 -> real, distance: (Vec2, Vec2) -> real, k: nat)
    requires k < MarchSteps && Opaque(alphaAt, Sample(pos, dir, k))
    requires forall j :: 0 <= j < k ==> !Opaque(alphaAt, Sample(pos, dir, j))
    ensures OcclusionTexel(pos, dir, alphaAt, distance).r == distance(pos, Sample(pos, dir, k)) * 0.5
  {
    FirstOpaqueFromHit(pos, dir, alphaAt, 0, k);
  }

  /**
   * The occlusion map as a whole: texel `i` is the texel of the ray along
   * `dirs[i]`, which stands for `(cos θ, sin θ)` at the angle of texel `i`.
   */
  function OcclusionMap(pos: Vec2, dirs: seq<Vec2>, alphaAt: Vec2 -> real,
                        distance: (Vec2, Vec2) -> real): seq<Color>
  {
    seq(|dirs|, i requires 0 <= i < |dirs| => OcclusionTexel(pos, dirs[i], alphaAt, distance))
  }

  /** Marching one more direction appends that ray's texel to the map. */
  lemma OcclusionMapSnoc(pos: Vec2, dirs: seq<Vec2>, d: Vec2, alphaAt: Vec2 -> real,
                         distance: (Vec2, Vec2) -> real)
    ensures OcclusionMap(pos, dirs + [d], alphaAt, distance)
            == OcclusionMap(pos, dirs, alphaAt, distance) + [OcclusionTexel(pos, d, alphaAt, distance)]
  {
  }

  /** The whole occlusion pass: one march per texel of the map. */
  method RenderOcclusionMap(pos: Vec2, dirs: seq<Vec2>, alphaAt: Vec2 -> real,
                            distance: (Vec2, Vec2) -> real)
    returns (m: seq<Color>)
    ensures m == OcclusionMap(pos, dirs, alphaAt, distance)
  {
    m := [];
    var i := 0;
    while i < |dirs|
      invariant 0 <= i <= |dirs|
      invariant m == OcclusionMap(pos, dirs[..i], alphaAt, distance)
    {
      var t := MarchRay(pos, dirs[i], alphaAt, distance);
      assert dirs[..i + 1] == dirs[..i] + [dirs[i]];
      OcclusionMapSnoc(pos, dirs[..i], dirs[i], alphaAt, distance);
      m := m + [t];
      i := i + 1;
    }
    assert dirs[..i] == dirs;
  }

  /** With no opaque foreground texel, every ray reports the sentinel and a zero secondary channel. */
  lemma EmptySceneMap(pos: Vec2, dir: Vec2, alphaAt: Vec2 -> real, distance: (Vec2, Vec2) -> real)
    requires forall q :: alphaAt(q) <= OpaqueAlpha
    ensures OcclusionTexel(pos, dir, alphaAt, distance) == Color(NoHit, 0.0, 0.0, 1.0)
  {
  }

  /**
   * A light standing on an opaque texel hits at step 0, at distance 0: its
   * texel's secondary channel is 0, as for a ray that hits nothing, and only
   * the primary channel (0 against the sentinel 1) tells the two apart.
   */
  lemma HitAtStart(pos: Vec2, dir: Vec2, alphaAt: Vec2 -> real, distance: (Vec2, Vec2) -> real)
    requires InUnitSquare(pos)
    requires Opaque(alphaAt, pos)
    requires distance(pos, pos) == 0.0
    ensures OcclusionTexel(pos, dir, alphaAt, distance) == Color(0.0, 0.0, 0.0, 1.0)
  {
    assert Sample(pos, dir, 0) == pos;
  }

  /**
   * When every point of the unit square is closer than 2 to the light (as with
   * a true Euclidean distance, at most the square root of 2), a ray with any
   * opaque sample never writes the sentinel: the secondary channel then
   * carries the hit distance.
   */
  lemma HitIsNotSentinel(pos: Vec2, dir: Vec2, alphaAt: Vec2 -> real, distance: (Vec2, Vec2) -> real, k: nat)
    requires forall q :: InUnitSquare(q) ==> 0.0 <= distance(pos, q) < 2.0
    requires k < MarchSteps && Opaque(alphaAt, Sample(pos, dir, k))
    ensures var t := OcclusionTexel(pos, dir, alphaAt, distance);
            0.0 <= t.r < NoHit && t.g == t.r
  {
    FirstOpaqueFromFound(pos, dir, alphaAt, 0, k);
    var h := FirstOpaque(pos, dir, alphaAt).value;
    assert InUnitSquare(Sample(pos, dir, h));
  }

  /**
   * The shadow and light shaders' angle: `atan(y, x)` in turns lies in
   * (-0.5, 0.5]; negative turns are moved up by one.
   */
  function WrapTurn(turn: real): (w: real)
    ensures -0.5 < turn <= 0.5 ==> 0.0 <= w < 1.0
    ensures w - turn == 0.0 || w - turn == 1.0
  {
    if turn < 0.0 then turn + 1.0 else turn
  }

  /**
   * The wrapped angle is the one representative of the raw angle, modulo a
   * whole turn, that lies in [0, 1): two fragments whose raw angles differ by
   * a whole turn read the same texel of the occlusion map.
   */
  lemma WrapTurnCanonical(turn: real, k: int)
    requires -0.5 < turn <= 0.5
    requires 0.0 <= turn + k as real < 1.0
    ensures WrapTurn(turn) == turn + k as real
  {
    assert k == 0 || k == 1;
  }

  /** A difference `d` scaled by the weight `a`. */
  function Scale(a: real, d: real): (p: real)
    ensures a == 0.0 ==> p == 0.0
    ensures a == 1.0 ==> p == d
  {
    a * d
  }

  /** A weight in `[0, 1]` shrinks a difference towards zero without changing its sign. */
  lemma ScaleUnit(a: real, d: real)
    requires 0.0 <= a <= 1.0
    ensures d >= 0.0 ==> 0.0 <= Scale(a, d) <= d
    ensures d <= 0.0 ==> d <= Scale(a, d) <= 0.0
  {
  }

  /** GLSL `mix` on one channel: `x * (1 - a) + y * a`, rearranged. */
  function Lerp(x: real, y: real, a: real): (m: real)
    ensures a == 0.0 ==> m == x
    ensures a == 1.0 ==> m == y
    ensures x == 0.0 ==> m == a * y
  {
    x + Scale(a, y - x)
  }

  /** For a weight in `[0, 1]`, `mix` lands between its two ends. */
  lemma LerpBetween(x: real, y: real, a: real)
    requires 0.0 <= a <= 1.0
    ensures Min(x, y) <= Lerp(x, y, a) <= Max(x, y)
  {
    ScaleUnit(a, y - x);
  }

  /** GLSL `mix(x, y, a)` on a `vec4`, channel by channel. */
  function Mix(x: Color, y: Color, a: real): (m: Color)
    ensures a == 0.0 ==> m == x
    ensures a == 1.0 ==> m == y
    ensures x.a == y.a ==> m.a == x.a
    ensures x.r == 0.0 && x.g == 0.0 && x.b == 0.0 ==>
              m.r == a * y.r && m.g == a * y.g && m.b == a * y.b
  {
    Color(Lerp(x.r, y.r, a), Lerp(x.g, y.g, a), Lerp(x.b, y.b, a), Lerp(x.a, y.a, a))
  }

  /** Each channel of a `mix` with weight in `[0, 1]` lies between the two inputs' channels. */
  lemma MixBetween(x: Color, y: Color, a: real)
    requires 0.0 <= a <= 1.0
    ensures Min(x.r, y.r) <= Mix(x, y, a).r <= Max(x.r, y.r)
    ensures Min(x.g, y.g) <= Mix(x, y, a).g <= Max(x.g, y.g)
    ensures Min(x.b, y.b) <= Mix(x, y, a).b <= Max(x.b, y.b)
  {
    LerpBetween(x.r, y.r, a);
    LerpBetween(x.g, y.g, a);
    LerpBetween(x.b, y.b, a);
  }

  /**
   * Mixing from black with a weight in `[0, GlowCap]` gives each non-negative
   * channel of `y` a share of at most `GlowCap`.
   */
  lemma MixFromBlack(y: Color, a: real)
    requires 0.0 <= a <= GlowCap
    requires y.r >= 0.0 && y.g >= 0.0 && y.b >= 0.0
    ensures 0.0 <= Mix(Black, y, a).r <= GlowCap * y.r
    ensures 0.0 <= Mix(Black, y, a).g <= GlowCap * y.g
    ensures 0.0 <= Mix(Black, y, a).b <= GlowCap * y.b
  {
    LerpFromZero(y.r, a, GlowCap);
    LerpFromZero(y.g, a, GlowCap);
    LerpFromZero(y.b, a, GlowCap);
  }

  lemma LerpFromZero(c: real, k: real, cap: real)
    requires c >= 0.0 && 0.0 <= k <= cap
    ensures 0.0 <= Lerp(0.0, c, k) <= cap * c
  {
    assert Lerp(0.0, c, k) == k * c;
  }

  /** How `p / dSq` compares with a bound `c`, for a positive `dSq`. */
  lemma RatioCompare(p: real, dSq: real, c: real)
    requires dSq > 0.0
    ensures p / dSq >= c <==> p >= c * dSq
    ensures p / dSq <= c <==> p <= c * dSq
  {
  }

  /**
   * How much of the shadow colour the shadow pass puts on a fragment at
   * distance `r` from the light, when the map reports occlusion at `occl`.
   * `p` is `strength + glow` and `dSq` the squared aspect-corrected distance
   * (the source's `d * d`).
   */
  function ShadowIntensity(r: real, occl: real, p: real, dSq: real): (k: real)
    requires dSq > 0.0
    ensures 0.0 <= k <= 1.0
    ensures r >= occl ==> k == 1.0
    ensures r < occl && p <= 0.0 ==> k == 1.0
    ensures r < occl && p >= dSq ==> k == 0.0
  {
    RatioCompare(p, dSq, 0.0);
    RatioCompare(p, dSq, 1.0);
    if r < occl then 1.0 - GlslClamp(p / dSq, 0.0, 1.0) else 1.0
  }

  /** How much of the light colour the light pass adds to the same fragment. */
  function LightIntensity(r: real, occl: real, p: real, dSq: real): (k: real)
    requires dSq > 0.0
    ensures 0.0 <= k <= GlowCap
    ensures r >= occl ==> k == 0.0
    ensures r < occl && p <= 0.0 ==> k == 0.0
    ensures r < occl && p > 0.0 ==> k > 0.0
    ensures r < occl && p >= GlowCap * dSq ==> k == GlowCap
  {
    RatioCompare(p, dSq, 0.0);
    RatioCompare(p, dSq, GlowCap);
    if r < occl then GlslClamp(p / dSq, 0.0, GlowCap) else 0.0
  }

  /** For a light of non-negative power, `p / dSq` shrinks as `dSq` grows. */
  lemma InverseSquareAntitone(p: real, dSq1: real, dSq2: real)
    requires p >= 0.0 && 0.0 < dSq1 <= dSq2
    ensures p / dSq2 <= p / dSq1
  {
  }

  /** A lit fragment farther from the light is at least as much in shadow. */
  lemma ShadowIntensityMonotone(r: real, occl: real, p: real, dSq1: real, dSq2: real)
    requires p >= 0.0 && 0.0 < dSq1 <= dSq2
    ensures ShadowIntensity(r, occl, p, dSq1) <= ShadowIntensity(r, occl, p, dSq2)
  {
    InverseSquareAntitone(p, dSq1, dSq2);
  }

  /** A lit fragment farther from the light receives at most as much glow. */
  lemma LightIntensityMonotone(r: real, occl: real, p: real, dSq1: real, dSq2: real)
    requires p >= 0.0 && 0.0 < dSq1 <= dSq2
    ensures LightIntensity(r, occl, p, dSq2) <= LightIntensity(r, occl, p, dSq1)
  {
    InverseSquareAntitone(p, dSq1, dSq2);
  }

  /**
   * Below the glow cap the two passes are complementary on a lit fragment:
   * the light adds exactly what the shadow takes away.
   */
  lemma ShadowLightComplement(r: real, occl: real, p: real, dSq: real)
    requires dSq > 0.0 && r < occl
    requires 0.0 <= p / dSq <= GlowCap
    ensures ShadowIntensity(r, occl, p, dSq) + LightIntensity(r, occl, p, dSq) == 1.0
  {
  }

  /**
   * A fragment in polar coordinates around the light: `turn` is
   * `degrees(atan(rel.y, rel.x)) / 360`, `r` is `length(rel)` and `dSq` the
   * square `d * d` of the distance after scaling both axes by
   * `screenSize / screenSize.y`.
   */
  datatype Polar = Polar(turn: real, r: real, dSq: real)

  /**
   * The occlusion radius a fragment reads from the map: the red channel at
   * its wrapped angle (`occlusionAt`), times two.
   */
  function OcclusionRadius(f: Polar, occlusionAt: real -> real): real
  {
    occlusionAt(WrapTurn(f.turn)) * 2.0
  }

  ghost predicate UnitColor(c: Color)
  {
    0.0 <= c.r <= 1.0 && 0.0 <= c.g <= 1.0 && 0.0 <= c.b <= 1.0
  }

  /** The shadow shader's output for one fragment, drawn with multiplicative blending. */
  function ShadowFragment(f: Polar, occlusionAt: real -> real, u: Game.Light): (c: Color)
    requires f.dSq > 0.0
    ensures c.a == 1.0
    ensures f.r >= OcclusionRadius(f, occlusionAt) ==>
              c == Color(u.shadowColor.r, u.shadowColor.g, u.shadowColor.b, 1.0)
  {
    var intensity := ShadowIntensity(f.r, OcclusionRadius(f, occlusionAt), u.strength + u.glow, f.dSq);
    Mix(White, Color(u.shadowColor.r, u.shadowColor.g, u.shadowColor.b, 1.0), intensity)
  }

  /**
   * With a shadow colour in the unit cube, the shadow pass only ever darkens
   * (multiplies by at most one) and never below the shadow colour.
   */
  lemma ShadowFragmentBounded(f: Polar, occlusionAt: real -> real, u: Game.Light)
    requires f.dSq > 0.0 && UnitColor(u.shadowColor)
    ensures var c := ShadowFragment(f, occlusionAt, u);
            u.shadowColor.r <= c.r <= 1.0 && u.shadowColor.g <= c.g <= 1.0
            && u.shadowColor.b <= c.b <= 1.0
  {
    var intensity := ShadowIntensity(f.r, OcclusionRadius(f, occlusionAt), u.strength + u.glow, f.dSq);
    MixBetween(White, Color(u.shadowColor.r, u.shadowColor.g, u.shadowColor.b, 1.0), intensity);
  }

  /** The light shader's output for one fragment, drawn with additive blending. */
  function LightFragment(f: Polar, occlusionAt: real -> real, u: Game.Light): (c: Color)
    requires f.dSq > 0.0
    ensures c.a == 1.0
    ensures f.r >= OcclusionRadius(f, occlusionAt) ==> c == Black
  {
    var intensity := LightIntensity(f.r, OcclusionRadius(f, occlusionAt), u.strength + u.glow, f.dSq);
    Mix(Black, Color(u.lightColor.r, u.lightColor.g, u.lightColor.b, 1.0), intensity)
  }

  /**
   * With a light colour in the unit cube, the light pass adds a non-negative
   * amount to each channel, at most `GlowCap` times the light colour.
   */
  lemma LightFragmentBounded(f: Polar, occlusionAt: real -> real, u: Game.Light)
    requires f.dSq > 0.0 && UnitColor(u.lightColor)
    ensures var c := LightFragment(f, occlusionAt, u);
            0.0 <= c.r <= GlowCap * u.lightColor.r && 0.0 <= c.g <= GlowCap * u.lightColor.g
            && 0.0 <= c.b <= GlowCap * u.lightColor.b
  {
    var intensity := LightIntensity(f.r, OcclusionRadius(f, occlusionAt), u.strength + u.glow, f.dSq);
    MixFromBlack(Color(u.lightColor.r, u.lightColor.g, u.lightColor.b, 1.0), intensity);
  }

  /**
   * A fragment whose ray met nothing (the map holds the sentinel at its
   * angle) and that lies inside the unit square's reach (r < 2) is lit: with
   * positive light power it receives some glow of the light colour.
   */
  lemma UnoccludedFragmentGlows(f: Polar, occlusionAt: real -> real, u: Game.Light)
    requires f.dSq > 0.0 && f.r < 2.0
    requires occlusionAt(WrapTurn(f.turn)) == NoHit
    requires u.strength + u.glow > 0.0
    ensures LightIntensity(f.r, OcclusionRadius(f, occlusionAt), u.strength + u.glow, f.dSq) > 0.0
    ensures ShadowIntensity(f.r, OcclusionRadius(f, occlusionAt), u.strength + u.glow, f.dSq) < 1.0
  {
  }

  /**
   * The light the game sets up each tick reaches every fragment that no
   * occluder hides: its power stays positive whatever the glow phase.
   */
  lemma TickLightsOpenFragments(s: Game.GameState, inp: Game.TickInput, f: Polar, occlusionAt: real -> real)
    requires s.torch.strength == Game.LightStrength
    requires -1.0 <= inp.glowCos <= 1.0
    requires f.dSq > 0.0 && f.r < 2.0
    requires occlusionAt(WrapTurn(f.turn)) == NoHit
    ensures var u := Game.Update(s, inp).torch;
            LightIntensity(f.r, OcclusionRadius(f, occlusionAt), u.strength + u.glow, f.dSq) > 0.0
  {
    UnoccludedFragmentGlows(f, occlusionAt, Game.Update(s, inp).torch);
  }
}
