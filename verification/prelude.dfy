/**
 * Value types shared by the game logic and the shader logic.
 *
 * The source computes in `f32`; this model computes in `real` and treats
 * rounding as an abstraction. The one place where `f32` semantics matter to
 * the model, a division by a zero screen dimension, is kept visible through
 * `Scalar`.
 */
module Prelude {

  datatype Option<+T> = None | Some(value: T)

  /** A two-component vector: nalgebra's `Point2`/`Vector2`, GLSL's `vec2`. */
  datatype Vec2 = Vec2(x: real, y: real)

  /** An RGBA colour: the source's `[f32; 4]`, GLSL's `vec4`. */
  datatype Color = Color(r: real, g: real, b: real, a: real)

  /**
   * The value of an `f32` quotient: a finite number, or an infinity or NaN,
   * which is what IEEE division by zero yields.
   */
  datatype Scalar = Finite(value: real) | NonFinite

  function Abs(x: real): (r: real)
    ensures r >= 0.0
    ensures r == x || r == -x
  {
    if x < 0.0 then -x else x
  }

  function Min(a: real, b: real): (r: real)
    ensures r <= a && r <= b
    ensures r == a || r == b
  {
    if a <= b then a else b
  }

  function Max(a: real, b: real): (r: real)
    ensures r >= a && r >= b
    ensures r == a || r == b
  {
    if a >= b then a else b
  }

  /** `a / b` as an `f32` division: non-finite exactly when `b` is zero. */
  function Quotient(a: real, b: real): (q: Scalar)
    ensures q.Finite? <==> b != 0.0
    ensures q.Finite? ==> q.value * b == a
  {
    if b == 0.0 then NonFinite else Finite(a / b)
  }
}
