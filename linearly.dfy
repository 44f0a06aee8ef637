/**
 * The few operations of the `linearly` vector library that the core calls,
 * given their real-arithmetic meaning. Numbers are exact reals here.
 */
module Linearly {

  datatype Vec2 = Vec2(x: real, y: real)
  datatype Vec3 = Vec3(x: real, y: real, z: real)

  const Zero2: Vec2 := Vec2(0.0, 0.0)

  function Min(a: real, b: real): real { if a <= b then a else b }
  function Max(a: real, b: real): real { if a <= b then b else a }

  /** `clamp(a, lo, hi)`: `a` limited to `[lo, hi]` when `lo <= hi`. */
  function Clamp(a: real, lo: real, hi: real): (r: real)
    requires lo <= hi
    ensures lo <= r <= hi
    ensures lo <= a <= hi ==> r == a
  {
    Min(Max(a, lo), hi)
  }

  /** `Math.floor`, as a number. */
  function Floor(a: real): real { a.Floor as real }

  /** `Math.round`: the nearest integer, halves rounded up. */
  function Round(a: real): real { (a + 0.5).Floor as real }

  /** `lerp(a, b, t)`: the point a fraction `t` of the way from `a` to `b`. */
  function Lerp(a: real, b: real, t: real): real { a + (b - a) * t }

  /** `efit`: the linear map that sends `inMin` to `outMin` and `inMax` to `outMax`. */
  function Efit(a: real, inMin: real, inMax: real, outMin: real, outMax: real): real
    requires inMin != inMax
  {
    outMin + (a - inMin) * (outMax - outMin) / (inMax - inMin)
  }

  function Add2(a: Vec2, b: Vec2): Vec2 { Vec2(a.x + b.x, a.y + b.y) }
  function Sub2(a: Vec2, b: Vec2): Vec2 { Vec2(a.x - b.x, a.y - b.y) }
  function Floor2(a: Vec2): Vec2 { Vec2(Floor(a.x), Floor(a.y)) }
  function Round2(a: Vec2): Vec2 { Vec2(Round(a.x), Round(a.y)) }

  function Clamp2(a: Vec2, lo: Vec2, hi: Vec2): Vec2
    requires lo.x <= hi.x && lo.y <= hi.y
  {
    Vec2(Clamp(a.x, lo.x, hi.x), Clamp(a.y, lo.y, hi.y))
  }

  function Lerp3(a: Vec3, b: Vec3, t: real): Vec3
  {
    Vec3(Lerp(a.x, b.x, t), Lerp(a.y, b.y, t), Lerp(a.z, b.z, t))
  }

  function Efit2(a: Vec2, inMin: Vec2, inMax: Vec2, outMin: Vec2, outMax: Vec2): Vec2
    requires inMin.x != inMax.x && inMin.y != inMax.y
  {
    Vec2(Efit(a.x, inMin.x, inMax.x, outMin.x, outMax.x), Efit(a.y, inMin.y, inMax.y, outMin.y, outMax.y))
  }

  /** The product of two non-negative numbers is non-negative. */
  lemma NonNegProduct(x: real, y: real)
    requires 0.0 <= x && 0.0 <= y
    ensures 0.0 <= x * y
  {
  }
}
