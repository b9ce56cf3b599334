/** Small value types shared by the engine model: an optional value and a 2D vector. */
module Basics {

  /** The usual Some/None wrapper, standing for Rust's Option. */
  datatype Option<+T> = None | Some(value: T) {
    function GetOr(default: T): T {
      match this
      case Some(v) => v
      case None => default
    }
  }

  /** A 2D point or vector with real components (the engines' f32/f64 `Point`, glam's `Vec2`). */
  datatype Vec2 = Vec2(x: real, y: real) {
    /** Component-wise sum (`Point + Point`, `+=`). */
    function Plus(o: Vec2): Vec2 { Vec2(x + o.x, y + o.y) }
    /** Component-wise product (`Point * Point`, `*=`, `multiply`). */
    function Times(o: Vec2): Vec2 { Vec2(x * o.x, y * o.y) }
  }

  const Zero: Vec2 := Vec2(0.0, 0.0)
  const One: Vec2 := Vec2(1.0, 1.0)

  /** An unsigned byte (Rust `u8`). */
  type Byte = x: int | 0 <= x < 256
}
