/** The pieces of SDL's rendering types the sprites depend on. */
module Sdl {
  import opened Basics

  /** An `sdl2::rect::Rect`: position and unsigned size. */
  datatype Rect = Rect(x: int, y: int, w: nat, h: nat) {
    /** The size as a point (`width() as f32`, `height() as f32`). */
    function Size(): Vec2 { Vec2(w as real, h as real) }
  }

  /** A rectangle as `Rect::new` leaves it: the crate keeps every rectangle non-empty. */
  type SdlRect = r: Rect | r.w >= 1 && r.h >= 1 witness Rect(0, 0, 1, 1)

  /** `Rect::new`: a zero width or height becomes 1. */
  function RectNew(x: int, y: int, w: nat, h: nat): (r: SdlRect)
    ensures r.x == x && r.y == y
    ensures w > 0 ==> r.w == w
    ensures h > 0 ==> r.h == h
    ensures w == 0 ==> r.w == 1
    ensures h == 0 ==> r.h == 1
  {
    Rect(x, y, if w == 0 then 1 else w, if h == 0 then 1 else h)
  }

  /** What `Texture::query` reports for a loaded texture. */
  datatype Texture = Texture(width: nat, height: nat)

  /** Both sizes of every rectangle are positive, so its size can always divide. */
  lemma SizePositive(r: SdlRect)
    ensures r.Size().x > 0.0 && r.Size().y > 0.0
  {
  }
}
