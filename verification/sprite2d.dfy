/**
  The 2D engine's sprite (`Sprite` in ae2d/Sprite.rs): a texture, a transform and an
  absolute or relative origin. Unlike the 3D sprite, `getOrigin` hands back the relative
  origin as stored; only drawing multiplies it by the texture rectangle's size.
*/
module Sprite2d {
  import opened Basics
  import opened Sdl

  /** Rust's `f64 as i32` below the saturation bounds: truncation toward zero. */
  function Trunc(r: real): (i: int)
    ensures r >= 0.0 ==> i as real <= r < i as real + 1.0
    ensures r < 0.0 ==> i as real - 1.0 < r <= i as real
  {
    if r >= 0.0 then r.Floor else -((-r).Floor)
  }

  /** One `copy_ex` call and the `set_scale` before it. */
  datatype DrawCall = DrawCall(
    canvasScale: Vec2,
    src: SdlRect,
    dst: SdlRect,
    angle: real,
    center: (int, int),
    flipX: bool,
    flipY: bool)

  function Abs(r: real): real { if r < 0.0 then -r else r }

  class Sprite {
    var tex: Option<Texture>
    var texRect: SdlRect
    var scale: Vec2
    var position: Vec2
    var rotation: real
    var absoluteOrigin: Option<Vec2>
    var relativeOrigin: Option<Vec2>
    var texSize: Vec2
    var animated: bool

    /** Exactly one of the two origins is set, and the recorded texture size is that of the loaded texture. */
    predicate Valid()
      reads this
    {
      && absoluteOrigin.Some? != relativeOrigin.Some?
      && (tex.Some? ==> texSize == Vec2(tex.value.width as real, tex.value.height as real))
    }

    /** `Sprite::new`: no texture, unit scale, absolute origin at zero, not animated. */
    constructor ()
      ensures Valid()
      ensures tex == None && texRect == RectNew(0, 0, 0, 0) && texSize == Zero
      ensures scale == One && position == Zero && rotation == 0.0
      ensures absoluteOrigin == Some(Zero) && relativeOrigin == None && !animated
    {
      tex := None;
      texRect := RectNew(0, 0, 0, 0);
      scale := One;
      position := Zero;
      rotation := 0.0;
      absoluteOrigin := Some(Zero);
      relativeOrigin := None;
      texSize := Zero;
      animated := false;
    }

    /**
      `loadTexture`; `loaded` is what the texture loader produced for the path, `None` when it
      failed. A failure drops any earlier texture and changes nothing else; a success shows
      the whole texture and leaves animation mode.
    */
    method LoadTexture(loaded: Option<Texture>)
      requires Valid()
      modifies this
      ensures Valid()
      ensures tex == loaded
      ensures loaded.None? ==> texRect == old(texRect) && texSize == old(texSize) && animated == old(animated)
      ensures loaded.Some? ==>
        && texSize == Vec2(loaded.value.width as real, loaded.value.height as real)
        && texRect == RectNew(0, 0, loaded.value.width, loaded.value.height)
        && !animated
      ensures scale == old(scale) && position == old(position) && rotation == old(rotation)
      ensures absoluteOrigin == old(absoluteOrigin) && relativeOrigin == old(relativeOrigin)
    {
      tex := loaded;
      if tex.None? { return; }
      var query := tex.value;
      texSize := Vec2(query.width as real, query.height as real);
      texRect := RectNew(0, 0, query.width, query.height);
      animated := false;
    }

    /** The origin `draw` uses: the absolute origin, or the relative one times the texture rectangle's size. */
    function DrawOrigin(): Vec2
      requires Valid()
      reads this
    {
      if absoluteOrigin.Some? then absoluteOrigin.value else relativeOrigin.value.Times(texRect.Size())
    }

    /**
      `draw`: nothing in animation mode (that branch is empty) or without a texture;
      otherwise the texture rectangle is copied to the position minus the origin, both
      truncated to integers, rotated about the origin and mirrored along an axis whose scale
      is negative, after setting the canvas scale to the scale's magnitude: mirroring and
      canvas scale together give back the scale.
    */
    function Draw(): (c: Option<DrawCall>)
      requires Valid()
      reads this
      ensures c.Some? <==> !animated && tex.Some?
      ensures c.Some? ==> c.value.src == texRect && c.value.angle == rotation
      ensures c.Some? ==> c.value.center == (Trunc(DrawOrigin().x), Trunc(DrawOrigin().y))
      ensures c.Some? ==> c.value.dst.x == Trunc(position.x) - Trunc(DrawOrigin().x)
      ensures c.Some? ==> c.value.dst.y == Trunc(position.y) - Trunc(DrawOrigin().y)
      ensures c.Some? ==> c.value.dst.w == texRect.w && c.value.dst.h == texRect.h
      ensures c.Some? ==> (c.value.flipX <==> scale.x < 0.0) && (c.value.flipY <==> scale.y < 0.0)
      ensures c.Some? ==> c.value.canvasScale.x >= 0.0 && c.value.canvasScale.y >= 0.0
      ensures c.Some? ==> (if c.value.flipX then -c.value.canvasScale.x else c.value.canvasScale.x) == scale.x
      ensures c.Some? ==> (if c.value.flipY then -c.value.canvasScale.y else c.value.canvasScale.y) == scale.y
    {
      if animated || tex.None? then None
      else
        var origin := DrawOrigin();
        Some(DrawCall(
          Vec2(Abs(scale.x), Abs(scale.y)),
          texRect,
          RectNew(Trunc(position.x) - Trunc(origin.x), Trunc(position.y) - Trunc(origin.y), texRect.w, texRect.h),
          rotation,
          (Trunc(origin.x), Trunc(origin.y)),
          scale.x < 0.0,
          scale.y < 0.0))
    }

    /** `getTextureSize`: the loaded texture's size, as recorded when it was loaded; there must be one. */
    function GetTextureSize(): (s: Vec2)
      requires Valid() && tex.Some?
      reads this
      ensures s == texSize
    {
      Vec2(tex.value.width as real, tex.value.height as real)
    }

    /** `scaleToSize`: the scale that stretches the texture rectangle to `size`. */
    method ScaleToSize(size: Vec2)
      modifies this`scale
      ensures texRect.Size().Times(scale) == size
      ensures scale == Vec2(size.x / texRect.w as real, size.y / texRect.h as real)
    {
      scale := Vec2(size.x / texRect.w as real, size.y / texRect.h as real);
    }

    /** `getOrigin`: whichever origin is set, as stored. */
    function GetOrigin(): Vec2
      requires Valid()
      reads this
    {
      if absoluteOrigin.Some? then absoluteOrigin.value else relativeOrigin.value
    }

    method SetAbsoluteOrigin(p: Vec2)
      requires Valid()
      modifies this`absoluteOrigin, this`relativeOrigin
      ensures Valid() && absoluteOrigin == Some(p) && relativeOrigin == None
      ensures GetOrigin() == p && DrawOrigin() == p
    {
      relativeOrigin := None;
      absoluteOrigin := Some(p);
    }

    method SetRelativeOrigin(p: Vec2)
      requires Valid()
      modifies this`absoluteOrigin, this`relativeOrigin
      ensures Valid() && absoluteOrigin == None && relativeOrigin == Some(p)
      ensures GetOrigin() == p && DrawOrigin() == p.Times(texRect.Size())
    {
      absoluteOrigin := None;
      relativeOrigin := Some(p);
    }

    function GetTextureRect(): SdlRect reads this { texRect }
    function GetPosition(): Vec2 reads this { position }
    function GetScale(): Vec2 reads this { scale }
    function GetRotation(): real reads this { rotation }

    method SetTextureRect(r: SdlRect)
      modifies this`texRect
      ensures GetTextureRect() == r
    {
      texRect := r;
    }

    method SetPosition(p: Vec2)
      modifies this`position
      ensures GetPosition() == p
    {
      position := p;
    }

    method SetScale(factor: Vec2)
      modifies this`scale
      ensures GetScale() == factor
    {
      scale := factor;
    }

    method SetRotation(angle: real)
      modifies this`rotation
      ensures GetRotation() == angle
    {
      rotation := angle;
    }
  }

  /** Truncation goes toward zero on both sides. */
  lemma TruncExamples()
    ensures Trunc(2.7) == 2 && Trunc(-2.7) == -2 && Trunc(0.5) == 0 && Trunc(-0.5) == 0
  {
  }
}
