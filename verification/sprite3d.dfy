/**
  The 3D engine's sprite (`Sprite` in graphics/Sprite.rs): a texture or an animator, a
  transform, and an origin given either in pixels (absolute) or as a fraction of the
  current frame's size (relative), never both.

  The animator belongs to code that is not part of this model; it is the opaque state
  `AnimatorState`, and the size of its current frame is a function of that state passed in
  by the caller.
*/
module Sprite3d {
  import opened Basics
  import opened Sdl

  /** The sprite's animator: fresh (`Animator::new`) or loaded from a descriptor file. */
  datatype AnimatorState = NewAnimator | FromFile(path: string)

  class Sprite {
    var tex: Option<Texture>
    var texRect: SdlRect
    var scale: Vec2
    var position: Vec2
    var rotation: real
    var absoluteOrigin: Option<Vec2>
    var relativeOrigin: Option<Vec2>
    var texSize: Vec2
    var anim: AnimatorState
    var animated: bool

    /** Exactly one of the two origins is set, and the recorded texture size is that of the loaded texture. */
    predicate Valid()
      reads this
    {
      && absoluteOrigin.Some? != relativeOrigin.Some?
      && (tex.Some? ==> texSize == Vec2(tex.value.width as real, tex.value.height as real))
    }

    /** `Sprite::new`: no texture, unit scale, absolute origin at zero, not animated. */
    constructor ()
      ensures Valid()
      ensures tex == None && texRect == RectNew(0, 0, 0, 0) && texSize == Zero
      ensures scale == One && position == Zero && rotation == 0.0
      ensures absoluteOrigin == Some(Zero) && relativeOrigin == None
      ensures anim == NewAnimator && !animated
    {
      tex := None;
      texRect := RectNew(0, 0, 0, 0);
      scale := One;
      position := Zero;
      rotation := 0.0;
      absoluteOrigin := Some(Zero);
      relativeOrigin := None;
      texSize := Zero;
      anim := NewAnimator;
      animated := false;
    }

    /**
      `loadTexture`; `loaded` is what the texture loader produced for the path, `None` when it
      failed. A failure drops any earlier texture and changes nothing else; a success shows
      the whole texture and leaves animation mode with a fresh animator.
    */
    method LoadTexture(loaded: Option<Texture>)
      requires Valid()
      modifies this
      ensures Valid()
      ensures tex == loaded
      ensures loaded.None? ==> texRect == old(texRect) && texSize == old(texSize) && anim == old(anim) && animated == old(animated)
      ensures loaded.Some? ==>
        && texSize == Vec2(loaded.value.width as real, loaded.value.height as real)
        && texRect == RectNew(0, 0, loaded.value.width, loaded.value.height)
        && anim == NewAnimator && !animated
      ensures scale == old(scale) && position == old(position) && rotation == old(rotation)
      ensures absoluteOrigin == old(absoluteOrigin) && relativeOrigin == old(relativeOrigin)
    {
      tex := loaded;
      if tex.None? { return; }
      var query := tex.value;
      texSize := Vec2(query.width as real, query.height as real);
      texRect := RectNew(0, 0, query.width, query.height);
      animated := false;
      anim := NewAnimator;
    }

    /** `loadAnimator`: switches to animation mode and drops the texture. */
    method LoadAnimator(path: string)
      requires Valid()
      modifies this
      ensures Valid()
      ensures texRect == RectNew(0, 0, 0, 0) && anim == FromFile(path) && tex == None && animated
      ensures texSize == old(texSize) && scale == old(scale) && position == old(position) && rotation == old(rotation)
      ensures absoluteOrigin == old(absoluteOrigin) && relativeOrigin == old(relativeOrigin)
    {
      texRect := RectNew(0, 0, 0, 0);
      anim := FromFile(path);
      tex := None;
      animated := true;
    }

    /** `getTextureSize`: the loaded texture's size, as recorded when it was loaded; there must be one. */
    function GetTextureSize(): (s: Vec2)
      requires Valid() && tex.Some?
      reads this
      ensures s == texSize
    {
      Vec2(tex.value.width as real, tex.value.height as real)
    }

    /** The size the origin and `scaleToSize` refer to: the animator's current frame when animated, else the texture rectangle. */
    function Bounds(frameOf: AnimatorState -> SdlRect): (b: Vec2)
      reads this
      ensures b.x > 0.0 && b.y > 0.0
    {
      var r := if animated then frameOf(anim) else texRect;
      SizePositive(r);
      r.Size()
    }

    /** `scaleToSize`: the scale that stretches the bounds to `size`. */
    method ScaleToSize(size: Vec2, frameOf: AnimatorState -> SdlRect)
      modifies this`scale
      ensures Bounds(frameOf).Times(scale) == size
      ensures scale == Vec2(size.x / Bounds(frameOf).x, size.y / Bounds(frameOf).y)
    {
      var bounds := Bounds(frameOf);
      scale := Vec2(size.x / bounds.x, size.y / bounds.y);
    }

    /** `getOrigin`: the absolute origin, or the relative one scaled by the bounds. */
    function GetOrigin(frameOf: AnimatorState -> SdlRect): (o: Vec2)
      requires Valid()
      reads this
    {
      if absoluteOrigin.Some? then absoluteOrigin.value
      else Bounds(frameOf).Times(relativeOrigin.value)
    }

    method SetAbsoluteOrigin(p: Vec2)
      requires Valid()
      modifies this`absoluteOrigin, this`relativeOrigin
      ensures Valid() && absoluteOrigin == Some(p) && relativeOrigin == None
      ensures forall frameOf :: GetOrigin(frameOf) == p
    {
      relativeOrigin := None;
      absoluteOrigin := Some(p);
    }

    method SetRelativeOrigin(p: Vec2)
      requires Valid()
      modifies this`absoluteOrigin, this`relativeOrigin
      ensures Valid() && absoluteOrigin == None && relativeOrigin == Some(p)
      ensures forall frameOf :: GetOrigin(frameOf) == Bounds(frameOf).Times(p)
    {
      absoluteOrigin := None;
      relativeOrigin := Some(p);
    }

    /** `moveBy`: adds to the position. */
    method MoveBy(p: Vec2)
      modifies this`position
      ensures position == old(position).Plus(p)
    {
      position := position.Plus(p);
    }

    /** `rotate`: adds to the rotation. */
    method Rotate(angle: real)
      modifies this`rotation
      ensures rotation == old(rotation) + angle
    {
      rotation := rotation + angle;
    }

    /** `scale`: adds to the scale (it does not multiply). */
    method Scale(s: Vec2)
      modifies this`scale
      ensures scale == old(scale).Plus(s)
    {
      scale := scale.Plus(s);
    }

    function GetTextureRect(): SdlRect reads this { texRect }
    function GetPosition(): Vec2 reads this { position }
    function GetScale(): Vec2 reads this { scale }
    function GetRotation(): real reads this { rotation }

    method SetTextureRect(r: SdlRect)
      modifies this`texRect
      ensures GetTextureRect() == r
    {
      texRect := r;
    }

    method SetPosition(p: Vec2)
      modifies this`position
      ensures GetPosition() == p
    {
      position := p;
    }

    method SetScale(factor: Vec2)
      modifies this`scale
      ensures GetScale() == factor
    {
      scale := factor;
    }

    method SetRotation(angle: real)
      modifies this`rotation
      ensures GetRotation() == angle
    {
      rotation := angle;
    }
  }

  /** Relative origins scale with the frame: the centre fraction (0.5, 0.5) of a 4×2 rectangle is the point (2, 1). */
  lemma RelativeOriginExample(s: Sprite, frameOf: AnimatorState -> SdlRect)
    requires s.Valid() && s.absoluteOrigin.None? && s.relativeOrigin == Some(Vec2(0.5, 0.5))
    requires !s.animated && s.texRect == Rect(0, 0, 4, 2)
    ensures s.GetOrigin(frameOf) == Vec2(2.0, 1.0)
  {
  }
}
