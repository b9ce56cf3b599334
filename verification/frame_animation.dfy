/**
  Sprite-atlas slicing and timeline playback (the 3D engine's FrameAnimation).

  An `Animation` is a named timeline of frames with a repeat count; an `Animator` owns the
  atlas cells and a list of animations, one of which is current. Elapsed time is given to
  `Update` as a parameter instead of being read from the window's clock.
*/
module FrameAnimation {
  import opened Basics
  import opened Json

  /** One timeline entry: the atlas cell to show and for how long. */
  datatype Frame = Frame(id: Byte, duration: real)

  /** An integer 2D size or position (glam's `IVec2`). */
  datatype IVec2 = IVec2(x: int, y: int)

  /** An atlas cell in pixels: its top-left corner and its width and height. */
  datatype Cell = Cell(x: int, y: int, w: int, h: int)

  /** The rectangle returned when there is nothing to show. */
  const NoCell: Cell := Cell(0, 0, 0, 0)

  /** The part of an animation that playback changes. */
  datatype Playback = Playback(time: real, frame: nat, repeated: int)

  /** The terminal state: a non-zero repeat count that has been reached. */
  predicate Frozen(repeat: int, repeated: int) {
    repeated >= repeat && repeat != 0
  }

  /**
    One call of `Animation::update` with elapsed time `dt`. At most one frame is
    advanced per call. Past the last frame, an endless animation (repeat 0) restarts at
    frame 0 with time 0; any other animation counts one more repetition and stays on
    its last frame. A frozen animation returns before reading its timeline, which may then
    be empty.
  */
  function Step(frames: seq<Frame>, repeat: int, p: Playback, dt: real): (r: Playback)
    requires Frozen(repeat, p.repeated) || (0 < |frames| && p.frame < |frames|)
    ensures p.frame < |frames| ==> r.frame < |frames|
    ensures Frozen(repeat, p.repeated) ==> r == p
    ensures r.frame <= p.frame + 1
    ensures r.repeated == p.repeated || (repeat != 0 && r.repeated == p.repeated + 1 && r.frame == |frames| - 1)
    ensures repeat != 0 ==> p.frame <= r.frame
    ensures repeat == 0 ==> r.repeated == p.repeated
  {
    if Frozen(repeat, p.repeated) then p
    else
      var t := p.time + dt;
      var d := frames[p.frame].duration;
      var t1 := if t >= d then t - d else t;
      var f1 := if t >= d then p.frame + 1 else p.frame;
      if f1 > |frames| - 1 then
        if repeat == 0 then Playback(0.0, 0, p.repeated)
        else Playback(t1, |frames| - 1, p.repeated + 1)
      else Playback(t1, f1, p.repeated)
  }

  /** Inside the timeline, a step either keeps the frame and accumulates `dt`, or moves to the next frame and subtracts exactly the duration of the frame it leaves. */
  lemma StepInside(frames: seq<Frame>, repeat: int, p: Playback, dt: real)
    requires 0 < |frames| && p.frame < |frames| - 1
    requires !Frozen(repeat, p.repeated)
    ensures var r := Step(frames, repeat, p, dt);
      r.repeated == p.repeated &&
      if p.time + dt >= frames[p.frame].duration
      then r.frame == p.frame + 1 && r.time == p.time + dt - frames[p.frame].duration
      else r.frame == p.frame && r.time == p.time + dt
  {
  }

  /** Leaving the last frame of an endless animation wraps to frame 0 and resets the time. */
  lemma StepWraps(frames: seq<Frame>, p: Playback, dt: real)
    requires 0 < |frames| && p.frame == |frames| - 1
    requires p.time + dt >= frames[p.frame].duration
    ensures Step(frames, 0, p, dt) == Playback(0.0, 0, p.repeated)
  {
  }

  /** Leaving the last frame of a counted animation counts a repetition and stays on that frame. */
  lemma StepClamps(frames: seq<Frame>, repeat: int, p: Playback, dt: real)
    requires 0 < |frames| && p.frame == |frames| - 1
    requires !Frozen(repeat, p.repeated) && repeat != 0
    requires p.time + dt >= frames[p.frame].duration
    ensures Step(frames, repeat, p, dt)
         == Playback(p.time + dt - frames[p.frame].duration, |frames| - 1, p.repeated + 1)
  {
  }

  /** A frozen animation is left alone even when its timeline is empty (a file with `"repeat": -1` and no frames). */
  lemma FrozenWithoutFrames(p: Playback, dt: real)
    requires p.repeated >= -1
    ensures Step([], -1, p, dt) == p
  {
  }

  /** A worked example: two half-second frames, 0.6 s elapsed in one call. */
  lemma StepExample()
    ensures Step([Frame(0, 0.5), Frame(1, 0.5)], 0, Playback(0.0, 0, 0), 0.6) == Playback(0.1, 1, 0)
  {
  }

  /** Playback over a series of frames, one `update` per element of `dts`. */
  function Run(frames: seq<Frame>, repeat: int, p: Playback, dts: seq<real>): (r: Playback)
    requires 0 < |frames| && p.frame < |frames|
    ensures r.frame < |frames|
    decreases |dts|
  {
    if dts == [] then p else Run(frames, repeat, Step(frames, repeat, p, dts[0]), dts[1..])
  }

  /** Once frozen, no number of updates changes time, frame or counter. */
  lemma {:induction false} RunFrozen(frames: seq<Frame>, repeat: int, p: Playback, dts: seq<real>)
    requires 0 < |frames| && p.frame < |frames|
    requires Frozen(repeat, p.repeated)
    ensures Run(frames, repeat, p, dts) == p
    decreases |dts|
  {
    if dts != [] {
      RunFrozen(frames, repeat, Step(frames, repeat, p, dts[0]), dts[1..]);
    }
  }

  /** A counted animation never moves back: the frame index never decreases and never wraps. */
  lemma {:induction false} RunMonotone(frames: seq<Frame>, repeat: int, p: Playback, dts: seq<real>)
    requires 0 < |frames| && p.frame < |frames|
    requires repeat != 0
    ensures p.frame <= Run(frames, repeat, p, dts).frame
    ensures p.repeated <= Run(frames, repeat, p, dts).repeated
    decreases |dts|
  {
    if dts != [] {
      RunMonotone(frames, repeat, Step(frames, repeat, p, dts[0]), dts[1..]);
    }
  }

  /** The repetition counter of a positive repeat count never passes that count. */
  lemma {:induction false} RunRepeatedBounded(frames: seq<Frame>, repeat: int, p: Playback, dts: seq<real>)
    requires 0 < |frames| && p.frame < |frames|
    requires 0 < repeat && p.repeated <= repeat
    ensures Run(frames, repeat, p, dts).repeated <= repeat
    decreases |dts|
  {
    if dts != [] {
      RunRepeatedBounded(frames, repeat, Step(frames, repeat, p, dts[0]), dts[1..]);
    }
  }

  /** An endless animation never counts repetitions. */
  lemma {:induction false} RunEndless(frames: seq<Frame>, p: Playback, dts: seq<real>)
    requires 0 < |frames| && p.frame < |frames|
    ensures Run(frames, 0, p, dts).repeated == p.repeated
    decreases |dts|
  {
    if dts != [] {
      RunEndless(frames, Step(frames, 0, p, dts[0]), dts[1..]);
    }
  }

  /** A counted animation reaches its terminal state only on its last frame, and stays there. */
  lemma {:induction false} RunFreezesOnLastFrame(frames: seq<Frame>, repeat: int, p: Playback, dts: seq<real>)
    requires 0 < |frames| && p.frame < |frames|
    requires !Frozen(repeat, p.repeated)
    requires Frozen(repeat, Run(frames, repeat, p, dts).repeated)
    ensures Run(frames, repeat, p, dts).frame == |frames| - 1
    decreases |dts|
  {
    if dts != [] {
      var q := Step(frames, repeat, p, dts[0]);
      if Frozen(repeat, q.repeated) {
        RunFrozen(frames, repeat, q, dts[1..]);
      } else {
        RunFreezesOnLastFrame(frames, repeat, q, dts[1..]);
      }
    }
  }

  // ----- Parsing an animation description -----

  /** A frame entry `{frame, duration}`; a missing or ill-typed value reads as 0. */
  function FrameOf(f: Json): (r: Frame)
    ensures LastValue(Entries(f), "frame").None? ==> r.id == 0
    ensures LastValue(Entries(f), "duration").None? ==> r.duration == 0.0
  {
    var id := match LastValue(Entries(f), "frame") case Some(v) => AsU8(v).GetOr(0) case None => 0;
    var duration := match LastValue(Entries(f), "duration") case Some(v) => AsF32(v).GetOr(0.0) case None => 0.0;
    Frame(id, duration)
  }

  function FramesOf(items: seq<Json>): (r: seq<Frame>)
    ensures |r| == |items|
    ensures forall k :: 0 <= k < |items| ==> r[k] == FrameOf(items[k])
  {
    if items == [] then [] else FramesOf(items[..|items| - 1]) + [FrameOf(items[|items| - 1])]
  }

  /** The name an animation entry list yields: the last `name` string, else empty. */
  function NameOf(es: seq<(string, Json)>): string {
    match LastValue(es, "name") case Some(v) => AsStr(v).GetOr("") case None => ""
  }

  /** The repeat count: the last `repeat` integer, else 0. */
  function RepeatOf(es: seq<(string, Json)>): int {
    match LastValue(es, "repeat") case Some(v) => AsI32(v).GetOr(0) case None => 0
  }

  /** All frames of every `frames` entry, in order. */
  function TimelineOf(es: seq<(string, Json)>): (r: seq<Frame>)
    ensures r == [] <==> forall i :: 0 <= i < |es| && es[i].0 == "frames" ==> Members(es[i].1) == []
  {
    if es == [] then []
    else TimelineOf(es[..|es| - 1])
         + (if es[|es| - 1].0 == "frames" then FramesOf(Members(es[|es| - 1].1)) else [])
  }

  /** Reads one frame entry, the way `Animation::parse` walks its fields. */
  method ReadFrame(f: Json) returns (r: Frame)
    ensures r == FrameOf(f)
  {
    var data := Entries(f);
    var id: Byte, duration := 0, 0.0;
    var k := 0;
    while k < |data|
      invariant 0 <= k <= |data|
      invariant id == match LastValue(data[..k], "frame") case Some(v) => AsU8(v).GetOr(0) case None => 0
      invariant duration == match LastValue(data[..k], "duration") case Some(v) => AsF32(v).GetOr(0.0) case None => 0.0
    {
      LastValueStep(data, k, "frame");
      LastValueStep(data, k, "duration");
      if data[k].0 == "frame" { id := AsU8(data[k].1).GetOr(0); }
      if data[k].0 == "duration" { duration := AsF32(data[k].1).GetOr(0.0); }
      k := k + 1;
    }
    assert data[..k] == data;
    r := Frame(id, duration);
  }

  /** Reads the members of one `frames` array, in order. */
  method ReadFrames(items: seq<Json>) returns (fs: seq<Frame>)
    ensures fs == FramesOf(items)
  {
    fs := [];
    var j := 0;
    while j < |items|
      invariant 0 <= j <= |items|
      invariant fs == FramesOf(items[..j])
    {
      assert items[..j + 1][..j] == items[..j];
      var f := ReadFrame(items[j]);
      fs := fs + [f];
      j := j + 1;
    }
    assert items[..j] == items;
  }

  /** One animation: its timeline and its playback state. */
  class Animation {
    var name: string
    var repeat: int
    var repeated: int
    var frames: seq<Frame>
    var currentTime: real
    var currentFrame: nat

    /** The frame index stays inside the timeline (it is 0 while the timeline is empty). */
    ghost predicate Valid()
      reads this
    {
      currentFrame == 0 || currentFrame < |frames|
    }

    function State(): Playback
      reads this
    {
      Playback(currentTime, currentFrame, repeated)
    }

    /** `Animation::new` */
    constructor ()
      ensures Valid()
      ensures name == "" && repeat == 0 && frames == []
      ensures State() == Playback(0.0, 0, 0)
    {
      name, repeat, repeated, frames := "", 0, 0, [];
      currentTime, currentFrame := 0.0, 0;
    }

    /** The body of `Animator::restart` for one animation: back to the first frame at time 0. */
    method Rewind()
      modifies this
      ensures Valid() && State() == Playback(0.0, 0, old(repeated))
      ensures name == old(name) && frames == old(frames) && repeat == old(repeat)
    {
      currentTime := 0.0;
      currentFrame := 0;
    }

    /** `Animation::parse`: reads name, repeat and the frame list from a JSON object. */
    constructor Parse(base: Json)
      ensures Valid()
      ensures name == NameOf(Entries(base)) && repeat == RepeatOf(Entries(base))
      ensures frames == TimelineOf(Entries(base))
      ensures State() == Playback(0.0, 0, 0)
    {
      var es := Entries(base);
      var n, rep, fs := "", 0, [];
      var i := 0;
      while i < |es|
        invariant 0 <= i <= |es|
        invariant n == NameOf(es[..i]) && rep == RepeatOf(es[..i]) && fs == TimelineOf(es[..i])
      {
        assert es[..i + 1][..i] == es[..i];
        var key, value := es[i].0, es[i].1;
        if key == "name" { n := AsStr(value).GetOr(""); }
        if key == "repeat" { rep := AsI32(value).GetOr(0); }
        if key == "frames" {
          var more := ReadFrames(Members(value));
          fs := fs + more;
        }
        i := i + 1;
      }
      assert es[..i] == es;
      name, repeat, repeated, frames := n, rep, 0, fs;
      currentTime, currentFrame := 0.0, 0;
    }

    /** `Animation::update`: one playback step; the timeline must not be empty unless the animation is frozen. */
    method Update(dt: real)
      requires Valid() && (|frames| > 0 || Frozen(repeat, repeated))
      modifies this
      ensures Valid()
      ensures name == old(name) && repeat == old(repeat) && frames == old(frames)
      ensures State() == Step(frames, repeat, old(State()), dt)
    {
      if repeated >= repeat && repeat != 0 { return; }
      currentTime := currentTime + dt;
      if currentTime >= frames[currentFrame].duration {
        currentTime := currentTime - frames[currentFrame].duration;
        currentFrame := currentFrame + 1;
      }
      if currentFrame > |frames| - 1 {
        if repeat == 0 {
          currentFrame := 0;
          currentTime := 0.0;
        } else {
          repeated := repeated + 1;
        }
      }
      currentFrame := if currentFrame > |frames| - 1 then |frames| - 1 else currentFrame;
    }

    /** `Animation::getCurrentFrame`: the atlas cell id of the frame being shown. */
    function CurrentFrameId(): Byte
      reads this
      requires Valid() && |frames| > 0
    {
      frames[currentFrame].id
    }
  }

  // ----- Atlas slicing -----

  /** Whether `calculateFrames`' two nested loops terminate for this atlas and cell size. */
  predicate SlicingTerminates(size: IVec2, frame: IVec2) {
    size.y <= 0 || (frame.y > 0 && (size.x <= 0 || frame.x > 0))
  }

  /** The offset a slicing loop has reached after `k` passes, starting from 0 and adding `step` each time. */
  function Cursor(step: int, k: nat): int {
    if k == 0 then 0 else Cursor(step, k - 1) + step
  }

  /**
    As written, a slicing loop whose step (the frame's `x` or `y`, 0 when the file leaves it
    out) is not positive, over a positive extent, never leaves its loop: its guard holds after
    any number of passes.
  */
  lemma {:induction false} SliceLoopNeverExits(step: int, extent: int, k: nat)
    requires step <= 0 < extent
    ensures Cursor(step, k) <= 0 < extent
  {
    if k > 0 {
      SliceLoopNeverExits(step, extent, k - 1);
    }
  }

  /** The cells of one row, from column offset `x` on, left to right. */
  function RowCells(size: IVec2, frame: IVec2, x: int, y: int): seq<Cell>
    requires x >= size.x || frame.x > 0
    decreases size.x - x
  {
    if x >= size.x then [] else [Cell(x, y, frame.x, frame.y)] + RowCells(size, frame, x + frame.x, y)
  }

  /** The outer loop terminates from row offset `y` on. */
  predicate RowsTerminate(size: IVec2, frame: IVec2, y: int) {
    y >= size.y || (frame.y > 0 && (size.x <= 0 || frame.x > 0))
  }

  /** The cells of the rows from offset `y` on, top to bottom, each row left to right. */
  function GridCells(size: IVec2, frame: IVec2, y: int): seq<Cell>
    requires RowsTerminate(size, frame, y)
    decreases size.y - y
  {
    if y >= size.y then []
    else RowCells(size, frame, 0, y) + GridCells(size, frame, y + frame.y)
  }

  /** ceil(n / d) for a positive divisor, and 0 for a non-positive extent. */
  function CeilDiv(n: int, d: int): (r: nat)
    requires d > 0
    ensures n <= 0 ==> r == 0
    ensures n > 0 ==> (r - 1) * d < n <= r * d
    decreases n
  {
    if n <= 0 then 0 else 1 + CeilDiv(n - d, d)
  }

  lemma {:induction false} RowCount(size: IVec2, frame: IVec2, x: int, y: int)
    requires frame.x > 0
    ensures |RowCells(size, frame, x, y)| == CeilDiv(size.x - x, frame.x)
    decreases size.x - x
  {
    if x < size.x {
      RowCount(size, frame, x + frame.x, y);
    }
  }

  lemma {:induction false} GridCount(size: IVec2, frame: IVec2, y: int)
    requires frame.x > 0 && frame.y > 0
    ensures |GridCells(size, frame, y)| == CeilDiv(size.x, frame.x) * CeilDiv(size.y - y, frame.y)
    decreases size.y - y
  {
    if y < size.y {
      RowCount(size, frame, 0, y);
      GridCount(size, frame, y + frame.y);
      var c := CeilDiv(size.x, frame.x);
      var r := CeilDiv(size.y - (y + frame.y), frame.y);
      assert CeilDiv(size.y - y, frame.y) == 1 + r;
      assert |GridCells(size, frame, y)| == c + c * r;
      MulSucc(c, r);
    }
  }

  /** Distributes one extra row of `c` cells. */
  lemma MulSucc(c: int, r: int)
    ensures c + c * r == c * (1 + r)
  {
  }

  /** The atlas yields ceil(width / cell width) * ceil(height / cell height) cells. */
  lemma SliceCount(size: IVec2, frame: IVec2)
    requires frame.x > 0 && frame.y > 0
    ensures |GridCells(size, frame, 0)| == CeilDiv(size.x, frame.x) * CeilDiv(size.y, frame.y)
  {
    GridCount(size, frame, 0);
  }

  /** Every cell has the configured cell size and lies at a non-negative offset inside the atlas. */
  lemma {:induction false} GridCellsInside(size: IVec2, frame: IVec2, y: int)
    requires y >= 0 && RowsTerminate(size, frame, y)
    ensures forall c :: c in GridCells(size, frame, y) ==>
      c.w == frame.x && c.h == frame.y && 0 <= c.x < size.x && y <= c.y < size.y
    decreases size.y - y
  {
    if y < size.y {
      RowCellsInside(size, frame, 0, y);
      GridCellsInside(size, frame, y + frame.y);
    }
  }

  lemma {:induction false} RowCellsInside(size: IVec2, frame: IVec2, x: int, y: int)
    requires x >= 0 && (x >= size.x || frame.x > 0)
    ensures forall c :: c in RowCells(size, frame, x, y) ==>
      c.w == frame.x && c.h == frame.y && x <= c.x < size.x && c.y == y
    decreases size.x - x
  {
    if x < size.x {
      RowCellsInside(size, frame, x + frame.x, y);
    }
  }

  /** Finds the first animation other than the current one that carries `name`. */
  function SwitchTarget(names: seq<string>, name: string, current: nat, from: nat): (r: Option<nat>)
    requires from <= |names|
    ensures r.Some? ==> from <= r.value < |names| && names[r.value] == name && r.value != current
    ensures r.Some? ==> forall j :: from <= j < r.value ==> names[j] != name || j == current
    ensures r.None? ==> forall j :: from <= j < |names| ==> names[j] != name || j == current
    decreases |names| - from
  {
    if from == |names| then None
    else if names[from] == name && current != from then Some(from)
    else SwitchTarget(names, name, current, from + 1)
  }

  /** The animation player of one sprite. */
  class Animator {
    var texture: nat
    var size: IVec2
    var frame: IVec2
    var animations: seq<Animation>
    var currentAnimation: nat
    var frames: seq<Cell>

    /** The current index is valid (or 0 with no animations); animations are distinct objects, each valid. */
    ghost predicate Valid()
      reads this, animations
    {
      (currentAnimation == 0 || currentAnimation < |animations|) &&
      (forall i :: 0 <= i < |animations| ==> animations[i].Valid()) &&
      (forall i, j :: 0 <= i < j < |animations| ==> animations[i] != animations[j])
    }

    ghost function Names(): seq<string>
      reads this, animations
    {
      seq(|animations|, i reads this, animations requires 0 <= i < |animations| => animations[i].name)
    }

    /** `Animator::new` */
    constructor ()
      ensures Valid()
      ensures texture == 0 && size == IVec2(0, 0) && frame == IVec2(0, 0)
      ensures animations == [] && currentAnimation == 0 && frames == []
    {
      texture, size, frame := 0, IVec2(0, 0), IVec2(0, 0);
      animations, currentAnimation, frames := [], 0, [];
    }

    /** `Animator::calculateFrames`: slices the atlas into row-major cells, replacing the old list. */
    method CalculateFrames()
      requires SlicingTerminates(size, frame)
      modifies this`frames
      ensures frames == GridCells(size, frame, 0)
    {
      frames := [];
      var y := 0;
      while y < size.y
        invariant y >= 0 && RowsTerminate(size, frame, y)
        invariant frames + GridCells(size, frame, y) == GridCells(size, frame, 0)
        decreases size.y - y
      {
        ghost var rest := GridCells(size, frame, y + frame.y);
        assert GridCells(size, frame, y) == RowCells(size, frame, 0, y) + rest;
        ghost var before := frames;
        SliceRow(y);
        assert frames + rest == before + GridCells(size, frame, y);
        y := y + frame.y;
      }
      assert frames + [] == frames;
    }

    /** The inner loop of `calculateFrames`: appends the cells of the row at offset `y`. */
    method SliceRow(y: int)
      requires size.x <= 0 || frame.x > 0
      modifies this`frames
      ensures frames == old(frames) + RowCells(size, frame, 0, y)
    {
      var x := 0;
      while x < size.x
        invariant x >= 0 && (x >= size.x || frame.x > 0)
        invariant frames + RowCells(size, frame, x, y) == old(frames) + RowCells(size, frame, 0, y)
        decreases size.x - x
      {
        var cell := Cell(x, y, frame.x, frame.y);
        assert RowCells(size, frame, x, y) == [cell] + RowCells(size, frame, x + frame.x, y);
        frames := frames + [cell];
        x := x + frame.x;
      }
    }

    /** `Animator::update`: steps the current animation, leaving every other one untouched. */
    method Update(dt: real)
      requires Valid() && 0 < |animations|
      requires var a := animations[currentAnimation]; 0 < |a.frames| || Frozen(a.repeat, a.repeated)
      modifies animations[currentAnimation]
      ensures Valid()
      ensures var a := animations[currentAnimation];
        a.name == old(a.name) && a.frames == old(a.frames) && a.repeat == old(a.repeat) &&
        a.State() == Step(a.frames, a.repeat, old(a.State()), dt)
    {
      animations[currentAnimation].Update(dt);
    }

    /**
      `Animator::getCurrentFrame`: the cell of the current animation's current frame, or the
      empty rectangle when there are no cells or no animations.
    */
    function CurrentFrame(): (r: Cell)
      reads this, animations
      requires Valid()
      requires 0 < |frames| && 0 < |animations| ==>
        0 < |animations[currentAnimation].frames| &&
        animations[currentAnimation].frames[animations[currentAnimation].currentFrame].id < |frames|
      ensures |frames| == 0 || |animations| == 0 ==> r == NoCell
      ensures 0 < |frames| && 0 < |animations| ==> r in frames
      ensures 0 < |frames| && 0 < |animations| ==>
        var a := animations[currentAnimation];
        r == frames[a.frames[a.currentFrame].id]
    {
      if |frames| == 0 then NoCell
      else if |animations| == 0 then NoCell
      else frames[animations[currentAnimation].CurrentFrameId()]
    }

    /** `Animator::restart`: rewinds every animation without touching its repetition counter. */
    method Restart()
      requires Valid()
      modifies set a | a in animations
      ensures Valid()
      ensures forall i :: 0 <= i < |animations| ==>
        animations[i].State() == Playback(0.0, 0, old(animations[i].repeated)) &&
        animations[i].name == old(animations[i].name) &&
        animations[i].frames == old(animations[i].frames) &&
        animations[i].repeat == old(animations[i].repeat)
    {
      for i := 0 to |animations|
        invariant Valid()
        invariant forall j :: 0 <= j < i ==>
          animations[j].State() == Playback(0.0, 0, old(animations[j].repeated))
        invariant forall j :: i <= j < |animations| ==>
          animations[j].State() == old(animations[j].State())
        invariant forall j :: 0 <= j < |animations| ==>
          animations[j].name == old(animations[j].name) &&
          animations[j].frames == old(animations[j].frames) &&
          animations[j].repeat == old(animations[j].repeat)
      {
        animations[i].Rewind();
      }
    }

    /**
      `Animator::setCurrentAnimation`: switches to the first animation with this name that is
      not already current, then rewinds all animations; a name that no other animation carries
      changes nothing, even when the current one carries it.
    */
    method SetCurrentAnimation(name: string)
      requires Valid()
      modifies this, set a | a in animations
      ensures Valid()
      ensures animations == old(animations) && frames == old(frames)
      ensures size == old(size) && frame == old(frame) && texture == old(texture)
      ensures var t := SwitchTarget(old(Names()), name, old(currentAnimation), 0);
        if t.None? then
          currentAnimation == old(currentAnimation) &&
          forall i :: 0 <= i < |animations| ==> animations[i].State() == old(animations[i].State())
        else
          currentAnimation == t.value &&
          forall i :: 0 <= i < |animations| ==>
            animations[i].State() == Playback(0.0, 0, old(animations[i].repeated))
      ensures forall i :: 0 <= i < |animations| ==>
        animations[i].name == old(animations[i].name) &&
        animations[i].frames == old(animations[i].frames) &&
        animations[i].repeat == old(animations[i].repeat)
    {
      ghost var names := Names();
      for i := 0 to |animations|
        invariant SwitchTarget(names, name, currentAnimation, 0) == SwitchTarget(names, name, currentAnimation, i)
        invariant currentAnimation == old(currentAnimation)
      {
        if animations[i].name == name && currentAnimation != i {
          currentAnimation := i;
          Restart();
          return;
        }
      }
    }
  }
}
