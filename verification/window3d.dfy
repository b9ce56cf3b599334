/**
  The 3D engine's window singleton (`Window` in ae3d/Window.rs), reduced to the state its
  per-frame update and its colour palette keep. SDL is replaced by inputs: the frame's
  polled events, the performance counter and its frequency, and the parsed palette file.
*/
module Window3d {
  import opened Basics
  import opened Json
  import opened Input

  /** An `sdl2::pixels::Color`. */
  datatype Rgba = Rgba(r: Byte, g: Byte, b: Byte, a: Byte)

  /** A named palette entry. */
  datatype Color = Color(name: string, value: Rgba)

  const Black: Rgba := Rgba(0, 0, 0, 255)
  const Transparent: Rgba := Rgba(0, 0, 0, 0)

  // ----- The palette file -----

  predicate IsChannel(k: string) { k == "r" || k == "g" || k == "b" || k == "a" }

  /** Every channel entry of a colour holds a byte; `as_u8().unwrap()` panics on anything else. */
  predicate ChannelsParse(es: seq<(string, Json)>) {
    forall i :: 0 <= i < |es| && IsChannel(es[i].0) ==> AsU8(es[i].1).Some?
  }

  /** A palette file whose loading does not panic. */
  predicate PaletteParses(f: Json) {
    forall i :: 0 <= i < |Entries(f)| ==> ChannelsParse(Entries(Entries(f)[i].1))
  }

  /** One channel entry applied to a colour; other keys leave it as it is. */
  function SetChannel(value: Rgba, key: string, v: Json): (r: Rgba)
    requires IsChannel(key) ==> AsU8(v).Some?
    ensures IsChannel(key) ==> AsU8(v) == Some(if key == "r" then r.r else if key == "g" then r.g else if key == "b" then r.b else r.a)
    ensures (key != "r" ==> r.r == value.r) && (key != "g" ==> r.g == value.g)
    ensures (key != "b" ==> r.b == value.b) && (key != "a" ==> r.a == value.a)
  {
    if key == "r" then value.(r := AsU8(v).value)
    else if key == "g" then value.(g := AsU8(v).value)
    else if key == "b" then value.(b := AsU8(v).value)
    else if key == "a" then value.(a := AsU8(v).value)
    else value
  }

  /** The colour a colour's entries build, starting from opaque black. */
  function ValueOf(es: seq<(string, Json)>): (r: Rgba)
    requires ChannelsParse(es)
    ensures (forall i :: 0 <= i < |es| ==> !IsChannel(es[i].0)) ==> r == Black
  {
    if es == [] then Black
    else
      assert ChannelsParse(es[..|es| - 1]) by {
        assert forall i :: 0 <= i < |es| - 1 ==> es[..|es| - 1][i] == es[i];
      }
      SetChannel(ValueOf(es[..|es| - 1]), es[|es| - 1].0, es[|es| - 1].1)
  }

  /** The channel a colour's entries leave: from the last entry with that key, else the default. */
  function Channel(es: seq<(string, Json)>, key: string, default: Byte): Byte
    requires ChannelsParse(es)
  {
    match LastValue(es, key)
    case Some(v) => AsU8(v).GetOr(default)
    case None => default
  }

  /** Each channel comes from the last entry naming it, and defaults to opaque black. */
  lemma {:induction false} ValueChannels(es: seq<(string, Json)>)
    requires ChannelsParse(es)
    ensures ValueOf(es) == Rgba(Channel(es, "r", 0), Channel(es, "g", 0), Channel(es, "b", 0), Channel(es, "a", 255))
  {
    if es != [] {
      var init := es[..|es| - 1];
      assert ChannelsParse(init) by {
        assert forall i :: 0 <= i < |init| ==> init[i] == es[i];
      }
      ValueChannels(init);
    }
  }

  /** A palette entry: its key names it, and its channels are built by `ValueOf`. */
  function ColorOf(entry: (string, Json)): (c: Color)
    requires ChannelsParse(Entries(entry.1))
    ensures c.name == entry.0
    ensures c.value == Rgba(Channel(Entries(entry.1), "r", 0), Channel(Entries(entry.1), "g", 0),
                            Channel(Entries(entry.1), "b", 0), Channel(Entries(entry.1), "a", 255))
  {
    ValueChannels(Entries(entry.1));
    Color(entry.0, ValueOf(Entries(entry.1)))
  }

  /** The colours of a palette file, in file order. */
  function PaletteOf(f: Json): (p: seq<Color>)
    requires PaletteParses(f)
    ensures |p| == |Entries(f)|
    ensures forall i :: 0 <= i < |p| ==> p[i] == ColorOf(Entries(f)[i])
  {
    seq(|Entries(f)|, i requires 0 <= i < |Entries(f)| => ColorOf(Entries(f)[i]))
  }

  /** Reads one colour entry the way `loadColors` walks it. */
  method ReadColor(entry: (string, Json)) returns (c: Color)
    requires ChannelsParse(Entries(entry.1))
    ensures c == ColorOf(entry)
  {
    var es := Entries(entry.1);
    var value := Black;
    var k := 0;
    while k < |es|
      invariant 0 <= k <= |es|
      invariant ChannelsParse(es[..k])
      invariant value == ValueOf(es[..k])
    {
      assert es[..k + 1][..k] == es[..k];
      assert ChannelsParse(es[..k + 1]);
      var (key, v) := es[k];
      if key == "r" { value := value.(r := AsU8(v).value); }
      if key == "g" { value := value.(g := AsU8(v).value); }
      if key == "b" { value := value.(b := AsU8(v).value); }
      if key == "a" { value := value.(a := AsU8(v).value); }
      k := k + 1;
    }
    assert es[..k] == es;
    c := Color(entry.0, value);
  }

  /** The first palette entry with this name, else transparent black. */
  function FirstColor(palette: seq<Color>, name: string): (c: Rgba)
    ensures (forall i :: 0 <= i < |palette| ==> palette[i].name != name) ==> c == Transparent
    ensures (exists i :: 0 <= i < |palette| && palette[i].name == name) ==>
      exists i :: 0 <= i < |palette| && palette[i] == Color(name, c) &&
        forall j :: 0 <= j < i ==> palette[j].name != name
  {
    if palette == [] then Transparent
    else if palette[0].name == name then palette[0].value
    else
      var c := FirstColor(palette[1..], name);
      assert forall i :: 1 <= i < |palette| ==> palette[i] == palette[1..][i - 1];
      c
  }

  /** Colours loaded later never shadow a name already in the palette. */
  lemma {:induction false} FirstColorAppend(palette: seq<Color>, more: seq<Color>, name: string)
    ensures (exists i :: 0 <= i < |palette| && palette[i].name == name) ==>
      FirstColor(palette + more, name) == FirstColor(palette, name)
    ensures (forall i :: 0 <= i < |palette| ==> palette[i].name != name) ==>
      FirstColor(palette + more, name) == FirstColor(more, name)
  {
    if palette != [] {
      assert (palette + more)[1..] == palette[1..] + more;
      FirstColorAppend(palette[1..], more, name);
      if palette[0].name != name {
        forall i | 0 <= i < |palette[1..]| ensures palette[1..][i] == palette[i + 1] { }
      }
    } else {
      assert palette + more == more;
    }
  }

  // ----- The window -----

  class Window {
    var running: bool
    var keyEvent: Option<KeyEvent>
    var mouseEvent: Option<MouseEvent>
    var lastTime: real
    var currentTime: real
    var deltaTime: real
    var clearColor: Rgba
    var palette: seq<Color>

    /** `Window::default`: running, no events, zero times, black clear colour, empty palette. */
    constructor ()
      ensures running && keyEvent == None && mouseEvent == None
      ensures lastTime == 0.0 && currentTime == 0.0 && deltaTime == 0.0
      ensures clearColor == Black && palette == []
    {
      running := true;
      keyEvent := None;
      mouseEvent := None;
      lastTime := 0.0;
      currentTime := 0.0;
      deltaTime := 0.0;
      clearColor := Black;
      palette := [];
    }

    /**
      `update`: forget the previous frame's records, advance the clock to `counter`, and fold
      the frame's events in order. The frequency of SDL's performance counter is positive.
    */
    method Update(events: seq<Event>, counter: real, frequency: real)
      requires KeysMapped(events) && frequency > 0.0
      modifies this`running, this`keyEvent, this`mouseEvent, this`lastTime, this`currentTime, this`deltaTime
      ensures keyEvent == LastKey(events) && mouseEvent == LastMouse(events)
      ensures running == (old(running) && !HasQuit(events))
      ensures lastTime == old(currentTime) && currentTime == counter
      ensures deltaTime == (counter - old(currentTime)) / frequency
    {
      keyEvent := None;
      mouseEvent := None;
      lastTime := currentTime;
      currentTime := counter;
      deltaTime := (currentTime - lastTime) / frequency;
      ghost var wasRunning := running;
      var i := 0;
      while i < |events|
        invariant 0 <= i <= |events|
        invariant KeysMapped(events[..i])
        invariant keyEvent == LastKey(events[..i]) && mouseEvent == LastMouse(events[..i])
        invariant running == (wasRunning && !HasQuit(events[..i]))
        invariant lastTime == old(currentTime) && currentTime == counter
        invariant deltaTime == (counter - old(currentTime)) / frequency
      {
        FoldStep(events, i);
        var event := events[i];
        ghost var key := if IsKey(event) then Some(KeyRecord(event)) else keyEvent;
        ghost var mouse := if IsMouse(event) then Some(MouseRecord(event)) else mouseEvent;
        match event {
          case Quit => running := false;
          case KeyDown(scancode, keymod, repeat) =>
            keyEvent := Some(KeyEvent(scancode.value, keymod, if repeat then PressedRepeat else Pressed));
          case KeyUp(scancode, keymod, repeat) =>
            keyEvent := Some(KeyEvent(scancode.value, keymod, if repeat then ReleasedRepeat else Released));
          case MouseButtonDown(btn, clicks, x, y) =>
            mouseEvent := Some(MouseEvent(btn, clicks, x, y));
          case MouseButtonUp(btn, _, x, y) =>
            mouseEvent := Some(MouseEvent(btn, 0, x, y));
          case WindowEvent =>
          case OtherEvent =>
        }
        assert keyEvent == key && mouseEvent == mouse;
        i := i + 1;
      }
      assert events[..i] == events;
    }

    /** `close` */
    method Close()
      modifies this`running
      ensures !running
    {
      running := false;
    }

    /** `loadColors`: appends the file's colours in file order; a missing file changes nothing. */
    method LoadColors(file: Option<Json>)
      requires file.Some? ==> PaletteParses(file.value)
      modifies this`palette
      ensures file.None? ==> palette == old(palette)
      ensures file.Some? ==> palette == old(palette) + PaletteOf(file.value)
    {
      if file.None? { return; }
      var entries := Entries(file.value);
      ghost var start := palette;
      var i := 0;
      while i < |entries|
        invariant 0 <= i <= |entries|
        invariant palette == start + PaletteOf(file.value)[..i]
      {
        var c := ReadColor(entries[i]);
        assert PaletteOf(file.value)[..i + 1] == PaletteOf(file.value)[..i] + [c];
        palette := palette + [c];
        i := i + 1;
      }
      assert PaletteOf(file.value)[..i] == PaletteOf(file.value);
    }

    /** `getColor`: the first palette entry with this name, else transparent black. */
    method GetColor(name: string) returns (c: Rgba)
      ensures c == FirstColor(palette, name)
    {
      var i := 0;
      while i < |palette|
        invariant 0 <= i <= |palette|
        invariant FirstColor(palette, name) == FirstColor(palette[i..], name)
      {
        if palette[i].name == name {
          return palette[i].value;
        }
        assert palette[i..][1..] == palette[i + 1..];
        i := i + 1;
      }
      return Transparent;
    }
  }

  /** Loading a palette never changes what an already-known name resolves to. */
  lemma LoadKeepsKnownColors(palette: seq<Color>, f: Json, name: string)
    requires PaletteParses(f)
    requires exists i :: 0 <= i < |palette| && palette[i].name == name
    ensures FirstColor(palette + PaletteOf(f), name) == FirstColor(palette, name)
  {
    FirstColorAppend(palette, PaletteOf(f), name);
  }
}
