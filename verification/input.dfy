/**
  The SDL input vocabulary shared by both windows: the events one frame delivers and the
  key and mouse records the window keeps of them. Scancodes and key modifiers are opaque
  numbers.
*/
module Input {
  import opened Basics

  datatype MouseButton = Unknown | Left | Middle | Right | X1 | X2

  /** What happened to a key; the declared discriminants are 0, 1, 2 and 3. */
  datatype KeyAction = Pressed | Released | PressedRepeat | ReleasedRepeat

  function Discriminant(a: KeyAction): (d: int)
    ensures 0 <= d < 4
  {
    match a
    case Pressed => 0
    case Released => 1
    case PressedRepeat => 2
    case ReleasedRepeat => 3
  }

  /** `KeyAction::eq`: compares the discriminants, which is exactly equality of actions. */
  function ActionEq(a: KeyAction, b: KeyAction): (r: bool)
    ensures r <==> a == b
  {
    Discriminant(a) == Discriminant(b)
  }

  datatype KeyEvent = KeyEvent(key: nat, mods: nat, action: KeyAction)

  /** A mouse record; the position is the event's integer pixel position. */
  datatype MouseEvent = MouseEvent(btn: MouseButton, clicks: Byte, x: int, y: int)

  /** One polled SDL event; `scancode` is absent for keys SDL cannot map. */
  datatype Event =
    | Quit
    | KeyDown(scancode: Option<nat>, keymod: nat, repeat: bool)
    | KeyUp(scancode: Option<nat>, keymod: nat, repeat: bool)
    | MouseButtonDown(mouseBtn: MouseButton, clicks: Byte, x: int, y: int)
    | MouseButtonUp(mouseBtn: MouseButton, clicks: Byte, x: int, y: int)
    | WindowEvent
    | OtherEvent

  predicate IsKey(e: Event) { e.KeyDown? || e.KeyUp? }
  predicate IsMouse(e: Event) { e.MouseButtonDown? || e.MouseButtonUp? }

  /** The window's `update` unwraps the scancode of every key event. */
  predicate KeysMapped(events: seq<Event>) {
    forall i :: 0 <= i < |events| && IsKey(events[i]) ==> events[i].scancode.Some?
  }

  /** The key record of a key event: pressed or released, repeated or not. */
  function KeyRecord(e: Event): (k: KeyEvent)
    requires IsKey(e) && e.scancode.Some?
    ensures k.key == e.scancode.value && k.mods == e.keymod
    ensures (k.action == Pressed || k.action == PressedRepeat) <==> e.KeyDown?
    ensures (k.action == PressedRepeat || k.action == ReleasedRepeat) <==> e.repeat
  {
    var action :=
      if e.KeyDown? then (if e.repeat then PressedRepeat else Pressed)
      else (if e.repeat then ReleasedRepeat else Released);
    KeyEvent(e.scancode.value, e.keymod, action)
  }

  /** The mouse record of a button event; a release records no clicks. */
  function MouseRecord(e: Event): (m: MouseEvent)
    requires IsMouse(e)
    ensures m.btn == e.mouseBtn && m.x == e.x && m.y == e.y
    ensures m.clicks == if e.MouseButtonDown? then e.clicks else 0
  {
    if e.MouseButtonDown? then MouseEvent(e.mouseBtn, e.clicks, e.x, e.y)
    else MouseEvent(e.mouseBtn, 0, e.x, e.y)
  }

  /** The key record left after a frame: that of the frame's last key event. */
  function LastKey(events: seq<Event>): (r: Option<KeyEvent>)
    requires KeysMapped(events)
    ensures r.None? <==> forall i :: 0 <= i < |events| ==> !IsKey(events[i])
    ensures r.Some? ==> (exists i :: 0 <= i < |events| && IsKey(events[i]) && r.value == KeyRecord(events[i]) &&
                          (forall j :: i < j < |events| ==> !IsKey(events[j])))
  {
    if events == [] then None
    else if IsKey(events[|events| - 1]) then Some(KeyRecord(events[|events| - 1]))
    else LastKey(events[..|events| - 1])
  }

  /** The mouse record left after a frame: that of the frame's last button event. */
  function LastMouse(events: seq<Event>): (r: Option<MouseEvent>)
    ensures r.None? <==> forall i :: 0 <= i < |events| ==> !IsMouse(events[i])
    ensures r.Some? ==> (exists i :: 0 <= i < |events| && IsMouse(events[i]) && r.value == MouseRecord(events[i]) &&
                          (forall j :: i < j < |events| ==> !IsMouse(events[j])))
  {
    if events == [] then None
    else if IsMouse(events[|events| - 1]) then Some(MouseRecord(events[|events| - 1]))
    else LastMouse(events[..|events| - 1])
  }

  predicate HasQuit(events: seq<Event>) {
    exists i :: 0 <= i < |events| && events[i].Quit?
  }

  /** Frames compose: over two consecutive batches, the later batch's record wins when it has one. */
  lemma {:induction false} LastKeyAppend(a: seq<Event>, b: seq<Event>)
    requires KeysMapped(a) && KeysMapped(b)
    ensures KeysMapped(a + b)
    ensures LastKey(a + b) == if LastKey(b).Some? then LastKey(b) else LastKey(a)
    decreases |b|
  {
    if b != [] {
      var b' := b[..|b| - 1];
      assert (a + b)[..|a + b| - 1] == a + b';
      LastKeyAppend(a, b');
    } else {
      assert a + b == a;
    }
  }

  lemma {:induction false} LastMouseAppend(a: seq<Event>, b: seq<Event>)
    ensures LastMouse(a + b) == if LastMouse(b).Some? then LastMouse(b) else LastMouse(a)
    decreases |b|
  {
    if b != [] {
      var b' := b[..|b| - 1];
      assert (a + b)[..|a + b| - 1] == a + b';
      LastMouseAppend(a, b');
    } else {
      assert a + b == a;
    }
  }

  /** One more event of the frame: the records and the quit flag as the event loop updates them. */
  lemma FoldStep(events: seq<Event>, i: nat)
    requires i < |events| && KeysMapped(events)
    ensures KeysMapped(events[..i]) && KeysMapped(events[..i + 1])
    ensures LastKey(events[..i + 1]) == if IsKey(events[i]) then Some(KeyRecord(events[i])) else LastKey(events[..i])
    ensures LastMouse(events[..i + 1]) == if IsMouse(events[i]) then Some(MouseRecord(events[i])) else LastMouse(events[..i])
    ensures HasQuit(events[..i + 1]) <==> HasQuit(events[..i]) || events[i].Quit?
  {
    assert events[..i + 1][..i] == events[..i];
    assert events[..i + 1][i] == events[i];
  }
}
