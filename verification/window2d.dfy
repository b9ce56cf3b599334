/**
  The 2D engine's window singleton (`Window` in ae2d/Window.rs), reduced to the state its
  per-frame update keeps. SDL is replaced by inputs: the frame's polled events and the
  performance counter with its frequency. The SDL subsystems exist only after `create`.
*/
module Window2d {
  import opened Basics
  import opened Input

  /** `KeyAction::ne`: the discriminants differ, so it is the negation of `eq` and exactly inequality of actions. */
  function ActionNe(a: KeyAction, b: KeyAction): (r: bool)
    ensures r <==> !ActionEq(a, b)
    ensures r <==> a != b
  {
    Discriminant(a) != Discriminant(b)
  }

  class Window {
    var created: bool
    var running: bool
    var keyEvent: Option<KeyEvent>
    var mouseEvent: Option<MouseEvent>
    var lastTime: real
    var currentTime: real
    var deltaTime: real

    /** `Window::default`: running, nothing created yet, no events, zero times. */
    constructor ()
      ensures !created && running && keyEvent == None && mouseEvent == None
      ensures lastTime == 0.0 && currentTime == 0.0 && deltaTime == 0.0
    {
      created := false;
      running := true;
      keyEvent := None;
      mouseEvent := None;
      lastTime := 0.0;
      currentTime := 0.0;
      deltaTime := 0.0;
    }

    /** `create`: opens the window and starts the clock at the counter's current value. */
    method Create(counter: real)
      modifies this`created, this`lastTime, this`currentTime
      ensures created && lastTime == counter && currentTime == counter
    {
      created := true;
      lastTime := counter;
      currentTime := lastTime;
    }

    /**
      `update`: forget the previous frame's records, advance the clock to `counter`, and fold
      the frame's events in order. The timer and event pump must exist, and the frequency of
      SDL's performance counter is positive.
    */
    method Update(events: seq<Event>, counter: real, frequency: real)
      requires created && KeysMapped(events) && frequency > 0.0
      modifies this`running, this`keyEvent, this`mouseEvent, this`lastTime, this`currentTime, this`deltaTime
      ensures keyEvent == LastKey(events) && mouseEvent == LastMouse(events)
      ensures running == (old(running) && !HasQuit(events))
      ensures lastTime == old(currentTime) && currentTime == counter
      ensures deltaTime == (counter - old(currentTime)) / frequency
    {
      keyEvent := None;
      mouseEvent := None;
      lastTime := currentTime;
      currentTime := counter;
      deltaTime := (currentTime - lastTime) / frequency;
      ghost var wasRunning := running;
      var i := 0;
      while i < |events|
        invariant 0 <= i <= |events|
        invariant KeysMapped(events[..i])
        invariant keyEvent == LastKey(events[..i]) && mouseEvent == LastMouse(events[..i])
        invariant running == (wasRunning && !HasQuit(events[..i]))
        invariant lastTime == old(currentTime) && currentTime == counter
        invariant deltaTime == (counter - old(currentTime)) / frequency
      {
        FoldStep(events, i);
        var event := events[i];
        ghost var key := if IsKey(event) then Some(KeyRecord(event)) else keyEvent;
        ghost var mouse := if IsMouse(event) then Some(MouseRecord(event)) else mouseEvent;
        match event {
          case Quit => running := false;
          case KeyDown(scancode, keymod, repeat) =>
            keyEvent := Some(KeyEvent(scancode.value, keymod, if repeat then PressedRepeat else Pressed));
          case KeyUp(scancode, keymod, repeat) =>
            keyEvent := Some(KeyEvent(scancode.value, keymod, if repeat then ReleasedRepeat else Released));
          case MouseButtonDown(btn, clicks, x, y) =>
            mouseEvent := Some(MouseEvent(btn, clicks, x, y));
          case MouseButtonUp(btn, _, x, y) =>
            mouseEvent := Some(MouseEvent(btn, 0, x, y));
          case WindowEvent =>
          case OtherEvent =>
        }
        assert keyEvent == key && mouseEvent == mouse;
        i := i + 1;
      }
      assert events[..i] == events;
    }

    /** `close` */
    method Close()
      modifies this`running
      ensures !running
    {
      running := false;
    }
  }
}
