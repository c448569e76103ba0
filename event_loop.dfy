/** The event-dispatch body of `run_app` in src/main.rs: one key event takes
    the application state to the next state and tells the loop whether to go
    on or to return. `Next` is the transition as a function of values; `Step`
    performs it in place on an `App`; `Run` and `RunApp` repeat it over a
    sequence of events, as the `loop` of `run_app` does over `event::read`. */
module EventLoop {
  import opened Events
  import opened AppModel

  /** What the loop does after an event: go on, or `return Ok(printJson)`. */
  datatype Signal = Continue | Exit(printJson: bool)

  /** The state after an event together with the loop signal. */
  datatype Transition = Transition(next: State, signal: Signal)

  /** `String::pop` with its result discarded: the buffer without its last
      character, or the empty buffer unchanged. */
  function Pop(b: string): (r: string)
    ensures b == [] ==> r == []
    ensures b != [] ==> |r| == |b| - 1 && r + [b[|b| - 1]] == b
  {
    if b == [] then b else b[..|b| - 1]
  }

  /** The transition for one key event. A `Release` is skipped whatever the
      screen; on the editing screen only `Press` is acted on. */
  function Next(s: State, key: KeyEvent): Transition {
    if key.kind == Release then Transition(s, Continue)
    else match s.currentScreen
      case Main =>
        (match key.code
         case Char('e') => Transition(s.(currentScreen := Editing, currentlyEditing := Some(Key)), Continue)
         case Char('q') => Transition(s.(currentScreen := Exiting), Continue)
         case _ => Transition(s, Continue))
      case Exiting =>
        (match key.code
         case Char('y') => Transition(s, Exit(true))
         case Char('n') | Char('q') => Transition(s, Exit(false))
         case _ => Transition(s, Continue))
      case Editing =>
        if key.kind != Press then Transition(s, Continue)
        else match key.code
          case Enter =>
            (match s.currentlyEditing
             case Some(Key) => Transition(s.(currentlyEditing := Some(Value)), Continue)
             case Some(Value) => Transition(Saved(s).(currentScreen := Main), Continue)
             case None => Transition(s, Continue))
          case Backspace =>
            (match s.currentlyEditing
             case Some(Key) => Transition(s.(keyInput := Pop(s.keyInput)), Continue)
             case Some(Value) => Transition(s.(valueInput := Pop(s.valueInput)), Continue)
             case None => Transition(s, Continue))
          case Esc => Transition(s.(currentScreen := Main, currentlyEditing := None), Continue)
          case Tab => Transition(s.(currentlyEditing := Toggled(s.currentlyEditing)), Continue)
          case Char(c) =>
            (match s.currentlyEditing
             case Some(Key) => Transition(s.(keyInput := s.keyInput + [c]), Continue)
             case Some(Value) => Transition(s.(valueInput := s.valueInput + [c]), Continue)
             case None => Transition(s, Continue))
          case OtherKey => Transition(s, Continue)
  }

  /** The loop of `run_app` over a finite sequence of events: non-key events
      are skipped, and the first `Exit` signal ends the run with the state it
      was raised in. A `Continue` signal means the events ran out while the
      loop would still be waiting for more. */
  function Run(s: State, events: seq<Event>): Transition
    decreases |events|
  {
    if events == [] then Transition(s, Continue)
    else match events[0]
      case NonKey => Run(s, events[1..])
      case Keyboard(key) =>
        var t := Next(s, key);
        if t.signal == Continue then Run(t.next, events[1..]) else t
  }

  /** One pass of the loop body of `run_app` on the borrowed `App`. */
  method Step(app: App, key: KeyEvent) returns (signal: Signal)
    modifies app
    ensures Transition(app.Snapshot(), signal) == Next(old(app.Snapshot()), key)
  {
    signal := Continue;
    if key.kind == Release {
      return;
    }
    match app.currentScreen {
      case Main =>
        match key.code {
          case Char('e') =>
            app.currentScreen := Editing;
            app.currentlyEditing := Some(Key);
          case Char('q') =>
            app.currentScreen := Exiting;
          case _ =>
        }
      case Exiting =>
        match key.code {
          case Char('y') =>
            signal := Exit(true);
          case Char('n') | Char('q') =>
            signal := Exit(false);
          case _ =>
        }
      case Editing =>
        if key.kind == Press {
          match key.code {
            case Enter =>
              match app.currentlyEditing {
                case Some(Key) =>
                  app.currentlyEditing := Some(Value);
                case Some(Value) =>
                  app.SaveKeyValue();
                  app.currentScreen := Main;
                case None =>
              }
            case Backspace =>
              match app.currentlyEditing {
                case Some(Key) =>
                  app.keyInput := Pop(app.keyInput);
                case Some(Value) =>
                  app.valueInput := Pop(app.valueInput);
                case None =>
              }
            case Esc =>
              app.currentScreen := Main;
              app.currentlyEditing := None;
            case Tab =>
              app.ToggleEditing();
            case Char(c) =>
              match app.currentlyEditing {
                case Some(Key) =>
                  app.keyInput := app.keyInput + [c];
                case Some(Value) =>
                  app.valueInput := app.valueInput + [c];
                case None =>
              }
            case OtherKey =>
          }
        }
    }
  }

  /** The `loop` of `run_app`, reading its events from `events` instead of
      the terminal; it returns as soon as `Step` signals an exit. */
  method RunApp(app: App, events: seq<Event>) returns (signal: Signal)
    modifies app
    ensures Transition(app.Snapshot(), signal) == Run(old(app.Snapshot()), events)
  {
    var i := 0;
    signal := Continue;
    while i < |events|
      invariant 0 <= i <= |events|
      invariant signal == Continue
      invariant Run(app.Snapshot(), events[i..]) == Run(old(app.Snapshot()), events)
    {
      assert events[i..][0] == events[i] && events[i..][1..] == events[i + 1..];
      match events[i] {
        case NonKey =>
        case Keyboard(key) =>
          signal := Step(app, key);
          if signal != Continue {
            return;
          }
      }
      i := i + 1;
    }
  }
}
