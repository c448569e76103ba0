/** The application state `App` of src/app.rs. That file is not part of this
    model: the field layout is the one src/main.rs and src/ui.rs use, and the
    initial state and the two helpers called from the event loop,
    `save_key_value` and `toggle_editing`, carry ASSUMED contracts, marked
    below, rather than contracts derived from their code. */
module AppModel {

  datatype Option<T> = None | Some(value: T)

  /** Which screen is shown, and so which key handler is active. */
  datatype CurrentScreen = Main | Editing | Exiting

  /** Which input buffer receives typed characters. */
  datatype CurrentlyEditing = Key | Value

  /** A snapshot of every field of `App`. */
  datatype State = State(
    currentScreen: CurrentScreen,
    currentlyEditing: Option<CurrentlyEditing>,
    keyInput: string,
    valueInput: string,
    pairs: map<string, string>)

  /** The state invariant: an editing focus exists exactly while the editing
      screen is shown. */
  predicate Valid(s: State) {
    s.currentlyEditing.Some? <==> s.currentScreen == Editing
  }

  /** ASSUMED contract of `App::init`: the main screen, no focus, both
      buffers and the pair map empty. */
  function Initial(): (s: State)
    ensures Valid(s)
    ensures s.currentScreen == Main && s.currentlyEditing == None
    ensures |s.keyInput| == 0 && |s.valueInput| == 0 && |s.pairs| == 0
  {
    State(Main, None, "", "", map[])
  }

  /** ASSUMED contract of `App::save_key_value`: the key buffer is bound to the
      value buffer in the pair map (inserted, or overwriting an earlier value),
      every other binding is kept, both buffers and the focus are cleared, and
      the screen is left to the caller. */
  function Saved(s: State): (r: State)
    ensures s.keyInput in r.pairs && r.pairs[s.keyInput] == s.valueInput
    ensures r.pairs.Keys == s.pairs.Keys + {s.keyInput}
    ensures forall k :: k in s.pairs && k != s.keyInput ==> r.pairs[k] == s.pairs[k]
    ensures r.keyInput == [] && r.valueInput == [] && r.currentlyEditing == None
    ensures r.currentScreen == s.currentScreen
  {
    s.(currentlyEditing := None, keyInput := [], valueInput := [],
       pairs := s.pairs[s.keyInput := s.valueInput])
  }

  /** ASSUMED contract of `App::toggle_editing`: a focus switches to the other
      buffer; no focus stays no focus. */
  function Toggled(e: Option<CurrentlyEditing>): (r: Option<CurrentlyEditing>)
    ensures r.Some? <==> e.Some?
    ensures e.Some? ==> r.value != e.value
  {
    match e
    case None => None
    case Some(Key) => Some(Value)
    case Some(Value) => Some(Key)
  }

  /** The mutable application state that `run_app` borrows as `&mut App`. */
  class App {
    var currentScreen: CurrentScreen
    var currentlyEditing: Option<CurrentlyEditing>
    var keyInput: string
    var valueInput: string
    var pairs: map<string, string>

    /** The present value of all five fields. */
    function Snapshot(): State
      reads this
    {
      State(currentScreen, currentlyEditing, keyInput, valueInput, pairs)
    }

    /** `App::init` (assumed, see `Initial`). */
    constructor Init()
      ensures Snapshot() == Initial()
    {
      currentScreen := Main;
      currentlyEditing := None;
      keyInput := "";
      valueInput := "";
      pairs := map[];
    }

    /** `App::save_key_value` (assumed, see `Saved`). */
    method SaveKeyValue()
      modifies this
      ensures Snapshot() == Saved(old(Snapshot()))
    {
      pairs := pairs[keyInput := valueInput];
      keyInput := "";
      valueInput := "";
      currentlyEditing := None;
    }

    /** `App::toggle_editing` (assumed, see `Toggled`). */
    method ToggleEditing()
      modifies this
      ensures Snapshot() == old(Snapshot()).(currentlyEditing := Toggled(old(currentlyEditing)))
    {
      match currentlyEditing
      case None =>
      case Some(Key) => currentlyEditing := Some(Value);
      case Some(Value) => currentlyEditing := Some(Key);
    }
  }
}
