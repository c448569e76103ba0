# jute: key-event state machine

A model, in Dafny, of the interactive loop of a small terminal program.
The program builds a map of string pairs and, on exit, may print it as a
JSON object. Its only logic is the key-event dispatch in `run_app`
(src/main.rs). Each key event takes the application state to the next
state and yields a loop signal. The state holds:

- the screen (`Main`, `Editing`, `Exiting`);
- the optional editing focus (`Key`, `Value`);
- the key and value input buffers;
- the map of saved pairs.

The signal is "go on", "return `Ok(true)`" (print the JSON) or
"return `Ok(false)`" (exit without printing).

Files:

- `events.dfy` (module `Events`): the key events the loop matches on (kind
  `Press`/`Repeat`/`Release`; code `Char(c)`, `Enter`, `Backspace`, `Esc`,
  `Tab` or any other key) and non-key events.
- `app_model.dfy` (module `AppModel`): the application state, both as a
  value `State` and as the class `App` whose fields the loop updates in
  place. src/app.rs is not part of this model. The initial state and the
  two helpers the loop calls, `save_key_value` and `toggle_editing`, have
  ASSUMED contracts (`Initial`, `Saved`, `Toggled` and the matching `App`
  members): save binds the key buffer to the value buffer (insert or
  overwrite) and clears both buffers and the focus; toggle swaps `Key`
  and `Value` and leaves "no focus" alone.
- `event_loop.dfy` (module `EventLoop`):
  - `Next` is the transition for one key event, as a function of values.
  - `Step(app, key)` is the same dispatch done imperatively on an `App`,
    proved equal to `Next`.
  - `Run` is the loop over a finite event sequence: non-key events are
    skipped and the first exit signal stops it. `RunApp` is the loop
    itself, proved equal to `Run`.
  - `Step` is a method taking the `App` by reference, just as `run_app`
    takes `&mut App`.
- `properties.dfy` (module `EventLoopProperties`): the case-by-case
  behaviour of each screen, the state invariant (a focus exists exactly
  while the editing screen is shown), and inductive facts about runs.
- `scenarios.dfy` (module `Scenarios`): whole interactions (commit,
  overwrite, cancel, quit with and without printing), including one run on
  a fresh `App` object.

Behaviour of src/main.rs worth noting:

- `Repeat` events are acted on in the main and exit screens. Only `Release`
  is filtered at src/main.rs:67, and the `Press` guard applies only to the
  editing screen (src/main.rs:95).
- While editing, every `Char` code is appended, whatever the character
  (src/main.rs:139-150).
- Esc leaves both buffers as they are (src/main.rs:129-132). So text typed
  before a cancel becomes the prefix of the next committed pair
  (`CancelledTextIsCommittedLater`).

## Model

| member | source | states |
|---|---|---|
| EventLoop.Next | src/main.rs:66-156 | no contract of its own: the transition for one key event, which `Step` performs in place and the EventLoopProperties lemmas state case by case |
| EventLoop.Run | src/main.rs:57-158 | no contract of its own: the loop over a finite event sequence, skipping non-key events and stopping at the first exit; events running out gives `Continue`; `RunApp` performs it in place and the EventLoopProperties lemmas about runs state its properties |
| EventLoop.Step | src/main.rs:66-156 | the new `App` fields and the returned signal are exactly the transition `Next` of the old fields and the key event |
| EventLoop.RunApp | src/main.rs:57-158 | running the loop in place over an event sequence leaves the `App` and the signal that `Run` gives: non-key events skipped, stop at the first exit |
| EventLoop.Pop | src/main.rs:121-124 | `String::pop`: an empty buffer stays empty; otherwise the result is one shorter and, with the removed last character appended back, is the old buffer |
| AppModel.Initial | src/main.rs:30 | assumed: `App::init` starts on the main screen with no focus, empty buffers and no pairs, a state satisfying the invariant |
| AppModel.Saved | src/main.rs:108 | assumed: `save_key_value` binds the key buffer to the value buffer, keeps every other pair, adds exactly that key, clears both buffers and the focus, keeps the screen |
| AppModel.Toggled | src/main.rs:135 | assumed: `toggle_editing` keeps "no focus" and replaces a focus by the other one |
| AppModel.App.Init | src/main.rs:30 | a fresh `App` holds the initial state |
| AppModel.App.SaveKeyValue | src/main.rs:108 | the in-place save leaves the fields equal to `Saved` of the old ones |
| AppModel.App.ToggleEditing | src/main.rs:135 | the in-place toggle changes only the focus, to `Toggled` of the old one |
| EventLoopProperties.ReleaseIgnored | src/main.rs:67-70 | a `Release` event changes no field and continues, on every screen |
| EventLoopProperties.MainScreenKeys | src/main.rs:72-85 | on the main screen 'e' opens editing on the key buffer, 'q' goes to the exit screen, any other code changes nothing; buffers and pairs kept, loop continues |
| EventLoopProperties.ExitingScreenKeys | src/main.rs:86-94 | on the exit screen 'y' returns print, 'n' or 'q' return no-print, anything else continues; no field changes |
| EventLoopProperties.RepeatIgnoredWhileEditing | src/main.rs:95-154 | a `Repeat` event on the editing screen falls through to the catch-all and changes nothing |
| EventLoopProperties.RepeatActsOutsideEditing | src/main.rs:67-94 | on the main and exit screens a `Repeat` event acts exactly as a `Press` of the same key |
| EventLoopProperties.EditingCharAppends | src/main.rs:139-150 | a typed character is appended to the focused buffer only; screen, focus, pairs and the other buffer kept; no-op without focus |
| EventLoopProperties.EditingBackspaceDropsLast | src/main.rs:117-128 | Backspace removes the last character of the focused buffer only; no-op on an empty buffer or without focus |
| EventLoopProperties.BackspaceUndoesChar | src/main.rs:117-150 | with a focus, a character followed by Backspace restores the whole state |
| EventLoopProperties.EditingEnter | src/main.rs:101-113 | Enter on the key buffer moves focus to the value buffer; on the value buffer it commits the pair, clears buffers and focus and returns to main; no-op without focus |
| EventLoopProperties.EditingEscKeepsBuffers | src/main.rs:129-132 | Esc returns to the main screen with no focus and keeps both buffers and the pairs |
| EventLoopProperties.EditingTabToggles | src/main.rs:134-136 | Tab changes only the focus, to the other buffer, and two Tabs restore the state |
| EventLoopProperties.EditingOtherKeyIgnored | src/main.rs:151 | any other key on the editing screen changes nothing |
| EventLoopProperties.NextPreservesValid | src/main.rs:71-155 | every transition keeps the invariant "focus present exactly on the editing screen" |
| EventLoopProperties.PairsChangeOnlyOnCommit | src/main.rs:107-110 | the pair map changes only on an Enter press with focus on the value buffer, which ends on the main screen |
| EventLoopProperties.ExitOnlyFromExiting | src/main.rs:86-94 | an exit signal comes only from the exit screen, changes nothing, and asks for printing exactly when the key is 'y' |
| EventLoopProperties.RunAppend | src/main.rs:57-158 | running two event sequences in a row is running the first, then the second from where it stopped unless it exited |
| EventLoopProperties.RunPreservesValid | src/main.rs:57-158 | every run from a valid state ends in a valid state |
| EventLoopProperties.RunKeepsKeys | src/main.rs:57-158 | no run removes a key from the pair map |
| EventLoopProperties.RunExitsFromExiting | src/main.rs:86-94 | a run that exits ends on the exit screen, and some event decided it: before it the loop was still running on the exit screen, it is a non-release 'y', 'n' or 'q', and the run ends with the state reached before it, asking to print exactly when it was 'y' |
| EventLoopProperties.IgnoredEventsChangeNothing | src/main.rs:66-70 | a run made only of releases and non-key events changes nothing and never exits |
| EventLoopProperties.TypingFillsFocusedBuffer | src/main.rs:139-150 | typing a string while editing appends it, in order, to the focused buffer and changes nothing else |
| EventLoopProperties.BackspacesTrimKey | src/main.rs:117-122 | with the focus on the key buffer, n Backspaces leave its first max(0, length - n) characters and change nothing else |
| EventLoopProperties.BackspacesTrimValue | src/main.rs:117-128 | with the focus on the value buffer, n Backspaces leave its first max(0, length - n) characters and change nothing else |
| EventLoopProperties.TypeThenEraseRestores | src/main.rs:117-150 | typing a string and then as many Backspaces restores the state |
| Scenarios.CommitFromMain | src/main.rs:77-150 | from the main screen, 'e', key, Enter, value, Enter binds old key buffer + key to old value buffer + value and returns to main with empty buffers |
| Scenarios.NameFortyTwo | src/main.rs:77-113 | from the initial state 'e', "name", Enter, "42", Enter leaves exactly the pair name -> 42 |
| Scenarios.LastWriteWins | src/main.rs:107-110 | committing a -> 1 then a -> 2 leaves the single pair a -> 2 |
| Scenarios.CancelKeepsTyping | src/main.rs:129-132 | 'e', "ab", Esc returns to main with "ab" still in the key buffer |
| Scenarios.CancelledTextIsCommittedLater | src/main.rs:129-132 | after a cancelled "ab", committing c -> 1 stores abc -> 1 |
| Scenarios.QuitWithoutPrinting | src/main.rs:81-92 | from main, 'q' then 'n' exits without printing, pairs unchanged, later events unread |
| Scenarios.QuitAndPrint | src/main.rs:81-88 | from main, 'q' then 'y' exits asking to print, pairs unchanged |
| Scenarios.NameFortyTwoThenPrint | src/main.rs:57-158 | on a fresh `App`, the name -> 42 commit then 'q', 'y' returns print with pairs exactly name -> 42 |

## Left out

- `main` (src/main.rs:16-55): raw mode, the alternate screen, mouse capture, their teardown and printing of errors are terminal I/O.
- `terminal.draw` and `event::read` (src/main.rs:64, 66) are I/O. The model takes a finite event sequence as input. The `io::Error` that either call can return through `?` is not modelled. When the events run out, `Run` and `RunApp` report `Continue`, where the program would wait for the next event.
- `print_json`, called at src/main.rs:48, serialises the pairs. It lives in src/app.rs, which is not part of this model. The model shows only that the loop asks for printing with the pairs it held.
- `App::init`, `save_key_value` and `toggle_editing` have assumed contracts. Their code in src/app.rs is not part of this model.
- The pair map is a Dafny `map`. The container src/app.rs uses, and any iteration order the JSON output or the list on the main screen may have, are not modelled.
- src/ui.rs is rendering with ratatui widgets, including the layout helper `centered_rect`. It has no state changes and is not modelled.
