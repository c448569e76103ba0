/** Properties of the key-event transition `Next` and of the loop `Run`. */
module EventLoopProperties {
  import opened Events
  import opened AppModel
  import opened EventLoop

  // ---- One event -------------------------------------------------------

  /** A `Release` event is skipped on every screen: no field changes and the
      loop goes on. */
  lemma ReleaseIgnored(s: State, code: KeyCode)
    ensures Next(s, KeyEvent(Release, code)) == Transition(s, Continue)
  {
  }

  /** On the main screen, 'e' opens the editor on the key buffer, 'q' asks
      for exit confirmation, and every other code changes nothing; both
      buffers and the pairs always survive. */
  lemma MainScreenKeys(s: State, key: KeyEvent)
    requires s.currentScreen == Main && key.kind != Release
    ensures Next(s, key).signal == Continue
    ensures key.code == Char('e') ==>
      Next(s, key).next == s.(currentScreen := Editing, currentlyEditing := Some(Key))
    ensures key.code == Char('q') ==> Next(s, key).next == s.(currentScreen := Exiting)
    ensures key.code != Char('e') && key.code != Char('q') ==> Next(s, key).next == s
  {
  }

  /** On the exit screen, 'y' ends the loop asking for the pairs to be
      printed, 'n' and 'q' end it without printing, and every other code
      keeps the exit screen; no event here changes any field. */
  lemma ExitingScreenKeys(s: State, key: KeyEvent)
    requires s.currentScreen == Exiting && key.kind != Release
    ensures Next(s, key).next == s
    ensures Next(s, key).signal ==
      if key.code == Char('y') then Exit(true)
      else if key.code == Char('n') || key.code == Char('q') then Exit(false)
      else Continue
  {
  }

  /** On the editing screen a `Repeat` event changes nothing. */
  lemma RepeatIgnoredWhileEditing(s: State, code: KeyCode)
    requires s.currentScreen == Editing
    ensures Next(s, KeyEvent(Repeat, code)) == Transition(s, Continue)
  {
  }

  /** On the main and exit screens a `Repeat` event acts exactly as a
      `Press` of the same key, since only `Release` is filtered there. */
  lemma RepeatActsOutsideEditing(s: State, code: KeyCode)
    requires s.currentScreen != Editing
    ensures Next(s, KeyEvent(Repeat, code)) == Next(s, KeyEvent(Press, code))
  {
  }

  /** Typing a character on the editing screen appends it to the focused
      buffer only; without a focus it does nothing. */
  lemma EditingCharAppends(s: State, c: char)
    requires s.currentScreen == Editing
    ensures var t := Next(s, KeyEvent(Press, Char(c)));
      t.signal == Continue &&
      t.next.currentScreen == Editing &&
      t.next.currentlyEditing == s.currentlyEditing &&
      t.next.pairs == s.pairs &&
      t.next.keyInput == (if s.currentlyEditing == Some(Key) then s.keyInput + [c] else s.keyInput) &&
      t.next.valueInput == (if s.currentlyEditing == Some(Value) then s.valueInput + [c] else s.valueInput)
  {
  }

  /** Backspace on the editing screen removes the last character of the
      focused buffer only; on an empty buffer or without a focus it does
      nothing. */
  lemma EditingBackspaceDropsLast(s: State)
    requires s.currentScreen == Editing
    ensures var t := Next(s, KeyEvent(Press, Backspace));
      t.signal == Continue &&
      t.next.currentScreen == Editing &&
      t.next.currentlyEditing == s.currentlyEditing &&
      t.next.pairs == s.pairs &&
      (s.currentlyEditing == Some(Key) && s.keyInput != [] ==>
         t.next.keyInput + [s.keyInput[|s.keyInput| - 1]] == s.keyInput) &&
      (s.currentlyEditing == Some(Value) && s.valueInput != [] ==>
         t.next.valueInput + [s.valueInput[|s.valueInput| - 1]] == s.valueInput) &&
      (s.currentlyEditing != Some(Key) || s.keyInput == [] ==> t.next.keyInput == s.keyInput) &&
      (s.currentlyEditing != Some(Value) || s.valueInput == [] ==> t.next.valueInput == s.valueInput)
  {
  }

  /** Backspace undoes a typed character: on the editing screen with a focus,
      typing `c` and then pressing Backspace restores the state. */
  lemma BackspaceUndoesChar(s: State, c: char)
    requires s.currentScreen == Editing && s.currentlyEditing.Some?
    ensures Next(Next(s, KeyEvent(Press, Char(c))).next, KeyEvent(Press, Backspace)) == Transition(s, Continue)
  {
    assert (s.keyInput + [c])[..|s.keyInput|] == s.keyInput;
    assert (s.valueInput + [c])[..|s.valueInput|] == s.valueInput;
  }

  /** Enter on the key buffer moves the focus to the value buffer; Enter on
      the value buffer commits the pair (last write wins), clears both
      buffers and the focus and returns to the main screen; without a focus
      it does nothing. */
  lemma EditingEnter(s: State)
    requires s.currentScreen == Editing
    ensures var t := Next(s, KeyEvent(Press, Enter));
      t.signal == Continue &&
      (s.currentlyEditing == Some(Key) ==> t.next == s.(currentlyEditing := Some(Value))) &&
      (s.currentlyEditing == Some(Value) ==>
         t.next == State(Main, None, [], [], s.pairs[s.keyInput := s.valueInput])) &&
      (s.currentlyEditing == None ==> t.next == s)
  {
  }

  /** Esc cancels editing: back to the main screen with no focus, and both
      buffers and the pairs are kept as they were. */
  lemma EditingEscKeepsBuffers(s: State)
    requires s.currentScreen == Editing
    ensures Next(s, KeyEvent(Press, Esc)) ==
      Transition(State(Main, None, s.keyInput, s.valueInput, s.pairs), Continue)
  {
  }

  /** Tab switches the focus between the two buffers and changes nothing
      else; pressing it twice restores the state. */
  lemma EditingTabToggles(s: State)
    requires s.currentScreen == Editing
    ensures var t := Next(s, KeyEvent(Press, Tab));
      t.signal == Continue &&
      t.next == s.(currentlyEditing := Toggled(s.currentlyEditing)) &&
      Next(t.next, KeyEvent(Press, Tab)) == Transition(s, Continue)
  {
    match s.currentlyEditing {
      case None =>
      case Some(f) => assert Toggled(Toggled(s.currentlyEditing)) == s.currentlyEditing;
    }
  }

  /** Any other key on the editing screen changes nothing. */
  lemma EditingOtherKeyIgnored(s: State)
    requires s.currentScreen == Editing
    ensures Next(s, KeyEvent(Press, OtherKey)) == Transition(s, Continue)
  {
  }

  /** Every transition keeps the invariant that a focus exists exactly on
      the editing screen. */
  lemma NextPreservesValid(s: State, key: KeyEvent)
    requires Valid(s)
    ensures Valid(Next(s, key).next)
  {
  }

  /** The pair map changes only by a commit: an Enter press on the value
      buffer, after which the screen is the main one. */
  lemma PairsChangeOnlyOnCommit(s: State, key: KeyEvent)
    requires Next(s, key).next.pairs != s.pairs
    ensures s.currentScreen == Editing && s.currentlyEditing == Some(Value)
    ensures key == KeyEvent(Press, Enter)
    ensures Next(s, key).next.currentScreen == Main
  {
  }

  /** An exit signal is raised only on the exit screen and changes no field. */
  lemma ExitOnlyFromExiting(s: State, key: KeyEvent)
    requires Next(s, key).signal != Continue
    ensures s.currentScreen == Exiting && Next(s, key).next == s
    ensures key.kind != Release
    ensures Next(s, key).signal == Exit(key.code == Char('y'))
  {
  }

  // ---- Sequences of events ---------------------------------------------

  /** Running `a ++ b` runs `a`, and then `b` from where `a` left off unless
      `a` already ended the loop. */
  lemma {:induction false} RunAppend(s: State, a: seq<Event>, b: seq<Event>)
    ensures Run(s, a + b) ==
      (var t := Run(s, a); if t.signal == Continue then Run(t.next, b) else t)
    decreases |a|
  {
    if a == [] {
      assert a + b == b;
    } else {
      assert (a + b)[0] == a[0] && (a + b)[1..] == a[1..] + b;
      match a[0] {
        case NonKey => RunAppend(s, a[1..], b);
        case Keyboard(key) =>
          var t := Next(s, key);
          if t.signal == Continue {
            RunAppend(t.next, a[1..], b);
          }
      }
    }
  }

  /** Every run from a valid state ends in a valid state. */
  lemma {:induction false} RunPreservesValid(s: State, events: seq<Event>)
    requires Valid(s)
    ensures Valid(Run(s, events).next)
    decreases |events|
  {
    if events != [] {
      match events[0] {
        case NonKey => RunPreservesValid(s, events[1..]);
        case Keyboard(key) =>
          NextPreservesValid(s, key);
          var t := Next(s, key);
          if t.signal == Continue {
            RunPreservesValid(t.next, events[1..]);
          }
      }
    }
  }

  /** Keys are never removed from the pair map by any run. */
  lemma {:induction false} RunKeepsKeys(s: State, events: seq<Event>)
    ensures s.pairs.Keys <= Run(s, events).next.pairs.Keys
    decreases |events|
  {
    if events != [] {
      match events[0] {
        case NonKey => RunKeepsKeys(s, events[1..]);
        case Keyboard(key) =>
          var t := Next(s, key);
          assert s.pairs.Keys <= t.next.pairs.Keys;
          if t.signal == Continue {
            RunKeepsKeys(t.next, events[1..]);
          }
      }
    }
  }

  /** The event at index `i` decided the exit of the run: the loop was still
      going before it and stood on the exit screen, the event is a 'y', 'n'
      or 'q' key that is not a release, and the run ends right there, with the
      state reached before it and asking to print exactly when it was 'y'. */
  predicate ExitDecidedAt(s: State, events: seq<Event>, i: nat)
    requires i < |events|
  {
    var before := Run(s, events[..i]);
    before.signal == Continue &&
    before.next.currentScreen == Exiting &&
    events[i].Keyboard? && events[i].key.kind != Release &&
    events[i].key.code in {Char('y'), Char('n'), Char('q')} &&
    Run(s, events) == Transition(before.next, Exit(events[i].key.code == Char('y')))
  }

  /** A run that ends with an exit signal ends on the exit screen, and some
      event decided that exit as `ExitDecidedAt` describes. */
  lemma {:induction false} RunExitsFromExiting(s: State, events: seq<Event>)
    requires Run(s, events).signal != Continue
    ensures Run(s, events).next.currentScreen == Exiting
    ensures exists i :: 0 <= i < |events| && ExitDecidedAt(s, events, i)
    decreases |events|
  {
    assert events != [];
    var rest := events[1..];
    match events[0] {
      case NonKey =>
        RunExitsFromExiting(s, rest);
        var i :| 0 <= i < |rest| && ExitDecidedAt(s, rest, i);
        assert events[..i + 1][0] == NonKey && events[..i + 1][1..] == rest[..i];
        assert events[i + 1] == rest[i];
        assert ExitDecidedAt(s, events, i + 1);
      case Keyboard(key) =>
        var t := Next(s, key);
        if t.signal == Continue {
          RunExitsFromExiting(t.next, rest);
          var i :| 0 <= i < |rest| && ExitDecidedAt(t.next, rest, i);
          assert events[..i + 1][0] == Keyboard(key) && events[..i + 1][1..] == rest[..i];
          assert events[i + 1] == rest[i];
          assert ExitDecidedAt(s, events, i + 1);
        } else {
          ExitOnlyFromExiting(s, key);
          ExitingScreenKeys(s, key);
          assert events[..0] == [];
          assert ExitDecidedAt(s, events, 0);
        }
    }
  }

  /** Events that are releases or not key events at all leave the state
      unchanged and never end the loop. */
  lemma {:induction false} IgnoredEventsChangeNothing(s: State, events: seq<Event>)
    requires forall i :: 0 <= i < |events| ==> events[i].NonKey? || events[i].key.kind == Release
    ensures Run(s, events) == Transition(s, Continue)
    decreases |events|
  {
    if events != [] {
      IgnoredEventsChangeNothing(s, events[1..]);
    }
  }

  /** A run that starts with a key event performs that event first. */
  lemma RunFirstKey(s: State, key: KeyEvent, rest: seq<Event>)
    ensures Run(s, [Keyboard(key)] + rest) ==
      (var t := Next(s, key); if t.signal == Continue then Run(t.next, rest) else t)
  {
    assert ([Keyboard(key)] + rest)[0] == Keyboard(key);
    assert ([Keyboard(key)] + rest)[1..] == rest;
  }

  /** Typing a string on the editing screen appends it, in order, to the
      focused buffer and to nothing else. */
  lemma {:induction false} TypingFillsFocusedBuffer(s: State, cs: string)
    requires s.currentScreen == Editing && s.currentlyEditing.Some?
    ensures Run(s, Typed(cs)) == Transition(
      if s.currentlyEditing == Some(Key) then s.(keyInput := s.keyInput + cs)
      else s.(valueInput := s.valueInput + cs),
      Continue)
    decreases |cs|
  {
    if cs == [] {
      assert s.keyInput + cs == s.keyInput && s.valueInput + cs == s.valueInput;
    } else {
      var key := KeyEvent(Press, Char(cs[0]));
      var rest := Typed(cs[1..]);
      EditingCharAppends(s, cs[0]);
      var s1 := Next(s, key).next;
      assert Typed(cs) == [Keyboard(key)] + rest;
      RunFirstKey(s, key, rest);
      assert Run(s, Typed(cs)) == Run(s1, rest);
      TypingFillsFocusedBuffer(s1, cs[1..]);
      if s.currentlyEditing == Some(Key) {
        assert s1 == s.(keyInput := s.keyInput + [cs[0]]);
        assert s.keyInput + [cs[0]] + cs[1..] == s.keyInput + cs;
      } else {
        assert s1 == s.(valueInput := s.valueInput + [cs[0]]);
        assert s.valueInput + [cs[0]] + cs[1..] == s.valueInput + cs;
      }
    }
  }

  /** How many characters of a buffer of length `len` survive `n` Backspaces. */
  function Kept(len: nat, n: nat): nat {
    if n <= len then len - n else 0
  }

  /** `n` Backspaces with the focus on the key buffer remove its last `n`
      characters, or all of them when it holds fewer. */
  lemma {:induction false} BackspacesTrimKey(s: State, n: nat)
    requires s.currentScreen == Editing && s.currentlyEditing == Some(Key)
    ensures Run(s, Backspaces(n)) ==
      Transition(s.(keyInput := s.keyInput[..Kept(|s.keyInput|, n)]), Continue)
    decreases n
  {
    var b := s.keyInput;
    if n == 0 {
      assert b[..|b|] == b;
    } else {
      var key := KeyEvent(Press, Backspace);
      var rest := Backspaces(n - 1);
      var s1 := s.(keyInput := Pop(b));
      assert Next(s, key) == Transition(s1, Continue);
      assert Backspaces(n) == [Keyboard(key)] + rest;
      RunFirstKey(s, key, rest);
      BackspacesTrimKey(s1, n - 1);
      if b != [] {
        assert Pop(b)[..Kept(|Pop(b)|, n - 1)] == b[..Kept(|b|, n)];
      }
    }
  }

  /** `n` Backspaces with the focus on the value buffer remove its last `n`
      characters, or all of them when it holds fewer. */
  lemma {:induction false} BackspacesTrimValue(s: State, n: nat)
    requires s.currentScreen == Editing && s.currentlyEditing == Some(Value)
    ensures Run(s, Backspaces(n)) ==
      Transition(s.(valueInput := s.valueInput[..Kept(|s.valueInput|, n)]), Continue)
    decreases n
  {
    var b := s.valueInput;
    if n == 0 {
      assert b[..|b|] == b;
    } else {
      var key := KeyEvent(Press, Backspace);
      var rest := Backspaces(n - 1);
      var s1 := s.(valueInput := Pop(b));
      assert Next(s, key) == Transition(s1, Continue);
      assert Backspaces(n) == [Keyboard(key)] + rest;
      RunFirstKey(s, key, rest);
      BackspacesTrimValue(s1, n - 1);
      if b != [] {
        assert Pop(b)[..Kept(|Pop(b)|, n - 1)] == b[..Kept(|b|, n)];
      }
    }
  }

  /** Typing a string and then as many Backspaces restores the state. */
  lemma {:induction false} TypeThenEraseRestores(s: State, cs: string)
    requires s.currentScreen == Editing && s.currentlyEditing.Some?
    ensures Run(s, Typed(cs) + Backspaces(|cs|)) == Transition(s, Continue)
  {
    RunAppend(s, Typed(cs), Backspaces(|cs|));
    TypingFillsFocusedBuffer(s, cs);
    var t := Run(s, Typed(cs)).next;
    assert Run(s, Typed(cs) + Backspaces(|cs|)) == Run(t, Backspaces(|cs|));
    match s.currentlyEditing {
      case Some(Key) =>
        var b := s.keyInput + cs;
        assert t == s.(keyInput := b);
        BackspacesTrimKey(t, |cs|);
        assert Kept(|b|, |cs|) == |s.keyInput|;
        assert b[..|s.keyInput|] == s.keyInput;
      case Some(Value) =>
        var b := s.valueInput + cs;
        assert t == s.(valueInput := b);
        BackspacesTrimValue(t, |cs|);
        assert Kept(|b|, |cs|) == |s.valueInput|;
        assert b[..|s.valueInput|] == s.valueInput;
    }
  }
}
