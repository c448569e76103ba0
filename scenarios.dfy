/** Whole interactions with the application, from the main screen to a
    committed pair or to the end of the loop. */
module Scenarios {
  import opened Events
  import opened AppModel
  import opened EventLoop
  import opened EventLoopProperties

  /** The keys for adding one pair from the main screen: 'e', the key text,
      Enter, the value text, Enter. */
  function Commit(k: string, v: string): seq<Event> {
    [Pressed(Char('e'))] + Typed(k) + [Pressed(Enter)] + Typed(v) + [Pressed(Enter)]
  }

  /** A run of a single key event is that event's transition. */
  lemma RunSingle(s: State, key: KeyEvent)
    ensures Run(s, [Keyboard(key)]) == Next(s, key)
  {
    RunFirstKey(s, key, []);
    assert [Keyboard(key)] + [] == [Keyboard(key)];
  }

  /** Adding a pair from the main screen binds the key buffer followed by the
      typed key to the value buffer followed by the typed value, and leaves
      the main screen with both buffers empty. The buffers are empty unless
      an earlier edit was cancelled with Esc, which keeps them. */
  lemma CommitFromMain(s: State, k: string, v: string)
    requires s.currentScreen == Main
    ensures Run(s, Commit(k, v)) ==
      Transition(State(Main, None, [], [], s.pairs[s.keyInput + k := s.valueInput + v]), Continue)
  {
    var e, enter := KeyEvent(Press, Char('e')), KeyEvent(Press, Enter);
    var p1 := [Keyboard(e)] + Typed(k);
    var p2 := p1 + [Keyboard(enter)];
    var p3 := p2 + Typed(v);
    assert Commit(k, v) == p3 + [Keyboard(enter)];

    var s1 := s.(currentScreen := Editing, currentlyEditing := Some(Key));
    MainScreenKeys(s, e);
    RunFirstKey(s, e, Typed(k));
    TypingFillsFocusedBuffer(s1, k);
    var s2 := s1.(keyInput := s.keyInput + k);
    assert Run(s, p1) == Transition(s2, Continue);

    RunAppend(s, p1, [Keyboard(enter)]);
    RunSingle(s2, enter);
    var s3 := s2.(currentlyEditing := Some(Value));
    assert Run(s, p2) == Transition(s3, Continue);

    RunAppend(s, p2, Typed(v));
    TypingFillsFocusedBuffer(s3, v);
    var s4 := s3.(valueInput := s.valueInput + v);
    assert Run(s, p3) == Transition(s4, Continue);

    RunAppend(s, p3, [Keyboard(enter)]);
    RunSingle(s4, enter);
  }

  /** From the initial state, 'e', "name", Enter, "42", Enter leaves the main
      screen with exactly the pair name -> 42 and empty buffers. */
  lemma NameFortyTwo()
    ensures Run(Initial(), Commit("name", "42")) ==
      Transition(State(Main, None, "", "", map["name" := "42"]), Continue)
  {
    CommitFromMain(Initial(), "name", "42");
    assert "" + "name" == "name" && "" + "42" == "42";
  }

  /** Committing a -> 1 and then a -> 2 leaves one entry, a -> 2. */
  lemma LastWriteWins()
    ensures Run(Initial(), Commit("a", "1") + Commit("a", "2")).next.pairs == map["a" := "2"]
  {
    RunAppend(Initial(), Commit("a", "1"), Commit("a", "2"));
    CommitFromMain(Initial(), "a", "1");
    var s := State(Main, None, "", "", map["" + "a" := "" + "1"]);
    CommitFromMain(s, "a", "2");
    assert "" + "a" == "a" && "" + "1" == "1" && "" + "2" == "2";
    assert map["a" := "1"]["a" := "2"] == map["a" := "2"];
  }

  /** The keys 'e', "ab", Esc cancel the edit but keep "ab" in the key
      buffer. */
  lemma CancelKeepsTyping()
    ensures Run(Initial(), [Pressed(Char('e'))] + Typed("ab") + [Pressed(Esc)]) ==
      Transition(State(Main, None, "ab", "", map[]), Continue)
  {
    var e, esc := KeyEvent(Press, Char('e')), KeyEvent(Press, Esc);
    var s1 := State(Editing, Some(Key), "", "", map[]);
    RunFirstKey(Initial(), e, Typed("ab"));
    TypingFillsFocusedBuffer(s1, "ab");
    assert "" + "ab" == "ab";
    RunAppend(Initial(), [Keyboard(e)] + Typed("ab"), [Keyboard(esc)]);
    RunSingle(State(Editing, Some(Key), "ab", "", map[]), esc);
  }

  /** Because Esc keeps the buffers, text typed before a cancel ends up in
      the next committed pair: after 'e', "ab", Esc, the pair typed as
      c -> 1 is stored as abc -> 1. */
  lemma CancelledTextIsCommittedLater()
    ensures Run(Initial(), [Pressed(Char('e'))] + Typed("ab") + [Pressed(Esc)] + Commit("c", "1")).next.pairs
      == map["abc" := "1"]
  {
    var cancel := [Pressed(Char('e'))] + Typed("ab") + [Pressed(Esc)];
    CancelKeepsTyping();
    RunAppend(Initial(), cancel, Commit("c", "1"));
    CommitFromMain(State(Main, None, "ab", "", map[]), "c", "1");
    assert "ab" + "c" == "abc" && "" + "1" == "1";
  }

  /** From the main screen, 'q' then 'n' ends the loop without printing; the
      state, pairs included, is the one before 'q' apart from the screen, and
      later events are never read. */
  lemma QuitWithoutPrinting(s: State, later: seq<Event>)
    requires s.currentScreen == Main
    ensures Run(s, [Pressed(Char('q')), Pressed(Char('n'))] + later) ==
      Transition(s.(currentScreen := Exiting), Exit(false))
  {
    var q, n := KeyEvent(Press, Char('q')), KeyEvent(Press, Char('n'));
    assert [Pressed(Char('q')), Pressed(Char('n'))] + later == [Keyboard(q)] + ([Keyboard(n)] + later);
    RunFirstKey(s, q, [Keyboard(n)] + later);
    RunFirstKey(s.(currentScreen := Exiting), n, later);
  }

  /** From the main screen, 'q' then 'y' ends the loop asking for the pairs
      to be printed, with the pairs as they were before 'q'. */
  lemma QuitAndPrint(s: State, later: seq<Event>)
    requires s.currentScreen == Main
    ensures Run(s, [Pressed(Char('q')), Pressed(Char('y'))] + later) ==
      Transition(s.(currentScreen := Exiting), Exit(true))
  {
    var q, y := KeyEvent(Press, Char('q')), KeyEvent(Press, Char('y'));
    assert [Pressed(Char('q')), Pressed(Char('y'))] + later == [Keyboard(q)] + ([Keyboard(y)] + later);
    RunFirstKey(s, q, [Keyboard(y)] + later);
    RunFirstKey(s.(currentScreen := Exiting), y, later);
  }

  /** The name -> 42 interaction run in place on a freshly initialised `App`,
      followed by 'q' and 'y': the loop returns asking for the pairs to be
      printed, and they hold exactly name -> 42. */
  method NameFortyTwoThenPrint() returns (signal: Signal, pairs: map<string, string>)
    ensures signal == Exit(true)
    ensures pairs == map["name" := "42"]
  {
    var app := new App.Init();
    var events := Commit("name", "42") + [Pressed(Char('q')), Pressed(Char('y'))];
    signal := RunApp(app, events);
    NameFortyTwo();
    RunAppend(Initial(), Commit("name", "42"), [Pressed(Char('q')), Pressed(Char('y'))]);
    var s := State(Main, None, "", "", map["name" := "42"]);
    QuitAndPrint(s, []);
    assert [Pressed(Char('q')), Pressed(Char('y'))] + [] == [Pressed(Char('q')), Pressed(Char('y'))];
    pairs := app.pairs;
  }
}
