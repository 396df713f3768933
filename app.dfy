/**
 * What each menu action does to the program's state, as functions: the
 * specification the `Program` class is proved against, and the properties
 * the whole program keeps.
 */
module App {
  import opened Wrappers
  import opened DotNet
  import opened Codec
  import opened Terminal
  import opened Navigation
  import opened Editor
  import opened Repository

  /**
   * The program's static fields (`blocks`, `currentColor`, `currentChar`,
   * `selectedItem`) and the table of saved drawings.
   */
  datatype ProgramState = ProgramState(
    blocks: seq<Block>,
    color: Color,
    glyph: char,
    selected: int,
    db: seq<Drawing>)

  /** How a menu action ends. */
  datatype Outcome =
    | MenuMoved               // Up or Down on the menu
    | Ignored                 // any other key on the menu
    | InvalidName             // the drawing's name was missing or blank
    | StillDrawing            // the canvas loop is still running
    | Ended(saved: bool)      // Escape ended the canvas loop; a drawing was saved or not
    | CatalogEmpty            // the catalog was empty
    | ChoiceCancelled         // Escape in the catalog
    | StillChoosing           // the catalog is still waiting for Enter or Escape
    | Deleted(name: string)   // the named drawing's first record was removed
    | Crashed(error: Exception) // an exception left the program
    | Exited                  // `Environment.Exit(0)`

  datatype Transition = Transition(state: ProgramState, outcome: Outcome)

  /** The static initialisers, over the table the database starts with. */
  function Initial(db: seq<Drawing>): (st: ProgramState)
    ensures st.blocks == [] && st.selected == 0 && st.db == db
  {
    ProgramState([], DefaultColor, DefaultGlyph, 0, db)
  }

  /**
   * `StartDrawing`: a missing or blank name changes nothing; otherwise the
   * blocks are cleared, the canvas loop runs from the middle of the window,
   * and Escape saves the blocks under the name when there are any.
   */
  function NewSession(st: ProgramState, input: SessionInput): Transition {
    if IsNullOrWhiteSpace(input.nameLine) then Transition(st, InvalidName)
    else
      var run := Run(Open(input.windowWidth, input.windowHeight, st.color, st.glyph), input.polls);
      var s := run.state;
      var st' := st.(blocks := s.blocks, color := s.color, glyph := s.glyph);
      if !run.quit then Transition(st', StillDrawing)
      else if |s.blocks| > 0 then Transition(st'.(db := Save(st.db, input.nameLine.value, s.blocks)), Ended(true))
      else Transition(st', Ended(false))
  }

  /**
   * `EditDrawing`: choose a name; load its blocks (an exception leaves the
   * program); take the glyph and colour of the first block; then start a
   * drawing session.
   */
  function EditFlow(st: ProgramState, input: ChoiceInput): Transition {
    var names := Names(st.db);
    match Navigate(names, input.keys)
    case NoDrawings => Transition(st, CatalogEmpty)
    case Cancelled => Transition(st, ChoiceCancelled)
    case Browsing(_) => Transition(st, StillChoosing)
    case Chosen(i) =>
      match Load(st.db, names[i])
      case Err(e) => Transition(st, Crashed(e))
      case Ok(loaded) =>
        if |loaded| == 0 then Transition(st.(blocks := loaded), Crashed(ArgumentOutOfRangeException))
        else NewSession(st.(blocks := loaded, glyph := loaded[0].character, color := loaded[0].color), input.session)
  }

  /** `DeleteDrawing`: choose a name and remove the first record that has it. */
  function DeleteFlow(st: ProgramState, keys: seq<Key>): Transition {
    var names := Names(st.db);
    match Navigate(names, keys)
    case NoDrawings => Transition(st, CatalogEmpty)
    case Cancelled => Transition(st, ChoiceCancelled)
    case Browsing(_) => Transition(st, StillChoosing)
    case Chosen(i) =>
      match FindFirst(st.db, names[i])
      case None => Transition(st, StillChoosing)
      case Some(j) => Transition(st.(db := Remove(st.db, j)), Deleted(names[i]))
  }

  /** `HandleInput`: one key on the main menu, and the action it starts. */
  function MenuStep(st: ProgramState, key: Key, input: ChoiceInput): Transition {
    var count := |MenuItems|;
    match key
    case UpArrow => Transition(st.(selected := Up(st.selected, count)), MenuMoved)
    case DownArrow => Transition(st.(selected := Down(st.selected, count)), MenuMoved)
    case Enter =>
      if st.selected == 0 then NewSession(st, input.session)
      else if st.selected == 1 then EditFlow(st, input)
      else if st.selected == 2 then DeleteFlow(st, input.keys)
      else if st.selected == 3 then Transition(st, Exited)
      else Transition(st, Ignored)
    case _ => Transition(st, Ignored)
  }

  // ---------------------------------------------------------------------------
  // The menu

  /** Up and Down keep the highlighted menu item among the four, wrapping at both ends. */
  lemma MenuIndexInRange(st: ProgramState, key: Key, input: ChoiceInput)
    requires 0 <= st.selected < |MenuItems|
    ensures 0 <= MenuStep(st, key, input).state.selected < |MenuItems|
    ensures key == UpArrow ==> MenuStep(st, key, input).state.selected == (if st.selected == 0 then 3 else st.selected - 1)
    ensures key == DownArrow ==> MenuStep(st, key, input).state.selected == (if st.selected == 3 then 0 else st.selected + 1)
  {
  }

  /** Down after Up, or Up after Down, highlights the item it started on. */
  lemma MenuUpDown(st: ProgramState, input: ChoiceInput)
    requires 0 <= st.selected < |MenuItems|
    ensures MenuStep(MenuStep(st, UpArrow, input).state, DownArrow, input).state == st
    ensures MenuStep(MenuStep(st, DownArrow, input).state, UpArrow, input).state == st
  {
    UpDownInverse(st.selected, |MenuItems|);
  }

  /** Only Enter on the fourth item exits, and only Enter on the first three starts an action. */
  lemma MenuDispatch(st: ProgramState, key: Key, input: ChoiceInput)
    requires 0 <= st.selected < |MenuItems|
    ensures MenuStep(st, key, input).outcome == Exited <==> key == Enter && st.selected == 3
    ensures key != Enter ==> MenuStep(st, key, input).state.db == st.db
    ensures key != Enter ==> MenuStep(st, key, input).state.(selected := st.selected) == st
    ensures key == Enter && st.selected == 0 ==> MenuStep(st, key, input) == NewSession(st, input.session)
    ensures key == Enter && st.selected == 1 ==> MenuStep(st, key, input) == EditFlow(st, input)
    ensures key == Enter && st.selected == 2 ==> MenuStep(st, key, input) == DeleteFlow(st, input.keys)
  {
    if key == Enter && st.selected < 3 {
      assert MenuStep(st, key, input).outcome != Exited by {
        if st.selected == 0 {
          assert MenuStep(st, key, input) == NewSession(st, input.session);
        }
      }
    }
  }

  // ---------------------------------------------------------------------------
  // Drawing sessions

  /** A missing or blank name is refused, and then nothing changes: the blocks are not even cleared. */
  lemma InvalidNameChangesNothing(st: ProgramState, input: SessionInput)
    ensures NewSession(st, input).outcome == InvalidName <==> IsNullOrWhiteSpace(input.nameLine)
    ensures IsNullOrWhiteSpace(input.nameLine) ==> NewSession(st, input).state == st
  {
  }

  /**
   * A session starts from no blocks: what it ends with, and what it saves,
   * does not depend on the blocks held before (`blocks.Clear()`).
   */
  lemma SessionIgnoresPriorBlocks(st: ProgramState, input: SessionInput, prior: seq<Block>)
    requires !IsNullOrWhiteSpace(input.nameLine)
    ensures NewSession(st.(blocks := prior), input) == NewSession(st, input)
  {
  }

  /** With a valid name, the session ends exactly when one of the polls reads Escape. */
  lemma SessionEndsOnEscape(st: ProgramState, input: SessionInput)
    requires !IsNullOrWhiteSpace(input.nameLine)
    ensures NewSession(st, input).outcome.Ended?
        <==> exists j :: 0 <= j < |input.polls| && input.polls[j].key == Some(Escape)
  {
    RunQuitsIffEscape(Open(input.windowWidth, input.windowHeight, st.color, st.glyph), input.polls);
  }

  /**
   * Escape always ends the session, and saves exactly when blocks were
   * placed: one new record, under the session's name, at the end of the
   * table, which reads back as the blocks placed.
   */
  lemma SessionSavesIffBlocks(st: ProgramState, input: SessionInput)
    requires !IsNullOrWhiteSpace(input.nameLine)
    requires StorableBrush(State(Centre(input.windowWidth, input.windowHeight), st.color, st.glyph, []))
    ensures var t := NewSession(st, input);
      (t.outcome.Ended? <==> Run(Open(input.windowWidth, input.windowHeight, st.color, st.glyph), input.polls).quit)
      && (t.outcome == Ended(true) <==> t.outcome.Ended? && |t.state.blocks| > 0)
      && (t.outcome == Ended(true) ==>
            |t.state.db| == |st.db| + 1 && t.state.db[..|st.db|] == st.db
            && t.state.db[|st.db|].name == input.nameLine.value
            && Decode(t.state.db[|st.db|].data) == Ok(t.state.blocks))
      && (t.outcome != Ended(true) ==> t.state.db == st.db)
  {
    var start := Open(input.windowWidth, input.windowHeight, st.color, st.glyph);
    RunKeepsStorable(start, input.polls);
    var blocks := Run(start, input.polls).state.blocks;
    if |blocks| > 0 {
      DecodeEncode(blocks);
    }
  }

  // ---------------------------------------------------------------------------
  // Editing and deleting

  /**
   * Editing a listed drawing never meets a name that is not stored, and from
   * a readable table it opens a session with the first block's glyph and
   * colour, the loaded blocks themselves being cleared when the session starts.
   */
  lemma EditChosen(st: ProgramState, input: ChoiceInput)
    requires AllReadable(st.db)
    requires Navigate(Names(st.db), input.keys).Chosen?
    ensures var name := Names(st.db)[Navigate(Names(st.db), input.keys).index];
      var loaded := Load(st.db, name).value;
      Load(st.db, name).Ok? && |loaded| >= 1
      && EditFlow(st, input) == NewSession(st.(blocks := loaded, glyph := loaded[0].character, color := loaded[0].color), input.session)
      && (!IsNullOrWhiteSpace(input.session.nameLine) ==>
            EditFlow(st, input) == NewSession(st.(glyph := loaded[0].character, color := loaded[0].color), input.session))
  {
    var names := Names(st.db);
    var name := names[Navigate(names, input.keys).index];
    LoadListed(st.db, name);
  }

  /** An edit that is cancelled, or still waiting for Enter or Escape, changes nothing. */
  lemma EditNotChosen(st: ProgramState, input: ChoiceInput)
    ensures !Navigate(Names(st.db), input.keys).Chosen? ==> EditFlow(st, input).state == st
    ensures Navigate(Names(st.db), input.keys) == Cancelled ==> EditFlow(st, input).outcome == ChoiceCancelled
  {
  }

  /** With no saved drawings, edit and delete return before reading a key, and change nothing. */
  lemma EmptyCatalog(st: ProgramState, input: ChoiceInput)
    requires st.db == []
    ensures EditFlow(st, input) == Transition(st, CatalogEmpty)
    ensures DeleteFlow(st, input.keys) == Transition(st, CatalogEmpty)
  {
  }

  /**
   * Confirming a name in the delete flow removes the first record with that
   * name, and only it; cancelling or running out of keys removes nothing.
   */
  lemma DeleteChosen(st: ProgramState, keys: seq<Key>)
    ensures var t := DeleteFlow(st, keys);
      var sel := Navigate(Names(st.db), keys);
      (t.outcome.Deleted? <==> sel.Chosen?)
      && (sel.Chosen? ==>
            var name := Names(st.db)[sel.index];
            t.outcome == Deleted(name)
            && t.state == st.(db := Remove(st.db, FindFirst(st.db, name).value))
            && multiset(Names(t.state.db)) == multiset(Names(st.db)) - multiset{name})
      && (!sel.Chosen? ==> t.state == st)
  {
    var sel := Navigate(Names(st.db), keys);
    if sel.Chosen? {
      var name := Names(st.db)[sel.index];
      LoadListed(st.db, name);
      RemoveFirstName(st.db, name);
    }
  }

  /** Deleting the only saved drawing empties the catalog: the next edit or delete finds no drawings. */
  lemma DeleteSoleDrawing(st: ProgramState, keys: seq<Key>, next: ChoiceInput)
    requires |st.db| == 1 && Navigate(Names(st.db), keys).Chosen?
    ensures DeleteFlow(st, keys).outcome == Deleted(st.db[0].name)
    ensures DeleteFlow(st, keys).state.db == []
    ensures EditFlow(DeleteFlow(st, keys).state, next).outcome == CatalogEmpty
    ensures DeleteFlow(DeleteFlow(st, keys).state, next.keys).outcome == CatalogEmpty
  {
    RemoveSole(st.db);
  }

  // ---------------------------------------------------------------------------
  // The whole program

  /**
   * What holds between menu actions: the highlighted item is one of the four,
   * the glyph in use can be stored, the colour in use is a named one, and
   * every saved record reads back with named colours only. So every colour
   * the program hands to the console, the current colour when a block is
   * placed and a loaded block's colour when it is painted, is a named one.
   */
  predicate Consistent(st: ProgramState) {
    0 <= st.selected < |MenuItems|
    && st.glyph != ',' && st.glyph != ';' && !st.color.Unnamed?
    && AllReadable(st.db)
  }

  lemma InitialConsistent(db: seq<Drawing>)
    requires AllReadable(db)
    ensures Consistent(Initial(db))
  {
  }

  lemma NewSessionKeeps(st: ProgramState, input: SessionInput)
    requires Consistent(st)
    ensures Consistent(NewSession(st, input).state)
    ensures !NewSession(st, input).outcome.Crashed?
  {
    if !IsNullOrWhiteSpace(input.nameLine) {
      var start := Open(input.windowWidth, input.windowHeight, st.color, st.glyph);
      RunKeepsStorable(start, input.polls);
      RunKeepsNamed(start, input.polls);
      var blocks := Run(start, input.polls).state.blocks;
      if |blocks| > 0 {
        SaveKeepsReadable(st.db, input.nameLine.value, blocks);
      }
    }
  }

  lemma EditKeeps(st: ProgramState, input: ChoiceInput)
    requires Consistent(st)
    ensures Consistent(EditFlow(st, input).state)
    ensures !EditFlow(st, input).outcome.Crashed?
  {
    var names := Names(st.db);
    var sel := Navigate(names, input.keys);
    if sel.Chosen? {
      EditChosen(st, input);
      var loaded := Load(st.db, names[sel.index]).value;
      assert Storable(loaded[0]);
      NewSessionKeeps(st.(blocks := loaded, glyph := loaded[0].character, color := loaded[0].color), input.session);
    }
  }

  lemma DeleteKeeps(st: ProgramState, keys: seq<Key>)
    requires Consistent(st)
    ensures Consistent(DeleteFlow(st, keys).state)
  {
    var names := Names(st.db);
    var sel := Navigate(names, keys);
    if sel.Chosen? {
      LoadListed(st.db, names[sel.index]);
      RemoveKeepsReadable(st.db, FindFirst(st.db, names[sel.index]).value);
    }
  }

  /**
   * Every menu action keeps the program consistent, and none crashes: a
   * program that starts from a readable table only ever saves drawings it
   * can load again, so editing never meets a format exception.
   */
  lemma MenuStepKeeps(st: ProgramState, key: Key, input: ChoiceInput)
    requires Consistent(st)
    ensures Consistent(MenuStep(st, key, input).state)
    ensures !MenuStep(st, key, input).outcome.Crashed?
  {
    if key == Enter {
      if st.selected == 0 {
        NewSessionKeeps(st, input.session);
      } else if st.selected == 1 {
        EditKeeps(st, input);
      } else if st.selected == 2 {
        DeleteKeeps(st, input.keys);
      }
    }
  }

  // ---------------------------------------------------------------------------
  // A scenario

  /**
   * A new drawing named "sky" in an 80 x 25 window: two presses of the right
   * arrow, Space and Escape save exactly one record named "sky", which reads
   * back as one block two cells right of the middle.
   */
  lemma SkyScenario(db: seq<Drawing>)
    ensures var p := Poll(80, 25, None);
      var input := SessionInput(Some("sky"), 80, 25,
        [p.(key := Some(RightArrow)), p.(key := Some(RightArrow)), p.(key := Some(Spacebar)), p.(key := Some(Escape))]);
      var t := NewSession(Initial(db), input);
      t.outcome == Ended(true)
      && t.state.db == db + [Drawing("sky", Encode([Block(42, 11, DefaultGlyph, DefaultColor)]))]
      && Decode(t.state.db[|db|].data) == Ok([Block(42, 11, DefaultGlyph, DefaultColor)])
  {
    assert "sky"[0] == 's' && !IsWhiteSpace('s');
    RightTwicePlaceQuit();
    DecodeEncode([Block(42, 11, DefaultGlyph, DefaultColor)]);
  }
}
