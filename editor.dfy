/**
 * The canvas editor: one iteration of the drawing loop as a state transition.
 * The loop watches the window size, and reacts to the arrow keys (move the
 * cursor inside the frame), Space (place a block), 1-4 (pick a colour) and
 * Escape (end the session).
 */
module Editor {
  import opened Wrappers
  import opened DotNet
  import opened Codec
  import opened Terminal

  /** The glyph a fresh program draws with, U+2588 FULL BLOCK. */
  const DefaultGlyph: char := '\U{2588}'

  /** The colour a fresh program draws with. */
  const DefaultColor: Color := White

  /**
   * The loop's locals: the cursor and the canvas size (the window's width,
   * and its height less the two rows above and below the frame).
   */
  datatype Cursor = Cursor(x: int32, y: int32, width: int32, height: int32)

  /** The cursor lies in the frame's interior `[1, width-2] x [1, height-2]`. */
  predicate Inside(c: Cursor) {
    1 <= c.x as int <= c.width as int - 2 && 1 <= c.y as int <= c.height as int - 2
  }

  /** The interior has at least one cell: the window is at least 3 columns by 5 rows. */
  predicate RoomyWindow(windowWidth: WindowSize, windowHeight: WindowSize) {
    windowWidth >= 3 && windowHeight >= 5
  }

  /**
   * The canvas for a window of the given size, with the cursor in its middle:
   * how the loop starts, and what it resets to when the window is resized.
   */
  function Centre(windowWidth: WindowSize, windowHeight: WindowSize): (c: Cursor)
    ensures c.width == windowWidth && c.height as int == windowHeight as int - 2
    ensures 0 <= c.width as int - 2 * c.x as int <= 1
    ensures windowHeight >= 2 ==> 0 <= c.height as int - 2 * c.y as int <= 1
    ensures RoomyWindow(windowWidth, windowHeight) ==> Inside(c)
  {
    var height := windowHeight - 2;
    Cursor(CsDiv(windowWidth as int, 2) as int32, CsDiv(height as int, 2) as int32, windowWidth, height)
  }

  /** The window's size differs from the one the canvas was laid out for. */
  predicate Resized(c: Cursor, p: Poll) {
    p.windowWidth != c.width || p.windowHeight as int != c.height as int + 2
  }

  /** An arrow key moves the cursor one cell, unless that would reach the frame. */
  function Move(c: Cursor, k: Key): (r: Cursor)
    ensures r.width == c.width && r.height == c.height
    ensures Inside(c) ==> Inside(r)
    ensures (r.x == c.x || r.y == c.y) && -1 <= r.x as int - c.x as int <= 1 && -1 <= r.y as int - c.y as int <= 1
    ensures !(k.UpArrow? || k.DownArrow? || k.LeftArrow? || k.RightArrow?) ==> r == c
  {
    match k
    case UpArrow => if c.y > 1 then c.(y := c.y - 1) else c
    case DownArrow => if c.y as int < c.height as int - 2 then c.(y := c.y + 1) else c
    case LeftArrow => if c.x > 1 then c.(x := c.x - 1) else c
    case RightArrow => if c.x as int < c.width as int - 2 then c.(x := c.x + 1) else c
    case _ => c
  }

  /** Moving against an edge of the interior leaves the cursor where it is: there is no wraparound. */
  lemma MoveClampsAtEdges(c: Cursor)
    requires Inside(c)
    ensures c.y == 1 ==> Move(c, UpArrow) == c
    ensures c.y as int == c.height as int - 2 ==> Move(c, DownArrow) == c
    ensures c.x == 1 ==> Move(c, LeftArrow) == c
    ensures c.x as int == c.width as int - 2 ==> Move(c, RightArrow) == c
    ensures c.y > 1 ==> Move(c, UpArrow) == c.(y := c.y - 1)
    ensures c.y as int < c.height as int - 2 ==> Move(c, DownArrow) == c.(y := c.y + 1)
    ensures c.x > 1 ==> Move(c, LeftArrow) == c.(x := c.x - 1)
    ensures c.x as int < c.width as int - 2 ==> Move(c, RightArrow) == c.(x := c.x + 1)
  {
  }

  /** The colour each of the keys 1-4 selects. */
  function KeyColor(k: Key): (c: Option<Color>)
    ensures c.Some? <==> (k.D1? || k.D2? || k.D3? || k.D4?)
  {
    match k
    case D1 => Some(Red)
    case D2 => Some(Green)
    case D3 => Some(Blue)
    case D4 => Some(Yellow)
    case _ => None
  }

  /** The loop's state: its cursor with `currentColor`, `currentChar` and `blocks`. */
  datatype State = State(cursor: Cursor, color: Color, glyph: char, blocks: seq<Block>)

  /** The state after an iteration, and whether the loop returned. */
  datatype Progress = Progress(state: State, quit: bool)

  /** The block Space places: the glyph and colour in use, at the cursor. */
  function BlockAtCursor(s: State): Block {
    Block(s.cursor.x, s.cursor.y, s.glyph, s.color)
  }

  /** The `switch` on the key read. */
  function OnKey(s: State, k: Key): (p: Progress)
    ensures p.quit <==> k == Escape
    ensures p.state.glyph == s.glyph
    ensures p.state.cursor == Move(s.cursor, k)
    ensures p.state.color == (if KeyColor(k).Some? then KeyColor(k).value else s.color)
    ensures p.state.blocks == (if k == Spacebar then s.blocks + [BlockAtCursor(s)] else s.blocks)
  {
    match k
    case UpArrow | DownArrow | LeftArrow | RightArrow => Progress(s.(cursor := Move(s.cursor, k)), false)
    case Spacebar => Progress(s.(blocks := s.blocks + [BlockAtCursor(s)]), false)
    case D1 => Progress(s.(color := Red), false)
    case D2 => Progress(s.(color := Green), false)
    case D3 => Progress(s.(color := Blue), false)
    case D4 => Progress(s.(color := Yellow), false)
    case Escape => Progress(s, true)
    case _ => Progress(s, false)
  }

  /** One iteration of the loop: the resize check, then the key if one is available. */
  function Step(s: State, p: Poll): Progress {
    var cursor := if Resized(s.cursor, p) then Centre(p.windowWidth, p.windowHeight) else s.cursor;
    var s' := s.(cursor := cursor);
    match p.key
    case None => Progress(s', false)
    case Some(k) => OnKey(s', k)
  }

  /** The loop over the iterations observed so far, stopping at the first that returns. */
  function Run(s: State, polls: seq<Poll>): (p: Progress)
    decreases |polls|
  {
    if polls == [] then Progress(s, false)
    else
      var before := Run(s, polls[..|polls| - 1]);
      if before.quit then before else Step(before.state, polls[|polls| - 1])
  }

  /** The state a session opens with, for the window size at that moment. */
  function Open(windowWidth: WindowSize, windowHeight: WindowSize, color: Color, glyph: char): State {
    State(Centre(windowWidth, windowHeight), color, glyph, [])
  }

  // ---------------------------------------------------------------------------
  // Properties of one key press

  /** Space appends exactly one block, at the end; every earlier block stays, even one at the same cell. */
  lemma SpaceAppendsOneBlock(s: State)
    ensures var b := OnKey(s, Spacebar).state.blocks;
      |b| == |s.blocks| + 1 && b[..|s.blocks|] == s.blocks
      && b[|s.blocks|] == Block(s.cursor.x, s.cursor.y, s.glyph, s.color)
    ensures OnKey(s, Spacebar).state.cursor == s.cursor && OnKey(s, Spacebar).state.color == s.color
  {
    assert (s.blocks + [BlockAtCursor(s)])[..|s.blocks|] == s.blocks;
  }

  /** Keys 1-4 pick red, green, blue and yellow, and change nothing else. */
  lemma DigitKeysPickColors(s: State)
    ensures OnKey(s, D1) == Progress(s.(color := Red), false)
    ensures OnKey(s, D2) == Progress(s.(color := Green), false)
    ensures OnKey(s, D3) == Progress(s.(color := Blue), false)
    ensures OnKey(s, D4) == Progress(s.(color := Yellow), false)
  {
  }

  /** Escape ends the session and leaves its state as it was. */
  lemma EscapeQuits(s: State)
    ensures OnKey(s, Escape) == Progress(s, true)
  {
  }

  // ---------------------------------------------------------------------------
  // Properties of the loop

  /** An iteration keeps the cursor inside the frame, whether or not the window was resized. */
  lemma StepKeepsInside(s: State, p: Poll)
    requires Inside(s.cursor) && RoomyWindow(p.windowWidth, p.windowHeight)
    ensures Inside(Step(s, p).state.cursor)
  {
  }

  /**
   * The canvas always takes the size of the window polled; a resize lays it
   * out again with the cursor in the middle, where a following key acts.
   */
  lemma StepFollowsWindow(s: State, p: Poll)
    ensures var c := Step(s, p).state.cursor;
      c.width == p.windowWidth && c.height as int == p.windowHeight as int - 2
    ensures Resized(s.cursor, p) && p.key.None? ==> Step(s, p) == Progress(s.(cursor := Centre(p.windowWidth, p.windowHeight)), false)
    ensures Resized(s.cursor, p) && p.key.Some? ==> Step(s, p) == OnKey(s.(cursor := Centre(p.windowWidth, p.windowHeight)), p.key.value)
    ensures !Resized(s.cursor, p) && p.key.None? ==> Step(s, p) == Progress(s, false)
    ensures !Resized(s.cursor, p) && p.key.Some? ==> Step(s, p) == OnKey(s, p.key.value)
  {
  }

  /** The loop returns exactly when one of the polls read Escape. */
  lemma {:induction false} RunQuitsIffEscape(s: State, polls: seq<Poll>)
    ensures Run(s, polls).quit <==> exists j :: 0 <= j < |polls| && polls[j].key == Some(Escape)
    decreases |polls|
  {
    if polls != [] {
      var n := |polls| - 1;
      var front := polls[..n];
      RunQuitsIffEscape(s, front);
      assert forall j :: 0 <= j < n ==> front[j] == polls[j];
      var before := Run(s, front);
      if !before.quit {
        var p := polls[n];
        assert Step(before.state, p).quit <==> p.key == Some(Escape);
      }
    }
  }

  /** Once the loop has returned, later iterations do not happen. */
  lemma {:induction false} RunAfterQuit(s: State, polls: seq<Poll>, i: nat)
    requires i <= |polls| && Run(s, polls[..i]).quit
    ensures Run(s, polls) == Run(s, polls[..i])
    decreases |polls| - i
  {
    if i < |polls| {
      assert polls[..i + 1][..i] == polls[..i];
      RunAfterQuit(s, polls, i + 1);
    } else {
      assert polls[..i] == polls;
    }
  }

  predicate AllRoomy(polls: seq<Poll>) {
    forall j :: 0 <= j < |polls| ==> RoomyWindow(polls[j].windowWidth, polls[j].windowHeight)
  }

  /**
   * However the keys and resizes come, the cursor never leaves the frame's
   * interior while the window has one, the glyph never changes, and the
   * blocks only grow, each new one drawn with that glyph.
   */
  lemma {:induction false} RunInvariant(s: State, polls: seq<Poll>)
    requires Inside(s.cursor) && AllRoomy(polls)
    ensures var r := Run(s, polls).state;
      Inside(r.cursor) && r.glyph == s.glyph
      && |s.blocks| <= |r.blocks| && r.blocks[..|s.blocks|] == s.blocks
      && forall j :: |s.blocks| <= j < |r.blocks| ==> r.blocks[j].character == s.glyph
    decreases |polls|
  {
    if polls != [] {
      var front := polls[..|polls| - 1];
      assert AllRoomy(front) by {
        forall j | 0 <= j < |front| ensures RoomyWindow(front[j].windowWidth, front[j].windowHeight) {
          assert front[j] == polls[j];
        }
      }
      RunInvariant(s, front);
      var before := Run(s, front);
      if !before.quit {
        var p := polls[|polls| - 1];
        StepKeepsInside(before.state, p);
        var r := Step(before.state, p).state;
        var b := before.state.blocks;
        assert r.blocks == b || r.blocks == b + [r.blocks[|b|]];
        assert r.blocks[..|b|] == b;
        assert r.blocks[..|s.blocks|] == b[..|s.blocks|];
      }
    }
  }

  /**
   * While the window keeps the size the canvas was laid out for, every block
   * placed lies inside the frame's interior.
   */
  lemma {:induction false} RunPlacesInside(s: State, polls: seq<Poll>)
    requires Inside(s.cursor)
    requires forall j :: 0 <= j < |polls| ==> !Resized(s.cursor, polls[j])
    ensures var r := Run(s, polls).state;
      r.cursor.width == s.cursor.width && r.cursor.height == s.cursor.height && Inside(r.cursor)
      && |s.blocks| <= |r.blocks| && r.blocks[..|s.blocks|] == s.blocks
      && forall j :: |s.blocks| <= j < |r.blocks| ==>
           Inside(Cursor(r.blocks[j].x, r.blocks[j].y, s.cursor.width, s.cursor.height))
    decreases |polls|
  {
    if polls != [] {
      var front := polls[..|polls| - 1];
      assert forall j :: 0 <= j < |front| ==> front[j] == polls[j];
      RunPlacesInside(s, front);
      var before := Run(s, front);
      if !before.quit {
        var p := polls[|polls| - 1];
        var r := Step(before.state, p).state;
        var b := before.state.blocks;
        assert r.blocks == b || r.blocks == b + [r.blocks[|b|]];
        assert r.blocks[..|b|] == b;
        assert r.blocks[..|s.blocks|] == b[..|s.blocks|];
      }
    }
  }

  /** The glyph and colour in use are ones the stored format can carry. */
  predicate StorableBrush(s: State) {
    s.glyph != ',' && s.glyph != ';' && IsCanonical(s.color)
  }

  /**
   * A session that starts with a storable glyph and colour only ever places
   * blocks the format can carry: the digit keys pick named colours, and the
   * glyph never changes.
   */
  lemma {:induction false} RunKeepsStorable(s: State, polls: seq<Poll>)
    requires StorableBrush(s) && AllStorable(s.blocks)
    ensures var r := Run(s, polls).state;
      r.glyph == s.glyph && StorableBrush(r) && AllStorable(r.blocks)
    decreases |polls|
  {
    if polls != [] {
      var front := polls[..|polls| - 1];
      RunKeepsStorable(s, front);
      var before := Run(s, front);
      if !before.quit {
        var r := Step(before.state, polls[|polls| - 1]).state;
        var b := before.state.blocks;
        assert r.blocks == b || r.blocks == b + [r.blocks[|b|]];
        assert forall j :: 0 <= j < |b| ==> r.blocks[j] == b[j];
      }
    }
  }

  /**
   * A session that starts with a named colour keeps one: the digit keys pick
   * named colours, so every block placed has a colour the console can paint.
   */
  lemma {:induction false} RunKeepsNamed(s: State, polls: seq<Poll>)
    requires !s.color.Unnamed? && AllNamed(s.blocks)
    ensures var r := Run(s, polls).state;
      !r.color.Unnamed? && AllNamed(r.blocks)
    decreases |polls|
  {
    if polls != [] {
      var front := polls[..|polls| - 1];
      RunKeepsNamed(s, front);
      var before := Run(s, front);
      if !before.quit {
        var r := Step(before.state, polls[|polls| - 1]).state;
        var b := before.state.blocks;
        assert r.blocks == b || r.blocks == b + [r.blocks[|b|]];
        assert forall j :: 0 <= j < |b| ==> r.blocks[j] == b[j];
      }
    }
  }

  /**
   * With an 80 x 25 window: two presses of the right arrow, Space and Escape
   * place one block two cells right of the middle, and end the session.
   */
  lemma RightTwicePlaceQuit()
    ensures var p := Poll(80, 25, None);
      Run(Open(80, 25, DefaultColor, DefaultGlyph),
          [p.(key := Some(RightArrow)), p.(key := Some(RightArrow)), p.(key := Some(Spacebar)), p.(key := Some(Escape))])
      == Progress(State(Cursor(42, 11, 80, 23), DefaultColor, DefaultGlyph, [Block(42, 11, DefaultGlyph, DefaultColor)]), true)
  {
    var p := Poll(80, 25, None);
    var polls := [p.(key := Some(RightArrow)), p.(key := Some(RightArrow)), p.(key := Some(Spacebar)), p.(key := Some(Escape))];
    var s0 := Open(80, 25, DefaultColor, DefaultGlyph);
    assert s0.cursor == Cursor(40, 11, 80, 23);
    var s1 := s0.(cursor := Cursor(41, 11, 80, 23));
    var s2 := s0.(cursor := Cursor(42, 11, 80, 23));
    var s3 := s2.(blocks := [Block(42, 11, DefaultGlyph, DefaultColor)]);
    RunPrefix(s0, polls, 0);
    assert polls[..0] == [];
    assert Step(s0, polls[0]) == Progress(s1, false);
    RunPrefix(s0, polls, 1);
    assert Step(s1, polls[1]) == Progress(s2, false);
    RunPrefix(s0, polls, 2);
    assert Step(s2, polls[2]) == Progress(s3, false);
    RunPrefix(s0, polls, 3);
    assert Step(s3, polls[3]) == Progress(s3, true);
    assert polls[..4] == polls;
  }

  /** One more iteration of the loop, as `Run` sees it. */
  lemma RunPrefix(s: State, polls: seq<Poll>, i: nat)
    requires i < |polls|
    ensures var before := Run(s, polls[..i]);
      Run(s, polls[..i + 1]) == if before.quit then before else Step(before.state, polls[i])
  {
    assert polls[..i + 1][..i] == polls[..i];
  }
}
