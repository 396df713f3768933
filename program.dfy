/**
 * The program itself: its static fields as the fields of one object, and
 * each static method as a method that updates them in place. The table of
 * saved drawings is a field too, standing for the `Drawings` set of the
 * database context. Every method is proved to do what the functions of
 * `App` say.
 */
module ConsoleDraw {
  import opened Wrappers
  import opened DotNet
  import opened Codec
  import opened Terminal
  import opened Navigation
  import opened Editor
  import opened Repository
  import opened App

  class Program {
    var blocks: seq<Block>
    var currentColor: Color
    var currentChar: char
    var selectedItem: int
    /** The rows of the `Drawings` table, in table order. */
    var db: seq<Drawing>

    /** The fields, as a value. */
    function Snapshot(): ProgramState
      reads this
    {
      ProgramState(blocks, currentColor, currentChar, selectedItem, db)
    }

    /** The static initialisers, over the table the database holds. */
    constructor (table: seq<Drawing>)
      ensures Snapshot() == Initial(table)
    {
      blocks := [];
      currentColor := DefaultColor;
      currentChar := DefaultGlyph;
      selectedItem := 0;
      db := table;
    }

    /** `SaveDrawingToDatabase`: add one record holding the encoded blocks. */
    method SaveDrawingToDatabase(drawingName: string, toSave: seq<Block>)
      modifies this
      ensures db == Save(old(db), drawingName, toSave)
      ensures blocks == old(blocks) && currentColor == old(currentColor)
      ensures currentChar == old(currentChar) && selectedItem == old(selectedItem)
    {
      var drawingData := Encode(toSave);
      db := db + [Drawing(drawingName, drawingData)];
    }

    /**
     * `LoadDrawingFromDatabase`: find the first record with the name, then
     * decode its records one by one, appending each block, and stop at the
     * first exception.
     */
    method LoadDrawingFromDatabase(drawingName: string) returns (r: Result<seq<Block>, Exception>)
      ensures r == Load(db, drawingName)
    {
      var found := FindFirst(db, drawingName);
      if found.None? {
        return Ok([]);
      }
      var records := Split(db[found.value].data, ';');
      var loadedBlocks: seq<Block> := [];
      var k := 0;
      while k < |records|
        invariant 0 <= k <= |records|
        invariant Collect(DecodeRecords(records)[..k]) == Ok(loadedBlocks)
      {
        CollectStep(records, k, loadedBlocks);
        var parts := Split(records[k], ',');
        var x := ParseInt(parts[0]);
        if x.Err? {
          return Err(x.error);
        }
        if |parts| < 2 {
          return Err(IndexOutOfRangeException);
        }
        var y := ParseInt(parts[1]);
        if y.Err? {
          return Err(y.error);
        }
        if |parts| < 3 || |parts[2]| == 0 {
          return Err(IndexOutOfRangeException);
        }
        var character := parts[2][0];
        if |parts| < 4 {
          return Err(IndexOutOfRangeException);
        }
        var ordinal := ParseInt(parts[3]);
        if ordinal.Err? {
          return Err(ordinal.error);
        }
        var color := ColorOf(ordinal.value);
        loadedBlocks := loadedBlocks + [Block(x.value, y.value, character, color)];
        k := k + 1;
      }
      assert DecodeRecords(records)[..k] == DecodeRecords(records);
      return Ok(loadedBlocks);
    }

    /** `PlaceBlock`: append the block; every earlier block stays. */
    method PlaceBlock(x: int32, y: int32, character: char, color: Color)
      modifies this
      ensures blocks == old(blocks) + [Block(x, y, character, color)]
      ensures currentColor == old(currentColor) && currentChar == old(currentChar)
      ensures selectedItem == old(selectedItem) && db == old(db)
    {
      blocks := blocks + [Block(x, y, character, color)];
    }

    /**
     * `StartDrawing`: read the name; clear the blocks; run the canvas loop
     * over the polls, reacting to resizes and keys, until Escape saves the
     * blocks (when there are any) and returns.
     */
    method StartDrawing(input: SessionInput) returns (o: Outcome)
      modifies this
      ensures Transition(Snapshot(), o) == NewSession(old(Snapshot()), input)
    {
      var drawingName := input.nameLine;
      if IsNullOrWhiteSpace(drawingName) {
        return InvalidName;
      }
      blocks := [];
      var width: int32 := input.windowWidth;
      var height: int32 := input.windowHeight - 2;
      var x: int32 := CsDiv(width as int, 2) as int32;
      var y: int32 := CsDiv(height as int, 2) as int32;
      ghost var start := Open(input.windowWidth, input.windowHeight, currentColor, currentChar);
      var polls := input.polls;
      var i := 0;
      while i < |polls|
        invariant 0 <= i <= |polls|
        invariant Run(start, polls[..i]) == Progress(Editor.State(Cursor(x, y, width, height), currentColor, currentChar, blocks), false)
        invariant selectedItem == old(selectedItem) && db == old(db)
      {
        RunPrefix(start, polls, i);
        var p := polls[i];
        if p.windowWidth != width || p.windowHeight as int != height as int + 2 {
          width := p.windowWidth;
          height := p.windowHeight - 2;
          x := CsDiv(width as int, 2) as int32;
          y := CsDiv(height as int, 2) as int32;
        }
        if p.key == Some(Escape) {
          RunAfterQuit(start, polls, i + 1);
          if |blocks| > 0 {
            SaveDrawingToDatabase(drawingName.value, blocks);
            return Ended(true);
          }
          return Ended(false);
        } else if p.key.Some? {
          x, y := KeyPressed(p.key.value, x, y, width, height);
        }
        i := i + 1;
      }
      assert polls[..i] == polls;
      return StillDrawing;
    }

    /**
     * The canvas loop's `switch` on a key other than Escape: an arrow moves
     * the cursor unless that would reach the frame, Space places a block,
     * 1-4 pick a colour, any other key does nothing.
     */
    method KeyPressed(key: Key, x: int32, y: int32, width: int32, height: int32) returns (x': int32, y': int32)
      requires key != Escape
      modifies this
      ensures OnKey(Editor.State(Cursor(x, y, width, height), old(currentColor), old(currentChar), old(blocks)), key)
           == Progress(Editor.State(Cursor(x', y', width, height), currentColor, currentChar, blocks), false)
      ensures selectedItem == old(selectedItem) && db == old(db)
    {
      x', y' := x, y;
      match key
      case UpArrow =>
        if y > 1 { y' := y - 1; }
      case DownArrow =>
        if y as int < height as int - 2 { y' := y + 1; }
      case LeftArrow =>
        if x > 1 { x' := x - 1; }
      case RightArrow =>
        if x as int < width as int - 2 { x' := x + 1; }
      case Spacebar =>
        PlaceBlock(x, y, currentChar, currentColor);
      case D1 =>
        currentColor := Red;
      case D2 =>
        currentColor := Green;
      case D3 =>
        currentColor := Blue;
      case D4 =>
        currentColor := Yellow;
      case _ =>
    }

    /**
     * The catalog loop that `EditDrawing` and `DeleteDrawing` both run over a
     * non-empty list of names: Up and Down move the highlight round the list,
     * Enter chooses, Escape cancels.
     */
    static method ChooseDrawing(drawingNames: seq<string>, keys: seq<Key>) returns (s: Selection)
      requires |drawingNames| > 0
      ensures s == Navigate(drawingNames, keys)
    {
      var count := |drawingNames|;
      var selectedDrawingIndex: nat := 0;
      var k := 0;
      while k < |keys|
        invariant 0 <= k <= |keys| && selectedDrawingIndex < count
        invariant SelectFrom(count, selectedDrawingIndex, keys[k..]) == Navigate(drawingNames, keys)
      {
        assert keys[k..][0] == keys[k] && keys[k..][1..] == keys[k + 1..];
        var key := keys[k];
        if key == UpArrow {
          selectedDrawingIndex := CsRem(selectedDrawingIndex - 1 + count, count);
        } else if key == DownArrow {
          selectedDrawingIndex := CsRem(selectedDrawingIndex + 1, count);
        } else if key == Enter {
          return Chosen(selectedDrawingIndex);
        } else if key == Escape {
          return Cancelled;
        }
        k := k + 1;
      }
      return Browsing(selectedDrawingIndex);
    }

    /**
     * `EditDrawing`: with no drawings, return; otherwise choose one, load it,
     * take its first block's glyph and colour, and start a drawing session.
     */
    method EditDrawing(input: ChoiceInput) returns (o: Outcome)
      modifies this
      ensures Transition(Snapshot(), o) == EditFlow(old(Snapshot()), input)
    {
      var drawingNames := Names(db);
      if |drawingNames| == 0 {
        return CatalogEmpty;
      }
      var selection := ChooseDrawing(drawingNames, input.keys);
      if selection.Chosen? {
        var selectedDrawing := drawingNames[selection.index];
        var loaded := LoadDrawingFromDatabase(selectedDrawing);
        if loaded.Err? {
          return Crashed(loaded.error);
        }
        blocks := loaded.value;
        if |blocks| == 0 {
          return Crashed(ArgumentOutOfRangeException);
        }
        currentChar := blocks[0].character;
        currentColor := blocks[0].color;
        o := StartDrawing(input.session);
      } else if selection == Cancelled {
        o := ChoiceCancelled;
      } else {
        o := StillChoosing;
      }
    }

    /**
     * `DeleteDrawing`: with no drawings, return; otherwise choose one and
     * remove the first record with its name.
     */
    method DeleteDrawing(keys: seq<Key>) returns (o: Outcome)
      modifies this
      ensures Transition(Snapshot(), o) == DeleteFlow(old(Snapshot()), keys)
    {
      var drawingNames := Names(db);
      if |drawingNames| == 0 {
        return CatalogEmpty;
      }
      var selection := ChooseDrawing(drawingNames, keys);
      if selection.Chosen? {
        var selectedDrawing := drawingNames[selection.index];
        var drawingToDelete := FindFirst(db, selectedDrawing);
        o := StillChoosing;
        if drawingToDelete.Some? {
          db := Remove(db, drawingToDelete.value);
          o := Deleted(selectedDrawing);
        }
      } else if selection == Cancelled {
        o := ChoiceCancelled;
      } else {
        o := StillChoosing;
      }
    }

    /** `HandleInput`: move the menu highlight, or start the highlighted action. */
    method HandleInput(key: Key, input: ChoiceInput) returns (o: Outcome)
      modifies this
      ensures Transition(Snapshot(), o) == MenuStep(old(Snapshot()), key, input)
    {
      var count := |MenuItems|;
      if key == UpArrow {
        selectedItem := CsRem(selectedItem - 1 + count, count);
        o := MenuMoved;
      } else if key == DownArrow {
        selectedItem := CsRem(selectedItem + 1, count);
        o := MenuMoved;
      } else if key == Enter {
        if selectedItem == 0 {
          o := StartDrawing(input.session);
        } else if selectedItem == 1 {
          o := EditDrawing(input);
        } else if selectedItem == 2 {
          o := DeleteDrawing(input.keys);
        } else if selectedItem == 3 {
          o := Exited;
        } else {
          o := Ignored;
        }
      } else {
        o := Ignored;
      }
    }
  }
}
