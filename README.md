# ConsoleDraw in Dafny

ConsoleDraw is a console drawing program. Its main menu has four items: new drawing, edit, delete and exit.

A drawing session asks for a name. It then clears the block list and runs a canvas loop:

- the arrow keys move a cursor inside a frame;
- Space places a block (position, glyph, colour) at the cursor;
- the keys 1-4 pick red, green, blue or yellow;
- Escape saves the blocks under the name, when there are any, and returns to the menu.

A saved drawing is one row of a `Drawings` table. Its `Data` field is the block list written as `x,y,c,n`, with the records joined by `;`, where `n` is the colour's ordinal. The edit and delete flows list the saved names and let the user pick one with Up, Down and Enter.

This project models that core:

- the block codec and the .NET behaviour it depends on;
- the canvas loop;
- the menu and catalog index arithmetic;
- the table of saved drawings;
- the four menu actions.

It proves properties of all of them.

## Layout

| module | file | contents |
|---|---|---|
| `Wrappers` | `wrappers.dfy` | `Option`, and `Result` with failure propagation |
| `DotNet` | `dotnet.dfy` | The library behaviour the program relies on (see below) |
| `Codec` | `codec.dfy` | `ConsoleColor` with its ordinal table, the block record, the encoder and the decoder, and the round trip |
| `Terminal` | `terminal.dfy` | What the program reads: keys, the name line, window sizes |
| `Navigation` | `navigation.dfy` | The menu and catalog up/down arithmetic, and the catalog selection loop |
| `Editor` | `editor.dfy` | One iteration of the canvas loop, and the loop over the iterations observed |
| `Repository` | `repository.dfy` | The `Drawings` table as a sequence of `(name, data)` rows, with first-record-wins lookup |
| `App` | `app.dfy` | Each menu action as a function of the program state, with the properties the program keeps |
| `ConsoleDraw` | `program.dfy` | `class Program`: the static fields as fields, the static methods as methods proved against `App` |

The `DotNet` module covers:

- 32-bit `int`;
- `Int32.ToString()`;
- `Int32.Parse`;
- `String.Split(char)` and `String.Join`;
- C#'s truncating `/` and `%`;
- `String.IsNullOrWhiteSpace`.

### Modelling choices

**Everything the program reads becomes a parameter:**
- `HandleInput` takes the key read on the menu.
- The action that key starts takes a `ChoiceInput`: the keys the catalog loop reads, and the `SessionInput` of a drawing session.
- A `SessionInput` is the name line (`None` for a null line), the window size when the canvas opens, and one `Poll` per iteration of the canvas loop. A `Poll` is the window size at that iteration and the key read, if one was available.

These sequences are finite. When one runs out before the loop returns, the outcome says so (`StillDrawing`, `StillChoosing`).

**The `Drawings` table** is a field of the `Program` object holding the rows in table order.
- Saving appends a row, even when a row with that name exists.
- Loading and deleting use the first row with the name, as `FirstOrDefault` does. Names match when they are equal strings. The database's own string comparison is not modelled (see "## Left out").

**An exception that leaves the program** is the outcome `Crashed(e)`. Nothing in the program catches one.

### Behaviour to note

- **Colour cast.** Casting the fourth field to `ConsoleColor` never fails. An ordinal outside 0..15 gives an unnamed value, `Unnamed(n)` (`Codec.DecodeUnnamedColor`). Such a colour decodes, but the console refuses it as a foreground colour, so `Repository.Readable` asks for named colours and `App.Consistent` keeps every colour the program paints a named one.
- **Short records.** The fields are read in order, so a record raises `IndexOutOfRangeException` at its first missing field only when every field before it parses (`Codec.DecodeShortRecord`); an empty glyph field raises it the same way. A non-numeric field raises `FormatException` first, so `x` and `1,x` fail with a format error rather than an index error (`Codec.DecodeNonNumeric`).
- **Extra content.** Fields after the fourth are ignored, and so are the characters of the glyph field after its first.
- **Decode errors are not recovered.** `LoadDrawingFromDatabase` has no `try`/`catch` around it, so a decoding exception ends the program.
- **Editing does not keep the loaded blocks.** `EditDrawing` loads the blocks and takes the glyph and colour of the first one. It then calls `StartDrawing`, which clears the block list, so the session starts empty (`App.EditChosen`). A blank name in that session keeps the loaded blocks in `blocks` (`App.InvalidNameChangesNothing`).
- **Only stored names can be chosen.** The catalog only offers names that are in the table, so the not-found path of the load is never taken from the edit flow (`Repository.LoadListed`). If it were, the empty list it returns would make `blocks[0]` raise `ArgumentOutOfRangeException`.

## Model

| member | source | states |
|---|---|---|
| `DotNet.CsDiv` | ConsoleDraw/Program.cs:163-164 | C#'s `/` rounds toward zero: the remainder left is below the divisor and has the dividend's sign |
| `DotNet.CsRem` | ConsoleDraw/Program.cs:120 | C#'s `%`: dividend = quotient * divisor + remainder, with the remainder's sign that of the dividend |
| `DotNet.CsRemBelowTwice` | ConsoleDraw/Program.cs:120-124 | for `0 <= a < 2b` the remainder is `a`, or `a - b` once `a` reaches `b` |
| `DotNet.NatDigits` | ConsoleDraw/Program.cs:35 | decimal digits of a natural number: non-empty and all digits |
| `DotNet.IntToString` | ConsoleDraw/Program.cs:35 | `int.ToString()`: non-empty, an optional leading `-`, then digits only |
| `DotNet.ParseDigits` | ConsoleDraw/Program.cs:59 | a run of digits parses exactly when it is non-empty, all digits and within 32 bits; otherwise it raises a format exception when the run is empty or holds a non-digit and an overflow exception when only the range fails |
| `DotNet.ParseInt` | ConsoleDraw/Program.cs:59-62 | `int.Parse` raises only `FormatException` or `OverflowException`; which one, and when, is decided by `DotNet.ParseDigits` on the trimmed text after its sign |
| `DotNet.ParseIntOfIntToString` | ConsoleDraw/Program.cs:35 | `int.Parse(n.ToString()) == n` for every 32-bit `n` |
| `DotNet.Split` | ConsoleDraw/Program.cs:56-58 | `Split` yields at least one piece, and no piece contains the separator |
| `DotNet.Join` | ConsoleDraw/Program.cs:35 | `String.Join` with a one-character separator; `DotNet.SplitJoin` states that `Split` undoes it |
| `DotNet.IsNullOrWhiteSpace` | ConsoleDraw/Program.cs:151 | a null line, or one of white space only; refusing exactly such names is `App.InvalidNameChangesNothing` |
| `DotNet.SplitJoin` | ConsoleDraw/Program.cs:35 | splitting a join of separator-free pieces gives back exactly those pieces |
| `DotNet.SplitAvoids` | ConsoleDraw/Program.cs:56-58 | no piece of a split holds a character the string does not hold |
| `Codec.Ordinal` | ConsoleDraw/Program.cs:35 | `(int)color`: a named colour's ordinal is in 0..15 and indexes that colour in the palette; for canonical values, in 0..15 exactly for named ones |
| `Codec.ColorOf` | ConsoleDraw/Program.cs:62 | `(ConsoleColor)n` never fails, gives a canonical value, and has ordinal `n` |
| `Codec.ColorOfOrdinal` | ConsoleDraw/Program.cs:35-62 | a canonical colour survives `(ConsoleColor)(int)color` |
| `Codec.DecodeFields` | ConsoleDraw/Program.cs:58-62 | a record's fields decode exactly when fields 0, 1 and 3 parse and field 2 is non-empty; the glyph is field 2's first character and the colour is canonical |
| `Codec.DecodeBlock` | ConsoleDraw/Program.cs:58-63 | a decoded glyph is never `,`, and a record without `;` decodes to a storable block |
| `Codec.Collect` | ConsoleDraw/Program.cs:56-64 | the loop keeps one block per record in order, or raises the exception of the first record that fails, all records before it having decoded |
| `Codec.Decode` | ConsoleDraw/Program.cs:56-66 | a successful load has one block per `;`-separated record, at least one, all storable |
| `Codec.CollectStops` | ConsoleDraw/Program.cs:56-64 | later records do not matter once a record has raised |
| `Codec.CollectStep` | ConsoleDraw/Program.cs:56-63 | one iteration: a decoding record appends its block, a failing one makes the load raise its exception |
| `Codec.EncodeBlock` | ConsoleDraw/Program.cs:35 | one block's record; specified by `Codec.EncodeBlockFields` (four fields joined by `,`) and `Codec.DecodeEncodeBlock` (it decodes back to the block) |
| `Codec.Encode` | ConsoleDraw/Program.cs:35 | the `;`-join of the records; specified by `Codec.SplitEncode`, `Codec.DecodeEncode` (round trip) and `Codec.EncodeExample` |
| `Codec.EncodeBlockFields` | ConsoleDraw/Program.cs:35 | a block is written as its four fields joined by `,` |
| `Codec.DecodeEncodeBlock` | ConsoleDraw/Program.cs:35-63 | an encoded block holds no `;` exactly when its glyph is not `;`, and a storable block decodes back to itself |
| `Codec.DecodeEncode` | ConsoleDraw/Program.cs:35-63 | round trip: a non-empty list of storable blocks, encoded and then decoded, is the same list in the same order |
| `Codec.DecodeEncodeEmpty` | ConsoleDraw/Program.cs:35-59 | the empty list encodes to `""`, which raises `FormatException` when loaded |
| `Codec.EncodeExample` | ConsoleDraw/Program.cs:35 | `(1,1,'#',Red)` and `(2,2,'@',Blue)` encode to `"1,1,#,12;2,2,@,9"` |
| `Codec.DecodeOneRecord` | ConsoleDraw/Program.cs:56-63 | data without `;` loads as its single block, or raises what that block raises |
| `Codec.DecodeShortRecord` | ConsoleDraw/Program.cs:58-60 | `"1,2"` raises `IndexOutOfRangeException` |
| `Codec.DecodeNonNumeric` | ConsoleDraw/Program.cs:59-60 | `"1,x,Y,0"` raises `FormatException` |
| `Codec.DecodeUnnamedColor` | ConsoleDraw/Program.cs:62 | `"1,1,#,99"` loads, with the unnamed colour 99 |
| `Navigation.Up` | ConsoleDraw/Program.cs:120 | `(i - 1 + n) % n` stays in `[0, n)` and is `i - 1`, or `n - 1` from 0 |
| `Navigation.Down` | ConsoleDraw/Program.cs:124 | `(i + 1) % n` stays in `[0, n)` and is `i + 1`, or 0 from `n - 1` |
| `Navigation.UpDownInverse` | ConsoleDraw/Program.cs:120-124 | Up then Down, and Down then Up, come back to the index they started from |
| `Navigation.SelectFrom` | ConsoleDraw/Program.cs:269-301 | the catalog loop chooses only on Enter, cancels only on Escape, keeps the index in range, and is still waiting exactly when neither key came |
| `Navigation.FirstDecisive` | ConsoleDraw/Program.cs:278-300 | the position of the first Enter or Escape: no key before it is one, and it is one when it is inside the keys |
| `Navigation.SelectFromDecides` | ConsoleDraw/Program.cs:278-300 | the first Enter or Escape decides: the loop cancels exactly when it is Escape and chooses exactly when it is Enter |
| `Navigation.SelectFromIgnoresLater` | ConsoleDraw/Program.cs:278-300 | once an Enter or Escape has come, the loop has returned: keys after it change nothing |
| `Navigation.Navigate` | ConsoleDraw/Program.cs:234-243 | an empty name list returns before any key; otherwise a chosen index is in range |
| `Navigation.DownPresses` | ConsoleDraw/Program.cs:276 | `k` presses of Down move `k` places, wrapping to the first name at the end |
| `Navigation.UpFromFirstChoosesLast` | ConsoleDraw/Program.cs:272 | Up from the first name then Enter chooses the last |
| `Navigation.DownAroundChoosesFirst` | ConsoleDraw/Program.cs:276 | one Down per name then Enter chooses the first again |
| `Editor.Centre` | ConsoleDraw/Program.cs:159-164 | the canvas is the window's width and its height less 2; the cursor is its middle cell (`x` is half the width rounded down, and `y` half the height when that is not negative) and lies inside the frame when the window has an interior |
| `Editor.Move` | ConsoleDraw/Program.cs:188-199 | an arrow moves at most one cell on one axis, keeps the cursor inside the frame, never wraps, and other keys do not move it |
| `Editor.MoveClampsAtEdges` | ConsoleDraw/Program.cs:188-199 | at an edge the arrow toward it leaves the cursor where it is; away from the edge each of the four arrows moves the cursor one cell in its own direction |
| `Editor.KeyColor` | ConsoleDraw/Program.cs:205-216 | keys 1-4, and only they, pick a colour |
| `Editor.OnKey` | ConsoleDraw/Program.cs:186-224 | the switch: it returns exactly on Escape; the glyph never changes; the cursor moves as `Move` says; the colour follows the digit keys; Space appends the block at the cursor |
| `Editor.Step` | ConsoleDraw/Program.cs:170-224 | one iteration: the resize check, then the key; specified by `Editor.StepFollowsWindow` (resize first, then the key as `Editor.OnKey` handles it) and `Editor.StepKeepsInside` |
| `Editor.Run` | ConsoleDraw/Program.cs:168-226 | the canvas loop, stopping at the first Escape; specified by `Editor.RunQuitsIffEscape`, `Editor.RunAfterQuit`, `Editor.RunInvariant`, `Editor.RunPlacesInside`, `Editor.RunKeepsStorable` and `Editor.RunKeepsNamed` |
| `Editor.SpaceAppendsOneBlock` | ConsoleDraw/Program.cs:386-388 | Space appends exactly one block `(x, y, currentChar, currentColor)` and keeps every earlier block, even one on the same cell |
| `Editor.DigitKeysPickColors` | ConsoleDraw/Program.cs:205-216 | 1-4 set red, green, blue, yellow and change nothing else |
| `Editor.EscapeQuits` | ConsoleDraw/Program.cs:218-223 | Escape ends the loop with the state unchanged |
| `Editor.StepFollowsWindow` | ConsoleDraw/Program.cs:170-177 | after an iteration the canvas has the polled window's size; a resize re-centres the cursor (`Editor.Centre`) and changes nothing else; the polled key, if any, then acts exactly as `Editor.OnKey` says, on the re-centred cursor after a resize and on the unchanged state otherwise; with neither nothing changes |
| `Editor.RunQuitsIffEscape` | ConsoleDraw/Program.cs:218-223 | the loop returns exactly when some poll reads Escape: Escape is the only way out, and it always ends the loop |
| `Editor.StepKeepsInside` | ConsoleDraw/Program.cs:170-199 | an iteration keeps the cursor inside the frame, whose size is that of the polled window (`Editor.StepFollowsWindow`), after a resize too |
| `Editor.RunAfterQuit` | ConsoleDraw/Program.cs:218-223 | once the loop has returned, later polls change nothing |
| `Editor.RunInvariant` | ConsoleDraw/Program.cs:168-226 | while every polled window has an interior (at least 3 x 5), the cursor stays inside, the glyph stays, earlier blocks stay, and every new block has the glyph |
| `Editor.RunPlacesInside` | ConsoleDraw/Program.cs:168-226 | while the window keeps its size, every block placed lies inside the frame |
| `Editor.RunKeepsStorable` | ConsoleDraw/Program.cs:168-226 | a storable glyph and colour stay storable, and every block placed is storable |
| `Editor.RunKeepsNamed` | ConsoleDraw/Program.cs:205-216 | a named colour stays named, since keys 1-4 pick named colours, and every block placed has a named colour |
| `Editor.RightTwicePlaceQuit` | ConsoleDraw/Program.cs:159-224 | in an 80 x 25 window, Right, Right, Space, Escape place one block at (42, 11) and return |
| `Repository.Names` | ConsoleDraw/Program.cs:234 | one name per row, in table order |
| `Repository.FindFirst` | ConsoleDraw/Program.cs:48 | `FirstOrDefault`: the first row with the name, and none exactly when no row has it |
| `Repository.Save` | ConsoleDraw/Program.cs:35-39 | saving appends one row with the name and the encoded blocks and keeps every earlier row |
| `Repository.Load` | ConsoleDraw/Program.cs:44-68 | a name no row has loads as no blocks; loaded blocks are always storable |
| `Repository.Remove` | ConsoleDraw/Program.cs:361 | removing a row keeps the rows before and after it in order |
| `Repository.LoadListed` | ConsoleDraw/Program.cs:280-281 | a listed name is always found, and in a readable table loads at least one block, all of named colours |
| `Repository.SaveThenLoad` | ConsoleDraw/Program.cs:31-68 | saving storable blocks under a new name makes that name load exactly those blocks |
| `Repository.FirstRecordWins` | ConsoleDraw/Program.cs:38-48 | saving under a name already stored does not change what that name loads |
| `Repository.SaveKeepsReadable` | ConsoleDraw/Program.cs:35-39 | saving non-empty storable blocks of named colours keeps every row readable |
| `Repository.RemoveKeepsReadable` | ConsoleDraw/Program.cs:361 | removing a row keeps every row readable |
| `Repository.RemoveFirstName` | ConsoleDraw/Program.cs:358-362 | deleting a listed name removes exactly one copy of it from the list of names |
| `Repository.RemoveSole` | ConsoleDraw/Program.cs:358-362 | deleting the only drawing empties the table |
| `App.Initial` | ConsoleDraw/Program.cs:8-12 | the program starts with no blocks and the first menu item highlighted |
| `App.NewSession` | ConsoleDraw/Program.cs:146-227 | the new-drawing action; specified by `App.InvalidNameChangesNothing`, `App.SessionIgnoresPriorBlocks`, `App.SessionEndsOnEscape`, `App.SessionSavesIffBlocks` and `App.NewSessionKeeps`, and implemented by `ConsoleDraw.Program.StartDrawing` |
| `App.EditFlow` | ConsoleDraw/Program.cs:229-304 | the edit action; specified by `App.EditChosen`, `App.EditNotChosen`, `App.EmptyCatalog` and `App.EditKeeps`, and implemented by `ConsoleDraw.Program.EditDrawing` |
| `App.DeleteFlow` | ConsoleDraw/Program.cs:306-375 | the delete action; specified by `App.DeleteChosen`, `App.EmptyCatalog`, `App.DeleteSoleDrawing` and `App.DeleteKeeps`, and implemented by `ConsoleDraw.Program.DeleteDrawing` |
| `App.MenuStep` | ConsoleDraw/Program.cs:114-144 | one menu key; specified by `App.MenuIndexInRange`, `App.MenuUpDown`, `App.MenuDispatch` and `App.MenuStepKeeps`, and implemented by `ConsoleDraw.Program.HandleInput` |
| `App.MenuIndexInRange` | ConsoleDraw/Program.cs:118-125 | the highlighted item stays in `[0, 4)`; Up from 0 gives 3 and Down from 3 gives 0 |
| `App.MenuUpDown` | ConsoleDraw/Program.cs:118-125 | Up then Down, or Down then Up, restores the whole state |
| `App.MenuDispatch` | ConsoleDraw/Program.cs:126-143 | Enter starts the highlighted action: the first item a new drawing (`App.NewSession`), the second an edit (`App.EditFlow`), the third a delete (`App.DeleteFlow`), and the fourth exits; the program exits on nothing else, and other keys change only the highlight |
| `App.InvalidNameChangesNothing` | ConsoleDraw/Program.cs:150-156 | the name is refused exactly when it is null or blank, and then nothing changes, the blocks included |
| `App.SessionIgnoresPriorBlocks` | ConsoleDraw/Program.cs:158 | with a valid name, the blocks held before do not affect the session |
| `App.SessionEndsOnEscape` | ConsoleDraw/Program.cs:166-226 | with a valid name, the session ends exactly when one of its polls reads Escape; otherwise it is still drawing |
| `App.SessionSavesIffBlocks` | ConsoleDraw/Program.cs:218-223 | the session ends exactly when the loop returns, that is on an Escape (`Editor.RunQuitsIffEscape`); it saves exactly when it has blocks, as one row at the end with the session's name, which reads back as those blocks; otherwise the table is unchanged |
| `App.EditNotChosen` | ConsoleDraw/Program.cs:269-302 | an edit that is cancelled with Escape, or still waiting for Enter or Escape, leaves the state unchanged, and a cancelled one reports the cancel |
| `App.EditChosen` | ConsoleDraw/Program.cs:278-295 | a chosen drawing loads at least one block; the session takes its first block's glyph and colour and starts without the loaded blocks |
| `App.EmptyCatalog` | ConsoleDraw/Program.cs:235-241 | with no saved drawings, edit and delete return before reading a key and change nothing |
| `App.DeleteChosen` | ConsoleDraw/Program.cs:355-372 | a confirmed name loses exactly its first row; a cancelled or undecided delete changes nothing |
| `App.DeleteSoleDrawing` | ConsoleDraw/Program.cs:355-368 | whatever keys led to choosing it, deleting the only drawing empties the table, and the next edit or delete finds no drawings |
| `App.InitialConsistent` | ConsoleDraw/Program.cs:8-12 | the fresh program is consistent over a readable table |
| `App.NewSessionKeeps` | ConsoleDraw/Program.cs:146-227 | a session keeps the program consistent (a named colour in use, every saved row readable with named colours) and never crashes |
| `App.EditKeeps` | ConsoleDraw/Program.cs:229-304 | from a consistent state, editing never raises and keeps the program consistent; the colour it takes from the first loaded block is a named one |
| `App.DeleteKeeps` | ConsoleDraw/Program.cs:306-375 | deleting keeps the program consistent |
| `App.MenuStepKeeps` | ConsoleDraw/Program.cs:114-144 | every menu action keeps the program consistent (highlight in range, storable glyph, named colour, table readable with named colours) and none crashes |
| `App.SkyScenario` | ConsoleDraw/Program.cs:146-227 | a new drawing "sky" with Right, Right, Space, Escape saves one row named "sky" that reads back as one block at the moved position |
| `ConsoleDraw.Program.constructor` | ConsoleDraw/Program.cs:8-12 | the fields start as the static initialisers set them |
| `ConsoleDraw.Program.SaveDrawingToDatabase` | ConsoleDraw/Program.cs:31-42 | the table gains one row with the encoded blocks; nothing else changes |
| `ConsoleDraw.Program.LoadDrawingFromDatabase` | ConsoleDraw/Program.cs:44-68 | the loop over the records returns what `Repository.Load` specifies |
| `ConsoleDraw.Program.PlaceBlock` | ConsoleDraw/Program.cs:386-388 | `blocks.Add`: one block appended, nothing else changes |
| `ConsoleDraw.Program.StartDrawing` | ConsoleDraw/Program.cs:146-227 | the method's new state and outcome are those of `App.NewSession` |
| `ConsoleDraw.Program.KeyPressed` | ConsoleDraw/Program.cs:186-216 | the switch on a key other than Escape does what `Editor.OnKey` specifies |
| `ConsoleDraw.Program.ChooseDrawing` | ConsoleDraw/Program.cs:243-301 | the catalog loop returns what `Navigation.Navigate` specifies |
| `ConsoleDraw.Program.EditDrawing` | ConsoleDraw/Program.cs:229-304 | the method's new state and outcome are those of `App.EditFlow` |
| `ConsoleDraw.Program.DeleteDrawing` | ConsoleDraw/Program.cs:306-375 | the method's new state and outcome are those of `App.DeleteFlow` |
| `ConsoleDraw.Program.HandleInput` | ConsoleDraw/Program.cs:114-144 | the method's new state and outcome are those of `App.MenuStep` |

## Left out

- Rendering is not modelled, because it only draws. This covers `DrawFrame`, `DrawMenu`, `DisplayCurrentSelection`, the console writes in `PlaceBlock` and `EditDrawing`, `Console.Clear` and `CursorVisible`.
- The "press any key" reads after a message are not modelled, because the key they consume is discarded.
- `Main` is not modelled, for two reasons: its loop never ends except through `Environment.Exit`, and `EnsureCreated` configures the database. `HandleInput` is modelled as one iteration of that loop, and `Environment.Exit(0)` as the outcome `Exited`.
- The database backend (`DrawingContext.cs`, Entity Framework, SQL Server) is not modelled, because it is foreign plumbing. There is no ordering guarantee for the query results, and the model takes table order. Connection failures are not modelled.
- Repository.FindFirst: matches names by exact string equality. The lookups at lines 48 and 358 run in SQL Server, whose `=` ignores trailing spaces and, under the default collation, case. That comparison is not modelled, so with names such as `"sky "` and `"sky"` the program can load or delete a different row than the model does. `Repository.SaveThenLoad`, `Repository.FirstRecordWins` and `App.DeleteChosen` match the program only when no two names involved differ just in trailing spaces or case.
- The exceptions the console itself raises are not modelled, because rendering is not:
  - `SetCursorPosition` outside the buffer, for a tiny window or loaded blocks beyond it;
  - setting `ForegroundColor` to an unnamed colour (lines 288 and 381).
- ConsoleDraw.Program.EditDrawing: does not raise when a loaded block has an unnamed colour, although painting that block would, because console exceptions are not modelled. From a consistent state no loaded colour is unnamed (`App.EditKeeps`, `Repository.LoadListed`), so that exception cannot arise there.
- App.EditFlow: likewise does not raise for a loaded block with an unnamed colour; from a consistent state there is none.
- ConsoleDraw.Program.DeleteDrawing: does not continue the catalog loop when the chosen name is not found, and returns `StillChoosing` instead. That branch is never taken, because every listed name is stored (`Repository.LoadListed`).
- App.DeleteFlow: the same not-found branch returns `StillChoosing`, for the same reason.
- ConsoleDraw.Program.KeyPressed: covers the keys of the switch other than Escape. `ConsoleDraw.Program.StartDrawing` handles Escape itself, because saving ends the method.
- ConsoleDraw.Program.ChooseDrawing: one method for the catalog loop that `EditDrawing` and `DeleteDrawing` each write out. The two copies differ only in the prompt they print.
- The input is finite. Key reads, `KeyAvailable` and window sizes become sequences. A loop whose input runs out stops in the state it has reached.
- DotNet.ParseInt: does not accept the trailing NUL characters `Int32.Parse` tolerates, and uses the invariant culture's signs. Culture-specific signs are not modelled.
- DotNet.IntToString: writes a negative number with `-`, as the invariant culture does. The string interpolation formats with the current culture's negative sign, and a culture with another sign is not modelled.
- Codec.DecodeFields: takes the first Unicode scalar value of the glyph field, while C# takes the first UTF-16 code unit. So a glyph outside the Basic Multilingual Plane is kept whole in the model.
- App.ProgramState: keeps `selectedItem` as an unbounded integer. It is always in `[0, 4)` (`App.MenuStepKeeps`), so 32-bit overflow cannot arise there.
- A `null` name or `Data` column in the table is not modelled, because the program only ever writes non-null strings.
