/**
 * What the program reads from the console, as data: key presses, the line
 * typed as a drawing's name, and the window size the canvas loop observes.
 */
module Terminal {
  import opened Wrappers
  import opened DotNet

  /** The `ConsoleKey` values the program tells apart; every other key is `OtherKey`. */
  datatype Key =
    | UpArrow | DownArrow | LeftArrow | RightArrow
    | Spacebar | Enter | Escape
    | D1 | D2 | D3 | D4
    | OtherKey

  /** `Console.WindowWidth` and `Console.WindowHeight` are never negative. */
  type WindowSize = n: int32 | 0 <= n

  /**
   * What one iteration of the canvas loop observes: the window's size, and
   * the key read when `Console.KeyAvailable` holds (`None` when it does not).
   */
  datatype Poll = Poll(windowWidth: WindowSize, windowHeight: WindowSize, key: Option<Key>)

  /**
   * What one drawing session reads: the line typed as the drawing's name
   * (`None` when `Console.ReadLine` returns null), the window size when the
   * canvas opens, and one `Poll` per iteration of the canvas loop.
   */
  datatype SessionInput = SessionInput(
    nameLine: Option<string>,
    windowWidth: WindowSize,
    windowHeight: WindowSize,
    polls: seq<Poll>)

  /**
   * What a menu choice reads after the Enter that confirms it: the keys the
   * catalog navigator reads (edit and delete), and the drawing session that
   * follows (new or edit).
   */
  datatype ChoiceInput = ChoiceInput(keys: seq<Key>, session: SessionInput)
}
