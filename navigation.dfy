/**
 * Circular selection over a list: the top-level menu (four items) and the
 * catalog of saved drawing names shared by the edit and delete flows.
 */
module Navigation {
  import opened DotNet
  import opened Terminal

  /** `(i - 1 + count) % count`: the item above `i`, wrapping from the first to the last. */
  function Up(i: int, count: int): (r: int)
    requires count > 0
    ensures 0 <= i < count ==> 0 <= r < count && r == (if i == 0 then count - 1 else i - 1)
  {
    if 0 <= i < count then CsRemBelowTwice(i - 1 + count, count); CsRem(i - 1 + count, count)
    else CsRem(i - 1 + count, count)
  }

  /** `(i + 1) % count`: the item below `i`, wrapping from the last to the first. */
  function Down(i: int, count: int): (r: int)
    requires count > 0
    ensures 0 <= i < count ==> 0 <= r < count && r == (if i == count - 1 then 0 else i + 1)
  {
    if 0 <= i < count then CsRemBelowTwice(i + 1, count); CsRem(i + 1, count)
    else CsRem(i + 1, count)
  }

  /** Up and Down undo each other. */
  lemma UpDownInverse(i: int, count: int)
    requires 0 <= i < count
    ensures Down(Up(i, count), count) == i
    ensures Up(Down(i, count), count) == i
  {
  }

  /** The menu items: new drawing, edit, delete, exit. */
  const MenuItems: seq<string> := ["\U{00DA}j rajz", "Szerkeszt\U{00E9}s", "T\U{00F6}rl\U{00E9}s", "Kil\U{00E9}p\U{00E9}s"]

  // ---------------------------------------------------------------------------
  // The catalog navigator

  /** Where the navigator stands when its keys run out or are decided. */
  datatype Selection =
    | NoDrawings          // the name list was empty: the loop is never entered
    | Chosen(index: nat)  // Enter on the highlighted name
    | Cancelled           // Escape
    | Browsing(index: nat) // still waiting for a key, with this name highlighted

  /** The keys that end the selection loop. */
  predicate Decisive(k: Key) {
    k == Enter || k == Escape
  }

  /** The position of the first Enter or Escape among the keys, or `|keys|` when there is none. */
  function FirstDecisive(keys: seq<Key>): (j: nat)
    ensures j <= |keys| && (j < |keys| ==> Decisive(keys[j]))
    ensures forall k :: 0 <= k < j ==> !Decisive(keys[k])
  {
    if keys == [] || Decisive(keys[0]) then 0 else 1 + FirstDecisive(keys[1..])
  }

  /** The selection loop from highlighted index `i` over the keys still to come. */
  function SelectFrom(count: nat, i: nat, keys: seq<Key>): (s: Selection)
    requires i < count
    ensures s.Chosen? ==> s.index < count && Enter in keys
    ensures s.Browsing? ==> s.index < count
    ensures s.Browsing? <==> Enter !in keys && Escape !in keys
    ensures s == Cancelled ==> Escape in keys
    ensures s != NoDrawings
    decreases |keys|
  {
    if keys == [] then Browsing(i)
    else
      match keys[0]
      case UpArrow => SelectFrom(count, Up(i, count), keys[1..])
      case DownArrow => SelectFrom(count, Down(i, count), keys[1..])
      case Enter => Chosen(i)
      case Escape => Cancelled
      case _ => SelectFrom(count, i, keys[1..])
  }

  /** The first Enter or Escape decides: Enter chooses, Escape cancels. */
  lemma {:induction false} SelectFromDecides(count: nat, i: nat, keys: seq<Key>)
    requires i < count
    ensures var j := FirstDecisive(keys);
      var s := SelectFrom(count, i, keys);
      j < |keys| ==> (s == Cancelled <==> keys[j] == Escape) && (s.Chosen? <==> keys[j] == Enter)
    decreases |keys|
  {
    if keys != [] && !Decisive(keys[0]) {
      var rest := keys[1..];
      var next := NextIndex(count, i, keys[0]);
      assert SelectFrom(count, i, keys) == SelectFrom(count, next, rest);
      assert FirstDecisive(keys) == 1 + FirstDecisive(rest);
      SelectFromDecides(count, next, rest);
      if FirstDecisive(rest) < |rest| {
        assert keys[FirstDecisive(keys)] == rest[FirstDecisive(rest)];
      }
    }
  }

  /** Once an Enter or Escape has come, the keys after it are never read. */
  lemma {:induction false} SelectFromIgnoresLater(count: nat, i: nat, keys: seq<Key>, later: seq<Key>)
    requires i < count && FirstDecisive(keys) < |keys|
    ensures SelectFrom(count, i, keys + later) == SelectFrom(count, i, keys)
    decreases |keys|
  {
    assert (keys + later)[0] == keys[0];
    if !Decisive(keys[0]) {
      var rest := keys[1..];
      var next := NextIndex(count, i, keys[0]);
      assert (keys + later)[1..] == rest + later;
      assert FirstDecisive(keys) == 1 + FirstDecisive(rest);
      SelectFromIgnoresLater(count, next, rest, later);
    }
  }

  /** Where a key that does not decide leaves the highlight. */
  function NextIndex(count: nat, i: nat, k: Key): (r: nat)
    requires i < count
    ensures r < count
  {
    match k
    case UpArrow => Up(i, count)
    case DownArrow => Down(i, count)
    case _ => i
  }

  /** The navigator over a freshly listed set of names, starting on the first. */
  function Navigate(names: seq<string>, keys: seq<Key>): (s: Selection)
    ensures s == NoDrawings <==> |names| == 0
    ensures s.Chosen? ==> s.index < |names|
    ensures s.Browsing? ==> s.index < |names|
  {
    if |names| == 0 then NoDrawings else SelectFrom(|names|, 0, keys)
  }

  /** `k` presses of the same key. */
  function Presses(key: Key, k: nat): (keys: seq<Key>)
    ensures |keys| == k && forall j :: 0 <= j < k ==> keys[j] == key
  {
    if k == 0 then [] else [key] + Presses(key, k - 1)
  }

  /**
   * `k` presses of Down move the highlight `k` places down; reaching the end
   * of the list wraps to the first name.
   */
  lemma {:induction false} DownPresses(count: nat, i: nat, k: nat, rest: seq<Key>)
    requires i < count && i + k <= count
    ensures SelectFrom(count, i, Presses(DownArrow, k) + rest)
         == SelectFrom(count, if i + k == count then 0 else i + k, rest)
    decreases k
  {
    var keys := Presses(DownArrow, k) + rest;
    if k > 0 {
      assert keys[0] == DownArrow;
      assert keys[1..] == Presses(DownArrow, k - 1) + rest;
      if i == count - 1 {
        assert Presses(DownArrow, k - 1) + rest == rest;
      } else {
        DownPresses(count, i + 1, k - 1, rest);
      }
    } else {
      assert keys == rest;
    }
  }

  /** Up from the first name wraps to the last. */
  lemma UpFromFirstChoosesLast(names: seq<string>)
    requires |names| > 0
    ensures Navigate(names, [UpArrow, Enter]) == Chosen(|names| - 1)
  {
    assert [UpArrow, Enter][1..] == [Enter];
  }

  /** Going down once per name comes back to the first. */
  lemma DownAroundChoosesFirst(names: seq<string>)
    requires |names| > 0
    ensures Navigate(names, Presses(DownArrow, |names|) + [Enter]) == Chosen(0)
  {
    var n := |names|;
    DownPresses(n, 0, n, [Enter]);
    assert SelectFrom(n, 0, [Enter]) == Chosen(0);
  }
}
