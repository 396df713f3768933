/**
 * The table of saved drawings, as the program uses it through its database
 * context: a list of `(Name, Data)` records in table order. Saving adds a
 * record, even when one with that name exists; loading and deleting use the
 * first record with the name (`FirstOrDefault`).
 */
module Repository {
  import opened Wrappers
  import opened DotNet
  import opened Codec

  /** One row of the `Drawings` table: a name and the encoded blocks. */
  datatype Drawing = Drawing(name: string, data: string)

  /** The names of the rows, in table order. */
  function Names(db: seq<Drawing>): (names: seq<string>)
    ensures |names| == |db|
    ensures forall i :: 0 <= i < |db| ==> names[i] == db[i].name
  {
    seq(|db|, i requires 0 <= i < |db| => db[i].name)
  }

  /** The position of the first row carrying the name, as `FirstOrDefault` finds it, if there is one. */
  function FindFirst(db: seq<Drawing>, name: string): (r: Option<nat>)
    ensures r.Some? ==> r.value < |db| && db[r.value].name == name
                        && forall j :: 0 <= j < r.value ==> db[j].name != name
    ensures r.None? <==> name !in Names(db)
  {
    if |db| == 0 then None
    else if db[0].name == name then Some(0)
    else
      var rest := FindFirst(db[1..], name);
      assert Names(db) == [db[0].name] + Names(db[1..]);
      if rest.Some? then Some(rest.value + 1) else None
  }

  /** The first record with the name is the one at `i` when the records before it have other names. */
  lemma FindFirstAt(db: seq<Drawing>, name: string, i: nat)
    requires i < |db| && db[i].name == name
    requires forall j :: 0 <= j < i ==> db[j].name != name
    ensures FindFirst(db, name) == Some(i)
  {
    assert Names(db)[i] == name;
  }

  /** `SaveDrawingToDatabase`: a new record holding the encoded blocks, at the end of the table. */
  function Save(db: seq<Drawing>, name: string, blocks: seq<Block>): (r: seq<Drawing>)
    ensures |r| == |db| + 1 && r[..|db|] == db
    ensures r[|db|] == Drawing(name, Encode(blocks))
  {
    db + [Drawing(name, Encode(blocks))]
  }

  /**
   * `LoadDrawingFromDatabase`: no blocks when no record has the name, else the
   * blocks the first such record decodes to, or the exception decoding raises.
   */
  function Load(db: seq<Drawing>, name: string): (r: Result<seq<Block>, Exception>)
    ensures name !in Names(db) ==> r == Ok([])
    ensures r.Ok? ==> AllStorable(r.value)
  {
    match FindFirst(db, name)
    case None => Ok([])
    case Some(i) => Decode(db[i].data)
  }

  /** `db.Drawings.Remove(d)` for the record at position `i`. */
  function Remove(db: seq<Drawing>, i: nat): (r: seq<Drawing>)
    requires i < |db|
    ensures |r| == |db| - 1
    ensures r[..i] == db[..i] && r[i..] == db[i + 1..]
  {
    db[..i] + db[i + 1..]
  }

  // ---------------------------------------------------------------------------
  // Properties

  /**
   * A record is readable when it decodes, to at least one block, and every
   * colour it holds is a named one the console can paint.
   */
  predicate Readable(d: Drawing) {
    Decode(d.data).Ok? && AllNamed(Decode(d.data).value)
  }

  predicate AllReadable(db: seq<Drawing>) {
    forall i :: 0 <= i < |db| ==> Readable(db[i])
  }

  /** Every listed name loads, and from a readable table to a non-empty list of blocks. */
  lemma LoadListed(db: seq<Drawing>, name: string)
    requires name in Names(db)
    ensures FindFirst(db, name).Some?
    ensures AllReadable(db) ==> Load(db, name).Ok? && |Load(db, name).value| >= 1 && AllNamed(Load(db, name).value)
  {
    var i := FindFirst(db, name).value;
    if AllReadable(db) {
      assert Readable(db[i]);
    }
  }

  /**
   * Saving a non-empty list of storable blocks under a name the table does
   * not hold yet makes that name load exactly those blocks.
   */
  lemma SaveThenLoad(db: seq<Drawing>, name: string, blocks: seq<Block>)
    requires name !in Names(db)
    requires |blocks| > 0 && AllStorable(blocks)
    ensures Load(Save(db, name, blocks), name) == Ok(blocks)
  {
    var db' := Save(db, name, blocks);
    forall j | 0 <= j < |db| ensures db'[j].name != name {
      assert db'[j] == db[j] && Names(db)[j] == db[j].name;
    }
    FindFirstAt(db', name, |db|);
    DecodeEncode(blocks);
  }

  /**
   * Saving under a name the table already holds adds a second record that
   * loading never reaches: the first record keeps winning.
   */
  lemma FirstRecordWins(db: seq<Drawing>, name: string, blocks: seq<Block>)
    requires name in Names(db)
    ensures Load(Save(db, name, blocks), name) == Load(db, name)
  {
    var db' := Save(db, name, blocks);
    var i := FindFirst(db, name).value;
    forall j | 0 <= j <= i ensures db'[j] == db[j] {
    }
    FindFirstAt(db', name, i);
  }

  /** Saving keeps a readable table readable when the blocks are non-empty, storable and of named colours. */
  lemma SaveKeepsReadable(db: seq<Drawing>, name: string, blocks: seq<Block>)
    requires AllReadable(db)
    requires |blocks| > 0 && AllStorable(blocks) && AllNamed(blocks)
    ensures AllReadable(Save(db, name, blocks))
  {
    var db' := Save(db, name, blocks);
    DecodeEncode(blocks);
    forall i | 0 <= i < |db'| ensures Readable(db'[i]) {
      if i < |db| {
        assert db'[i] == db[i];
      }
    }
  }

  /** Removing a record keeps a readable table readable. */
  lemma RemoveKeepsReadable(db: seq<Drawing>, i: nat)
    requires AllReadable(db) && i < |db|
    ensures AllReadable(Remove(db, i))
  {
    var db' := Remove(db, i);
    forall j | 0 <= j < |db'| ensures Readable(db'[j]) {
      if j < i {
        assert db'[j] == db[j];
      } else {
        assert db'[j] == db[j + 1];
      }
    }
  }

  /**
   * Removing the first record with a listed name takes exactly one copy of
   * that name out of the list of names, and leaves the others in order.
   */
  lemma RemoveFirstName(db: seq<Drawing>, name: string)
    requires name in Names(db)
    ensures var i := FindFirst(db, name).value;
      Names(Remove(db, i)) == Names(db)[..i] + Names(db)[i + 1..]
      && multiset(Names(Remove(db, i))) == multiset(Names(db)) - multiset{name}
  {
    var i := FindFirst(db, name).value;
    NamesRemove(db, i);
    MultisetWithout(Names(db), i);
  }

  lemma MultisetWithout<T>(s: seq<T>, i: nat)
    requires i < |s|
    ensures multiset(s[..i] + s[i + 1..]) == multiset(s) - multiset{s[i]}
  {
    assert s == s[..i] + [s[i]] + s[i + 1..];
  }

  lemma NamesRemove(db: seq<Drawing>, i: nat)
    requires i < |db|
    ensures Names(Remove(db, i)) == Names(db)[..i] + Names(db)[i + 1..]
  {
    var r := Remove(db, i);
    forall j | 0 <= j < |r| ensures Names(r)[j] == (Names(db)[..i] + Names(db)[i + 1..])[j] {
      if j < i {
        assert r[j] == db[j];
      } else {
        assert r[j] == db[j + 1];
      }
    }
  }

  /** Removing the only record leaves an empty table, so nothing is listed. */
  lemma RemoveSole(db: seq<Drawing>)
    requires |db| == 1
    ensures FindFirst(db, db[0].name) == Some(0)
    ensures Remove(db, 0) == [] && Names(Remove(db, 0)) == []
  {
  }
}
