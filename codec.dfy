/**
 * The block model and the textual format a drawing is stored in.
 * A block is written as `x,y,c,n` (`n` the colour's ordinal) and the blocks of a
 * drawing are joined with `;`.
 */
module Codec {
  import opened Wrappers
  import opened DotNet

  /**
   * `System.ConsoleColor`. Casting an `int` to the enum never fails in C#:
   * an integer that names no member gives an unnamed value, `Unnamed(n)`.
   */
  datatype Color =
    | Black | DarkBlue | DarkGreen | DarkCyan | DarkRed | DarkMagenta | DarkYellow | Gray
    | DarkGray | Blue | Green | Cyan | Red | Magenta | Yellow | White
    | Unnamed(value: int32)

  /** The named members, listed by ordinal. */
  const Palette: seq<Color> := [
    Black, DarkBlue, DarkGreen, DarkCyan, DarkRed, DarkMagenta, DarkYellow, Gray,
    DarkGray, Blue, Green, Cyan, Red, Magenta, Yellow, White
  ]

  /** A colour value that a cast from its ordinal reproduces: `Unnamed` only off the named range. */
  predicate IsCanonical(c: Color) {
    c.Unnamed? ==> !(0 <= c.value < 16)
  }

  /** `(int)color`: the ordinal table. */
  function Ordinal(c: Color): (n: int32)
    ensures !c.Unnamed? ==> 0 <= n < 16 && Palette[n] == c
    ensures IsCanonical(c) ==> (0 <= n < 16 <==> !c.Unnamed?)
  {
    match c
    case Black => 0
    case DarkBlue => 1
    case DarkGreen => 2
    case DarkCyan => 3
    case DarkRed => 4
    case DarkMagenta => 5
    case DarkYellow => 6
    case Gray => 7
    case DarkGray => 8
    case Blue => 9
    case Green => 10
    case Cyan => 11
    case Red => 12
    case Magenta => 13
    case Yellow => 14
    case White => 15
    case Unnamed(v) => v
  }

  /** `(ConsoleColor)n`. */
  function ColorOf(n: int32): (c: Color)
    ensures IsCanonical(c)
    ensures Ordinal(c) == n
  {
    if 0 <= n < 16 then Palette[n] else Unnamed(n)
  }

  /** The ordinal table is a bijection between canonical colours and `int`. */
  lemma ColorOfOrdinal(c: Color)
    requires IsCanonical(c)
    ensures ColorOf(Ordinal(c)) == c
  {
  }

  /** One placed glyph: the tuple `(int x, int y, char character, ConsoleColor color)`. */
  datatype Block = Block(x: int32, y: int32, character: char, color: Color)

  /** A block the format can carry: its glyph is no separator and its colour is canonical. */
  predicate Storable(b: Block) {
    b.character != ',' && b.character != ';' && IsCanonical(b.color)
  }

  predicate AllStorable(bs: seq<Block>) {
    forall i :: 0 <= i < |bs| ==> Storable(bs[i])
  }

  /**
   * Every block has a named colour: the only kind the console accepts as its
   * foreground colour when the block is painted.
   */
  predicate AllNamed(bs: seq<Block>) {
    forall i :: 0 <= i < |bs| ==> !bs[i].color.Unnamed?
  }

  // ---------------------------------------------------------------------------
  // Encoding

  /** One record: the two coordinates, the glyph and the colour's ordinal, separated by commas. */
  function EncodeBlock(b: Block): string {
    IntToString(b.x) + "," + IntToString(b.y) + "," + [b.character] + "," + IntToString(Ordinal(b.color))
  }

  function Records(bs: seq<Block>): (r: seq<string>)
    ensures |r| == |bs|
  {
    seq(|bs|, i requires 0 <= i < |bs| => EncodeBlock(bs[i]))
  }

  /** A drawing: the records of its blocks, in order, joined with `;`. */
  function Encode(bs: seq<Block>): string {
    Join(';', Records(bs))
  }

  // ---------------------------------------------------------------------------
  // Decoding

  /**
   * One iteration of the decoding loop: split on `,`, parse `parts[0]` and
   * `parts[1]`, take `parts[2][0]`, parse `parts[3]` and cast it to a colour,
   * raising the exception that the first failing step raises. Fields after
   * the fourth are ignored.
   */
  function DecodeBlock(record: string): (r: Result<Block, Exception>)
    ensures r.Ok? ==> r.value.character != ',' && IsCanonical(r.value.color)
    ensures r.Ok? && ';' !in record ==> Storable(r.value)
  {
    var parts := Split(record, ',');
    var r := DecodeFields(parts);
    if ';' in record then r
    else
      SplitAvoids(record, ',', ';');
      r
  }

  /** The body of the loop once the record is split into its fields. */
  function DecodeFields(parts: seq<string>): (r: Result<Block, Exception>)
    requires |parts| >= 1
    ensures r.Ok? <==> (ParseInt(parts[0]).Ok? && |parts| >= 4 && ParseInt(parts[1]).Ok?
                        && |parts[2]| > 0 && ParseInt(parts[3]).Ok?)
    ensures r.Ok? ==> r.value.character == parts[2][0] && IsCanonical(r.value.color)
  {
    var x :- ParseInt(parts[0]);
    if |parts| < 2 then Err(IndexOutOfRangeException) else
    var y :- ParseInt(parts[1]);
    if |parts| < 3 || |parts[2]| == 0 then Err(IndexOutOfRangeException) else
    var character := parts[2][0];
    if |parts| < 4 then Err(IndexOutOfRangeException) else
    var ordinal :- ParseInt(parts[3]);
    Ok(Block(x, y, character, ColorOf(ordinal)))
  }

  /**
   * The `foreach` over the records, as a specification: given what each record
   * decodes to, the blocks in order when every record decodes, otherwise the
   * exception of the first record that does not.
   */
  function Collect(results: seq<Result<Block, Exception>>): (r: Result<seq<Block>, Exception>)
    ensures r.Ok? ==> |r.value| == |results|
    ensures r.Ok? ==> forall i :: 0 <= i < |results| ==> results[i] == Ok(r.value[i])
    ensures r.Err? ==> exists i :: 0 <= i < |results| && results[i] == Err(r.error)
                                   && forall j :: 0 <= j < i ==> results[j].Ok?
  {
    if |results| == 0 then Ok([])
    else
      var n := |results| - 1;
      var front := Collect(results[..n]);
      assert forall i :: 0 <= i < n ==> results[..n][i] == results[i];
      if front.Err? then front
      else
        match results[n]
        case Err(e) => Err(e)
        case Ok(b) => Ok(front.value + [b])
  }

  /** What each record decodes to, in order. */
  function DecodeRecords(records: seq<string>): (r: seq<Result<Block, Exception>>)
    ensures |r| == |records|
  {
    seq(|records|, i requires 0 <= i < |records| => DecodeBlock(records[i]))
  }

  /** The blocks stored in `data`, or the exception loading them raises. */
  function Decode(data: string): (r: Result<seq<Block>, Exception>)
    ensures r.Ok? ==> |r.value| == |Split(data, ';')| >= 1
    ensures r.Ok? ==> AllStorable(r.value)
  {
    var records := Split(data, ';');
    var r := Collect(DecodeRecords(records));
    assert r.Ok? ==> forall i :: 0 <= i < |records| ==> ';' !in records[i] && DecodeBlock(records[i]) == Ok(r.value[i]);
    r
  }

  // ---------------------------------------------------------------------------
  // The decoding loop, one record at a time

  /** Once a record has raised, the records after it do not matter. */
  lemma {:induction false} CollectStops(results: seq<Result<Block, Exception>>, k: nat)
    requires k <= |results| && Collect(results[..k]).Err?
    ensures Collect(results) == Collect(results[..k])
    decreases |results| - k
  {
    if k < |results| {
      assert results[..k + 1][..k] == results[..k];
      CollectStops(results, k + 1);
    } else {
      assert results[..k] == results;
    }
  }

  /**
   * One iteration of the loop over the records: a record that decodes adds
   * its block after those of the records before it; one that raises makes
   * the whole load raise the same exception.
   */
  lemma CollectStep(records: seq<string>, k: nat, loaded: seq<Block>)
    requires k < |records| && Collect(DecodeRecords(records)[..k]) == Ok(loaded)
    ensures DecodeBlock(records[k]).Ok? ==>
      Collect(DecodeRecords(records)[..k + 1]) == Ok(loaded + [DecodeBlock(records[k]).value])
    ensures DecodeBlock(records[k]).Err? ==>
      Collect(DecodeRecords(records)) == Err(DecodeBlock(records[k]).error)
  {
    var results := DecodeRecords(records);
    assert results[..k + 1][..k] == results[..k];
    if DecodeBlock(records[k]).Err? {
      CollectStops(results, k + 1);
    }
  }

  // ---------------------------------------------------------------------------
  // Properties of the format

  lemma IntToStringSeparatorFree(n: int32)
    ensures ',' !in IntToString(n) && ';' !in IntToString(n)
  {
    var s := IntToString(n);
    assert forall i :: 0 <= i < |s| ==> s[i] != ',' && s[i] != ';';
  }

  lemma EncodeBlockFields(b: Block)
    ensures EncodeBlock(b) == Join(',', [IntToString(b.x), IntToString(b.y), [b.character], IntToString(Ordinal(b.color))])
  {
    var parts := [IntToString(b.x), IntToString(b.y), [b.character], IntToString(Ordinal(b.color))];
    assert Join(',', parts[3..]) == parts[3];
    assert Join(',', parts[2..]) == parts[2] + [','] + parts[3];
    assert Join(',', parts[1..]) == parts[1] + [','] + (parts[2] + [','] + parts[3]);
  }

  /** A block's record holds no `;`, and decodes back to the block when the block is storable. */
  lemma DecodeEncodeBlock(b: Block)
    ensures ';' !in EncodeBlock(b) <==> b.character != ';'
    ensures Storable(b) ==> DecodeBlock(EncodeBlock(b)) == Ok(b)
  {
    IntToStringSeparatorFree(b.x);
    IntToStringSeparatorFree(b.y);
    IntToStringSeparatorFree(Ordinal(b.color));
    var record := EncodeBlock(b);
    assert b.character in record;
    if Storable(b) {
      var parts := [IntToString(b.x), IntToString(b.y), [b.character], IntToString(Ordinal(b.color))];
      EncodeBlockFields(b);
      SplitJoin(parts, ',');
      assert Split(record, ',') == parts;
      ParseIntOfIntToString(b.x);
      ParseIntOfIntToString(b.y);
      ParseIntOfIntToString(Ordinal(b.color));
      ColorOfOrdinal(b.color);
      assert DecodeFields(parts) == Ok(b);
    }
  }

  /** The records of an encoding are recovered by splitting it on `;`. */
  lemma SplitEncode(bs: seq<Block>)
    requires |bs| > 0
    requires forall i :: 0 <= i < |bs| ==> bs[i].character != ';'
    ensures Split(Encode(bs), ';') == Records(bs)
  {
    var records := Records(bs);
    forall i | 0 <= i < |records|
      ensures ';' !in records[i]
    {
      DecodeEncodeBlock(bs[i]);
    }
    SplitJoin(records, ';');
  }

  lemma CollectAllOk(bs: seq<Block>, results: seq<Result<Block, Exception>>)
    requires |results| == |bs|
    requires forall i :: 0 <= i < |bs| ==> results[i] == Ok(bs[i])
    ensures Collect(results) == Ok(bs)
  {
    var r := Collect(results);
    assert r.Ok?;
    assert r.value == bs;
  }

  /**
   * The round trip: a non-empty sequence of storable blocks, encoded and then
   * decoded, is the same sequence, in the same order.
   */
  lemma DecodeEncode(bs: seq<Block>)
    requires |bs| > 0
    requires AllStorable(bs)
    ensures Decode(Encode(bs)) == Ok(bs)
  {
    SplitEncode(bs);
    var results := DecodeRecords(Records(bs));
    forall i | 0 <= i < |bs|
      ensures results[i] == Ok(bs[i])
    {
      DecodeEncodeBlock(bs[i]);
    }
    CollectAllOk(bs, results);
  }

  /** The empty drawing encodes to the empty string, which does not decode. */
  lemma DecodeEncodeEmpty()
    ensures Encode([]) == ""
    ensures Decode(Encode([])) == Err(FormatException)
  {
    assert Split("", ';') == [""];
    assert Split("", ',') == [""];
  }

  lemma EncodeFirstExampleBlock()
    ensures EncodeBlock(Block(1, 1, '#', Red)) == "1,1,#,12"
  {
    assert NatDigits(12) == NatDigits(1) + [DigitChar(2)];
    assert IntToString(12) == "12";
    assert IntToString(1) == "1";
  }

  lemma EncodeSecondExampleBlock()
    ensures EncodeBlock(Block(2, 2, '@', Blue)) == "2,2,@,9"
  {
    assert IntToString(2) == "2" && IntToString(9) == "9";
  }

  /** The two-block example: `(1,1,'#',Red)` and `(2,2,'@',Blue)`. */
  lemma EncodeExample()
    ensures Encode([Block(1, 1, '#', Red), Block(2, 2, '@', Blue)]) == "1,1,#,12;2,2,@,9"
  {
    EncodeFirstExampleBlock();
    EncodeSecondExampleBlock();
    var records := Records([Block(1, 1, '#', Red), Block(2, 2, '@', Blue)]);
    assert records == ["1,1,#,12", "2,2,@,9"];
  }

  lemma CollectOne(r: Result<Block, Exception>)
    ensures Collect([r]) == match r case Ok(b) => Ok([b]) case Err(e) => Err(e)
  {
    assert [r][..0] == [];
    assert Collect([r][..0]) == Ok([]);
    if r.Ok? {
      assert [] + [r.value] == [r.value];
    }
  }

  /** Data without a `;` is a one-block drawing: it loads as that block or raises what the block raises. */
  lemma DecodeOneRecord(record: string)
    requires ';' !in record
    ensures Decode(record) == match DecodeBlock(record) case Ok(b) => Ok([b]) case Err(e) => Err(e)
  {
    SplitJoin([record], ';');
    assert DecodeRecords([record]) == [DecodeBlock(record)];
    CollectOne(DecodeBlock(record));
  }

  lemma DecodeFieldsShort(parts: seq<string>)
    requires parts == ["1", "2"]
    ensures DecodeFields(parts) == Err(IndexOutOfRangeException)
  {
    assert IntToString(1) == "1";
    ParseIntOfIntToString(1);
    assert IntToString(2) == "2";
    ParseIntOfIntToString(2);
  }

  lemma DecodeBlockShort()
    ensures DecodeBlock("1,2") == Err(IndexOutOfRangeException)
  {
    assert Join(',', ["1", "2"]) == "1,2";
    SplitJoin(["1", "2"], ',');
    DecodeFieldsShort(["1", "2"]);
  }

  /** A record with only two fields fails on the missing third field, with an index error. */
  lemma DecodeShortRecord()
    ensures Decode("1,2") == Err(IndexOutOfRangeException)
  {
    DecodeOneRecord("1,2");
    DecodeBlockShort();
  }

  lemma ParseIntOneChar(c: char)
    requires !IsDigit(c) && !IsNumberWhite(c) && c != '-' && c != '+'
    ensures ParseInt([c]) == Err(FormatException)
  {
    TrimNothing([c]);
  }

  lemma DecodeFieldsNonNumeric(parts: seq<string>)
    requires |parts| == 4 && parts[0] == "1" && parts[1] == "x"
    ensures DecodeFields(parts) == Err(FormatException)
  {
    assert IntToString(1) == "1";
    ParseIntOfIntToString(1);
    ParseIntOneChar('x');
    assert "x" == ['x'];
  }

  lemma DecodeBlockNonNumeric()
    ensures DecodeBlock("1,x,Y,0") == Err(FormatException)
  {
    assert Join(',', ["1", "x", "Y", "0"]) == "1,x,Y,0";
    SplitJoin(["1", "x", "Y", "0"], ',');
    DecodeFieldsNonNumeric(["1", "x", "Y", "0"]);
  }

  /** A non-numeric coordinate raises a format error. */
  lemma DecodeNonNumeric()
    ensures Decode("1,x,Y,0") == Err(FormatException)
  {
    DecodeOneRecord("1,x,Y,0");
    DecodeBlockNonNumeric();
  }

  lemma ParseIntNinetyNine()
    ensures ParseInt("99") == Ok(99)
  {
    assert NatDigits(99) == NatDigits(9) + [DigitChar(9)];
    assert IntToString(99) == "99";
    ParseIntOfIntToString(99);
  }

  lemma DecodeFieldsUnnamedColor(parts: seq<string>)
    requires |parts| == 4 && parts[0] == "1" && parts[1] == "1" && parts[2] == "#" && parts[3] == "99"
    ensures DecodeFields(parts) == Ok(Block(1, 1, '#', Unnamed(99)))
  {
    assert IntToString(1) == "1";
    ParseIntOfIntToString(1);
    ParseIntNinetyNine();
    assert ColorOf(99) == Unnamed(99);
  }

  lemma DecodeBlockUnnamedColor()
    ensures DecodeBlock("1,1,#,99") == Ok(Block(1, 1, '#', Unnamed(99)))
  {
    assert Join(',', ["1", "1", "#", "99"]) == "1,1,#,99";
    SplitJoin(["1", "1", "#", "99"], ',');
    DecodeFieldsUnnamedColor(["1", "1", "#", "99"]);
  }

  /** An ordinal that names no colour is accepted: the cast does not check it. */
  lemma DecodeUnnamedColor()
    ensures Decode("1,1,#,99") == Ok([Block(1, 1, '#', Unnamed(99))])
  {
    DecodeOneRecord("1,1,#,99");
    DecodeBlockUnnamedColor();
  }
}
