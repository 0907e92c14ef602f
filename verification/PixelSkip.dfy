/**
  Skipped pixels across the process boundary: what the HTTP server's validator accepts,
  and what the path tracer's 16-bit copy loop makes of it. JSON numbers are 64-bit and
  are read at several widths.
 */
module PixelSkip {
  import opened Prelude

  const TWO16: nat := 0x1_0000
  const TWO31: nat := 0x8000_0000
  const TWO32: nat := 0x1_0000_0000

  /** The JSON values these functions tell apart: `Signed` is an integer written with a
      minus sign, and an object is known by its number of keys. */
  datatype Json =
    | Unsigned(n: nat)
    | Signed(k: int)
    | Real(r: real)
    | Boolean(b: bool)
    | Text
    | Null
    | Arr(items: seq<Json>)
    | Obj(keys: nat)
  {
    /** `size()`: scalars count as one. */
    function Size(): nat {
      match this
      case Arr(items) => |items|
      case Obj(keys) => keys
      case Null => 0
      case _ => 1
    }
  }

  /** `get<int>()`, `get<uint16_t>()` of an unsigned number. */
  function AsInt(n: nat): int {
    var low := n % TWO32;
    if low < TWO31 then low else low - TWO32
  }

  function AsUint16(n: nat): nat { n % TWO16 }

  // ------------------------------------------------------------------ dimensions

  /** `enforce_nonzero_uint16_t` returns rather than throws. */
  predicate AcceptsDimension(value: Option<Json>) {
    value.Some? && value.value.Unsigned?
    && var val := AsInt(value.value.n);
       !(val > 65535 || val == 0)
  }

  /** It accepts exactly the nonzero 16-bit numbers when the number fits an `int`, or
      its low 32 bits happen to be zero or between 2^16 and 2^31; otherwise it lets a
      number through that is none. Nothing but an unsigned number is accepted. */
  lemma {:induction false} DimensionCheckExactIff(n: nat)
    ensures (AcceptsDimension(Some(Unsigned(n))) <==> 0 < n < TWO16)
       <==> n < TWO31 || n % TWO32 == 0 || TWO16 <= n % TWO32 < TWO31
    ensures !AcceptsDimension(None) && forall j :: AcceptsDimension(Some(j)) ==> j.Unsigned?
  {
  }

  lemma LargeDimensionAccepted()
    ensures AcceptsDimension(Some(Unsigned(4294967301))) && AsUint16(4294967301) == 5
  {
  }

  // ------------------------------------------------------------------ validation

  /** `UndefinedIndex`: the code indexes an empty array. */
  datatype Verdict = Accepted | Rejected | UndefinedIndex

  predicate PixelIn(item: Json, width: nat, height: nat) {
    item.Arr? && |item.items| == 2
    && item.items[0].Unsigned? && item.items[1].Unsigned?
    && item.items[0].n < AsUint16(width) && item.items[1].n < AsUint16(height)
  }

  /** A valid pixel is a list of two unsigned numbers, column and row, each below the 16-bit
      reading of the width and the height. */
  lemma ValidPixels(item: Json, width: nat, height: nat)
    ensures PixelIn(item, width, height) <==>
      exists x: nat, y: nat :: item == Arr([Unsigned(x), Unsigned(y)]) && x < width % TWO16 && y < height % TWO16
  {
    if PixelIn(item, width, height) {
      assert item == Arr([Unsigned(item.items[0].n), Unsigned(item.items[1].n)]);
    }
  }

  /** The pixels part of the validator, given the width and height of the same body. */
  method EnforceValidPixels(pixels: Option<Json>, width: nat, height: nat) returns (v: Verdict)
    ensures v == Accepted <==>
      pixels.None? || (pixels.value.Arr? && pixels.value.items != []
                       && forall i :: 0 <= i < |pixels.value.items| ==> PixelIn(pixels.value.items[i], width, height))
    ensures v == UndefinedIndex <==>
      pixels.Some? && pixels.value.Arr? && pixels.value.items != [] && pixels.value.items[0] == Arr([])
  {
    if pixels.None? {
      return Accepted;
    }
    var json := pixels.value;
    if !json.Arr? || json.Size() == 0 || !json.items[0].Arr? {
      return Rejected;
    }
    if json.items[0].items == [] {
      return UndefinedIndex;
    }
    if !json.items[0].items[0].Unsigned? {
      return Rejected;
    }
    var h, w := AsUint16(height), AsUint16(width);
    for i := 0 to json.Size()
      invariant forall k :: 0 <= k < i ==> PixelIn(json.items[k], width, height)
    {
      var pixel := json.items[i];
      if pixel.Size() != 2 {
        return Rejected;
      }
      if !pixel.Arr? {
        // Indexing an object by position throws.
        return Rejected;
      }
      if !pixel.items[0].Unsigned? || !pixel.items[1].Unsigned? {
        return Rejected;
      }
      if pixel.items[0].n >= w || pixel.items[1].n >= h {
        return Rejected;
      }
    }
    v := Accepted;
  }

  // ------------------------------------------------------------------ decoding

  predicate IsPixel(item: Json) {
    item.Arr? && |item.items| == 2 && item.items[0].Unsigned? && item.items[1].Unsigned?
  }

  predicate ArePixels(items: seq<Json>) {
    forall i :: 0 <= i < |items| ==> IsPixel(items[i])
  }

  /** The coordinates a body names. */
  function Coordinates(items: seq<Json>): seq<(nat, nat)>
    requires ArePixels(items)
  {
    seq(|items|, i requires 0 <= i < |items| => (items[i].items[0].n, items[i].items[1].n))
  }

  /** What comes of reading one coordinate, or one row: the numbers, an exception, or
      undefined behaviour. */
  datatype Reading = Number(n: nat) | Throws | Undefined
  datatype Row = Row(x: nat, y: nat) | RowThrows | RowUndefined

  /** `get<uint16_t>()`: any number converts, and so does a boolean; a fraction is cut
      off, and the result must fit. */
  function Get16(j: Json): Reading {
    match j
    case Unsigned(n) => Number(AsUint16(n))
    case Signed(k) => Number(k % TWO16)
    case Real(r) => if -1.0 < r < 65536.0 then Number(if r < 0.0 then 0 else r.Floor) else Undefined
    case Boolean(b) => Number(if b then 1 else 0)
    case _ => Throws
  }

  /** However a number below 2^16 is written, it is what is read; a negative integer is
      read modulo 2^16, and a fraction is cut off towards zero or undefined. */
  lemma ReadingIsNumber(n: nat, r: real)
    requires n < TWO16
    ensures Get16(Unsigned(n)) == Get16(Signed(n)) == Get16(Real(n as real)) == Number(n)
    ensures n > 0 ==> Get16(Signed(0 - n)) == Number(TWO16 - n)
    ensures match Get16(Real(r))
            case Number(k) => k < TWO16 && if r < 0.0 then k == 0 && -1.0 < r else k as real <= r < k as real + 1.0
            case _ => r <= -1.0 || r >= 65536.0
  {
  }

  /** `item[k].get<uint16_t>()`: only arrays are indexed by position, and unchecked. */
  function Coordinate(item: Json, k: nat): Reading {
    if !item.Arr? then Throws
    else if k >= |item.items| then Undefined
    else Get16(item.items[k])
  }

  function ReadRow(item: Json): Row {
    match (Coordinate(item, 0), Coordinate(item, 1))
    case (Number(x), Number(y)) => Row(x, y)
    case (Throws, _) => RowThrows
    case (Undefined, _) => RowUndefined
    case (_, Throws) => RowThrows
    case (_, Undefined) => RowUndefined
  }

  /** Element `i` of what should be a list. */
  function RowAt(pixels: Json, i: nat): Row {
    if !pixels.Arr? then RowThrows
    else if i >= |pixels.items| then RowUndefined
    else ReadRow(pixels.items[i])
  }

  /** A row is two numbers at the start of a list in a list. It throws where something is
      indexed that is no list, or read that is no number; and what is undefined is looking
      behind the end of a list, or a number that does not fit. */
  lemma {:induction false} RowCases(pixels: Json, i: nat, x: nat, y: nat)
    ensures RowAt(pixels, i) == Row(x, y) <==>
      && pixels.Arr? && i < |pixels.items| && pixels.items[i].Arr? && |pixels.items[i].items| >= 2
      && Get16(pixels.items[i].items[0]) == Number(x) && Get16(pixels.items[i].items[1]) == Number(y)
    ensures RowAt(pixels, i) == RowThrows <==>
      || !pixels.Arr?
      || (i < |pixels.items|
          && var item := pixels.items[i];
             || !item.Arr?
             || (|item.items| >= 1 && Get16(item.items[0]) == Throws)
             || (|item.items| >= 2 && Get16(item.items[0]).Number? && Get16(item.items[1]) == Throws))
  {
  }

  datatype ParseEnd = Parsed | ParseThrew | ParseUndefined

  ghost predicate HoldsRow(row: array<nat>, r: Row)
    reads row
  {
    r.Row? && row.Length == 2 && row[0] == r.x && row[1] == r.y
  }

  /** Row `k` is the first that cannot be read, and ends the parse like this. */
  ghost predicate StopsAt(pixels: Json, k: nat, end: ParseEnd) {
    && k < pixels.Size() % TWO32 && (forall i: nat :: i < k ==> RowAt(pixels, i).Row?)
    && ((end == ParseThrew && RowAt(pixels, k) == RowThrows) || (end == ParseUndefined && RowAt(pixels, k) == RowUndefined))
  }

  /** The path tracer's copy loop; the number of rows is kept in 32 bits. Looking up a
      list that is not there is undefined. */
  method ParsePixels(pixels: Option<Json>) returns (end: ParseEnd, rows: array<array<nat>>, len: nat)
    ensures pixels.None? ==> end == ParseUndefined
    ensures pixels.Some? ==> len == pixels.value.Size() % TWO32
    ensures pixels.Some? ==> (end == Parsed <==> forall i: nat :: i < len ==> RowAt(pixels.value, i).Row?)
    ensures end == Parsed ==>
      rows.Length == len && forall i: nat :: i < len ==> HoldsRow(rows[i], RowAt(pixels.value, i))
    ensures pixels.Some? && end != Parsed ==> exists k :: StopsAt(pixels.value, k, end)
  {
    var filler := new nat[0];
    rows, len := new array<nat>[0], 0;
    if pixels.None? {
      return ParseUndefined, rows, len;
    }
    var json := pixels.value;
    len := json.Size() % TWO32;
    rows := new array<nat>[len](_ => filler);
    for i := 0 to len
      invariant forall k: nat :: k < i ==> HoldsRow(rows[k], RowAt(json, k))
    {
      var row := new nat[2];
      match RowAt(json, i) {
        case Row(x, y) =>
          row[0], row[1] := x, y;
        case RowThrows =>
          assert StopsAt(json, i, ParseThrew);
          return ParseThrew, rows, len;
        case RowUndefined =>
          assert StopsAt(json, i, ParseUndefined);
          return ParseUndefined, rows, len;
      }
      rows[i] := row;
    }
    end := Parsed;
  }

  /** What a renderer reads back from the rows. */
  function Decoded(rows: seq<array<nat>>): seq<(nat, nat)>
    reads rows
    requires forall i :: 0 <= i < |rows| ==> rows[i].Length == 2
  {
    seq(|rows|, i requires 0 <= i < |rows| && rows[i].Length == 2 reads rows => (rows[i][0], rows[i][1]))
  }

  /** Both processes agree: every accepted list is read without fault, and the path
      tracer's rows name the same pixels in the same order, all inside the image at its
      full 64-bit width and height - the whole list exactly when its length fits 32
      bits. A body without a list is accepted, and then reading it is undefined. */
  method ValidateThenParse(pixels: Option<Json>, width: nat, height: nat)
    returns (v: Verdict, end: ParseEnd, rows: array<array<nat>>, len: nat)
    ensures v == Accepted ==> (end == Parsed <==> pixels.Some?)
    ensures v == Accepted && pixels.Some? ==>
      && pixels.value.Arr? && ArePixels(pixels.value.items) && rows.Length == len
      && (forall i :: 0 <= i < len ==> rows[i].Length == 2)
      && Decoded(rows[..]) <= Coordinates(pixels.value.items)
      && (Decoded(rows[..]) == Coordinates(pixels.value.items) <==> |pixels.value.items| < TWO32)
      && (forall p :: p in Decoded(rows[..]) ==> p.0 < width && p.1 < height)
  {
    v := EnforceValidPixels(pixels, width, height);
    end, rows, len := ParsePixels(pixels);
    if v == Accepted && pixels.Some? {
      var items := pixels.value.items;
      forall i: nat | i < |items|
        ensures RowAt(pixels.value, i) == Row(items[i].items[0].n, items[i].items[1].n) && IsPixel(items[i])
        ensures items[i].items[0].n < width && items[i].items[1].n < height
      {
        assert PixelIn(items[i], width, height);
        NarrowingExact(items[i].items[0].n, width);
        NarrowingExact(items[i].items[1].n, height);
      }
      assert end == Parsed;
      forall i | 0 <= i < len ensures (rows[i][0], rows[i][1]) == Coordinates(items)[i] {
        assert HoldsRow(rows[i], RowAt(pixels.value, i));
      }
    }
  }

  /** A coordinate below the 16-bit reading of a dimension survives the 16-bit copy and
      is below the dimension however wide it is read. */
  lemma NarrowingExact(x: nat, dimension: nat)
    requires x < AsUint16(dimension)
    ensures AsUint16(x) == x < dimension
  {
  }
}
