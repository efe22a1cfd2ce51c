/**
 * Result sets on the wire (writeResultSet, writeBinaryResultSet, textRow, columnDefinition and the
 * terminators in pkg/mysqlmock/protocol_codec.go; binaryRow and appendBinaryValue in
 * pkg/mysqlmock/prepared.go; the protocol page "Binary Protocol Resultset Row").
 *
 * A cell's text, and the numbers of a binary cell, are taken as the server has computed them.
 */
module ResultSets {
  import opened Options
  import opened Integers
  import opened WireBytes
  import opened PreparedValues
  import opened Packets

  // ---------------------------------------------------------------------------------------------
  // Text rows
  // ---------------------------------------------------------------------------------------------

  /** NULL is the single byte 0xfb, anything else a length-encoded string. */
  function TextRow(cells: seq<Option<Bytes>>): Bytes {
    if cells == [] then []
    else (if cells[0].None? then [0xfb] else LenEncBytes(cells[0].value)) + TextRow(cells[1..])
  }

  /** A client reads as many cells as there are columns, and then nothing may be left. */
  function ReadTextRow(data: Bytes, columns: nat): Option<seq<Option<Bytes>>>
    decreases columns
  {
    if columns == 0 then (if data == [] then Some([]) else None)
    else if data != [] && data[0] == 0xfb then WithCell(None, ReadTextRow(data[1..], columns - 1))
    else
      var r := ReadLenEncBytes(data);
      if r.NoBytes? then None else WithCell(Some(r.value), ReadTextRow(data[r.size..], columns - 1))
  }

  function WithCell(cell: Option<Bytes>, later: Option<seq<Option<Bytes>>>): Option<seq<Option<Bytes>>> {
    if later.Some? then Some([cell] + later.value) else None
  }

  predicate ShortCells(cells: seq<Option<Bytes>>) {
    forall c :: c in cells && c.Some? ==> |c.value| < TWO_TO_64
  }

  lemma {:induction false} TextRowRoundTrip(cells: seq<Option<Bytes>>)
    requires ShortCells(cells)
    ensures ReadTextRow(TextRow(cells), |cells|) == Some(cells)
  {
    hide LenEncBytes, LenEncInt, ReadLenEncBytes;
    if cells != [] {
      var later := TextRow(cells[1..]);
      TextRowRoundTrip(cells[1..]);
      assert cells == [cells[0]] + cells[1..];
      if cells[0].None? {
        assert ([0xfb] + later)[1..] == later;
      } else {
        var head := LenEncBytes(cells[0].value);
        LenEncBytesRoundTrip(cells[0].value, later);
        assert (head + later)[|head|..] == later;
        LenEncHead(cells[0].value);
      }
    }
  }

  lemma LenEncHead(value: Bytes)
    ensures LenEncBytes(value)[0] == LenEncInt(|value|)[0]
    ensures LenEncBytes(value)[0] != 0xfb && LenEncBytes(value)[0] != 0xff
    ensures LenEncBytes(value)[0] == 0xfe ==> |LenEncBytes(value)| >= MAX_PAYLOAD
  {
    LenEncFirstByte(|value|);
  }

  /** A payload that no terminator and no error packet can be taken for. */
  predicate RowLike(payload: Bytes) {
    payload != [] && payload[0] != 0xfe && payload[0] != 0xff
  }

  /** Because the writer refuses large packets, no text row it sends starts like a terminator or an error. */
  lemma TextRowIsRowLike(cells: seq<Option<Bytes>>)
    requires cells != [] && Sendable(TextRow(cells))
    ensures RowLike(TextRow(cells))
  {
    hide LenEncBytes;
    if cells[0].Some? {
      LenEncHead(cells[0].value);
    }
  }

  // ---------------------------------------------------------------------------------------------
  // Binary rows
  // ---------------------------------------------------------------------------------------------

  datatype Cell =
    | NullCell
    | IntCell(n: int)
    | BitsCell(bits: nat)
    | TextCell(text: Bytes)
    | ZeroCell
    | DateCell(year: nat, month: Byte, day: Byte, hour: Byte, minute: Byte, second: Byte, micro: nat)

  /** What the server holds for a column of the type: the value converted as the type asks. */
  predicate CellFits(cell: Cell, fieldType: Byte) {
    match FormatOf(fieldType)
    case Integer(_) => cell.IntCell? && -MAX_INT64 - 1 <= cell.n <= MAX_INT64
    case Real(k) => cell.BitsCell? && cell.bits < Pow256(k)
    case Calendar => cell.ZeroCell? || (cell.DateCell? && cell.year < Pow256(2) && cell.micro < 1_000_000)
    case _ => cell.TextCell? && |cell.text| < TWO_TO_64
  }

  /** appendBinaryValue: integers keep their low bytes, dates drop a zero fraction. */
  function BinaryValue(cell: Cell, fieldType: Byte): Bytes
    requires CellFits(cell, fieldType)
  {
    KindIsFormat(fieldType);
    match cell
    case IntCell(n) =>
      var k := KindOf(fieldType).width;
      Le(if n < 0 then n + TWO_TO_64 else n, k)
    case BitsCell(bits) => Le(bits, if KindOf(fieldType).FloatKind? then 4 else 8)
    case TextCell(text) => LenEncBytes(text)
    case ZeroCell => [0]
    case DateCell(year, month, day, hour, minute, second, micro) =>
      [if micro > 0 then 11 else 7] + Le(year, 2) + [month, day, hour, minute, second] + (if micro > 0 then Le(micro, 4) else [])
  }

  predicate RowFits(cells: seq<Cell>, types: seq<Byte>) {
    |cells| == |types| && forall i :: 0 <= i < |cells| && !cells[i].NullCell? ==> CellFits(cells[i], types[i])
  }

  function RowValues(cells: seq<Cell>, types: seq<Byte>, i: nat): Bytes
    requires RowFits(cells, types) && i <= |cells|
    decreases |cells| - i
  {
    if i == |cells| then []
    else (if cells[i].NullCell? then [] else BinaryValue(cells[i], types[i])) + RowValues(cells, types, i + 1)
  }

  /** The bits of the null map: two spare ones, then one for each column. */
  function NullBits(cells: seq<Cell>): (bits: seq<bool>)
    ensures |bits| == |cells| + 2
  {
    seq(|cells| + 2, i requires 0 <= i < |cells| + 2 => i >= 2 && cells[i - 2].NullCell?)
  }

  /** binaryRow */
  function BinaryRow(cells: seq<Cell>, types: seq<Byte>): Bytes
    requires RowFits(cells, types)
  {
    [0] + (BitMap(NullBits(cells)) + RowValues(cells, types, 0))
  }

  /** A client reads a value as "Binary Protocol Value" says; the server never marks a column unsigned. */
  function ReadValues(bitmap: Bytes, types: seq<Byte>, i: nat, data: Bytes): Option<seq<Arg>>
    requires |bitmap| == (|types| + 9) / 8 && i <= |types|
    decreases |types| - i
  {
    if i == |types| then (if data == [] then Some([]) else None)
    else if Bit(bitmap[(i + 2) / 8], (i + 2) % 8) then WithArg(Null, ReadValues(bitmap, types, i + 1, data))
    else
      var r := DecodeValue(data, ParamType(types[i], false));
      if r.Bad? then None else WithArg(r.arg, ReadValues(bitmap, types, i + 1, data[r.size..]))
  }

  function WithArg(arg: Arg, later: Option<seq<Arg>>): Option<seq<Arg>> {
    if later.Some? then Some([arg] + later.value) else None
  }

  function ReadBinaryRow(data: Bytes, types: seq<Byte>): Option<seq<Arg>> {
    var n := (|types| + 9) / 8;
    if |data| < 1 + n || data[0] != 0 then None else ReadValues(data[1..1 + n], types, 0, data[1 + n..])
  }

  /** The value of a cell. */
  function CellValue(cell: Cell, fieldType: Byte): Arg {
    match cell
    case NullCell => Null
    case IntCell(n) => Int64(n)
    case BitsCell(bits) => if FormatOf(fieldType) == Real(4) then Float32(bits) else Float64(bits)
    case TextCell(text) => if FormatOf(fieldType).Characters? then Text(text) else Blob(text)
    case ZeroCell => ZeroTime
    case DateCell(year, month, day, hour, minute, second, micro) => DateTime(year, month, day, hour, minute, second, micro)
  }

  /** The column types a client can read back: not TIME, which is sent as text, and no unknown ones. */
  predicate Readable(fieldType: Byte) {
    FormatOf(fieldType) !in {Duration, Nothing, Unknown}
  }

  /** An integer must fit the width of its column. */
  predicate IntFits(cell: Cell, fieldType: Byte) {
    cell.IntCell? && FormatOf(fieldType).Integer? ==>
      0 <= 2 * cell.n + Pow256(FormatOf(fieldType).bytes) < 2 * Pow256(FormatOf(fieldType).bytes)
  }

  /** The low bytes of an integer of 64 bits, read as a signed integer of k bytes. */
  lemma IntCellReads(n: int, k: nat)
    requires k in {1, 2, 4, 8} && -MAX_INT64 - 1 <= n <= MAX_INT64
    ensures var raw := if n < 0 then n + TWO_TO_64 else n;
            raw >= 0 && (Signed(FromLe(Le(raw, k)), k) == n <==> 0 <= 2 * n + Pow256(k) < 2 * Pow256(k))
  {
    hide Le, FromLe, Pow256;
    Powers();
    LeTruncates(if n < 0 then n + TWO_TO_64 else n, k);
    if k == 1 { LowByte(n); } else if k == 2 { LowShort(n); } else if k == 4 { LowLong(n); } else { LowAll(n); }
  }

  function Low(n: int, m: nat): int
    requires m > 0
  {
    var low := (if n < 0 then n + TWO_TO_64 else n) % m;
    if 2 * low < m then low else low - m
  }

  lemma LowByte(n: int)
    requires -MAX_INT64 - 1 <= n <= MAX_INT64
    ensures Low(n, 0x100) == n <==> 0 <= 2 * n + 0x100 < 0x200
  {
  }

  lemma LowShort(n: int)
    requires -MAX_INT64 - 1 <= n <= MAX_INT64
    ensures Low(n, 0x1_0000) == n <==> 0 <= 2 * n + 0x1_0000 < 0x2_0000
  {
  }

  lemma LowLong(n: int)
    requires -MAX_INT64 - 1 <= n <= MAX_INT64
    ensures Low(n, 0x1_0000_0000) == n <==> 0 <= 2 * n + 0x1_0000_0000 < 0x2_0000_0000
  {
  }

  lemma LowAll(n: int)
    requires -MAX_INT64 - 1 <= n <= MAX_INT64
    ensures Low(n, TWO_TO_64) == n
  {
  }

  lemma DateCellReads(cell: Cell, fieldType: Byte, rest: Bytes)
    requires CellFits(cell, fieldType) && cell.DateCell?
    ensures DecodeDateTime(BinaryValue(cell, fieldType) + rest) ==
              Decoded(CellValue(cell, fieldType), |BinaryValue(cell, fieldType)|)
  {
    hide KindOf, FormatOf;
    Powers();
    var data := BinaryValue(cell, fieldType) + rest;
    LeRoundTrip(cell.year, 2);
    assert data[1..3] == Le(cell.year, 2);
    assert data[3] == cell.month && data[4] == cell.day && data[5] == cell.hour;
    assert data[6] == cell.minute && data[7] == cell.second;
    if cell.micro > 0 {
      LeRoundTrip(cell.micro, 4);
      assert data[8..12] == Le(cell.micro, 4);
    }
  }

  /** A client that reads the value of a column gets the cell back, if an integer fits its column, and nothing more. */
  predicate CellReads(cell: Cell, fieldType: Byte, rest: Bytes)
    requires CellFits(cell, fieldType)
  {
    var r := DecodeValue(BinaryValue(cell, fieldType) + rest, ParamType(fieldType, false));
    r.Decoded? && r.size == |BinaryValue(cell, fieldType)| && (r.arg == CellValue(cell, fieldType) <==> IntFits(cell, fieldType))
  }

  lemma NumberReads(cell: Cell, fieldType: Byte, rest: Bytes)
    requires CellFits(cell, fieldType) && (cell.IntCell? || cell.BitsCell?)
    ensures CellReads(cell, fieldType, rest)
  {
    KindIsFormat(fieldType);
    hide Le, FromLe, Pow256, Signed, DecodeDateTime, DecodeTime, ReadLenEncBytes, KindOf, FormatOf;
    var value := BinaryValue(cell, fieldType);
    if cell.IntCell? {
      IntCellReads(cell.n, KindOf(fieldType).width);
    } else {
      LeRoundTrip(cell.bits, |value|);
    }
    assert (value + rest)[..|value|] == value;
  }

  lemma OtherReads(cell: Cell, fieldType: Byte, rest: Bytes)
    requires CellFits(cell, fieldType) && Readable(fieldType) && !cell.IntCell? && !cell.BitsCell? && !cell.NullCell?
    ensures CellReads(cell, fieldType, rest)
  {
    KindIsFormat(fieldType);
    hide Le, FromLe, Pow256, DecodeTime, ReadLenEncBytes, LenEncBytes, KindOf, FormatOf;
    match cell
    case TextCell(text) => LenEncBytesRoundTrip(text, rest);
    case DateCell(_, _, _, _, _, _, _) => DateCellReads(cell, fieldType, rest);
    case ZeroCell => assert ([0] + rest)[0] == 0;
  }

  lemma CellRoundTrip(cell: Cell, fieldType: Byte, rest: Bytes)
    requires CellFits(cell, fieldType) && Readable(fieldType) && !cell.NullCell?
    ensures CellReads(cell, fieldType, rest)
  {
    hide CellReads, CellFits, Readable;
    if cell.IntCell? || cell.BitsCell? {
      NumberReads(cell, fieldType, rest);
    } else {
      OtherReads(cell, fieldType, rest);
    }
  }

  /** What a cell is on the wire, as the protocol has a client send it. */
  function WireOf(cell: Cell): Wire {
    match cell
    case NullCell => WireNull
    case IntCell(n) => WireInt(n)
    case BitsCell(bits) => WireBits(bits)
    case TextCell(text) => Wire.WireBytes(text)
    case ZeroCell => WireZero
    case DateCell(year, month, day, hour, minute, second, micro) =>
      WireDateTime(year, month, day, hour, minute, second, if micro > 0 then Some(micro) else None)
  }

  /** The row writer writes a cell as the protocol has its value written, and for every column type in as many bytes. */
  lemma CellAsProtocol(cell: Cell, fieldType: Byte)
    requires CellFits(cell, fieldType) && Readable(fieldType) && !cell.NullCell? && IntFits(cell, fieldType)
    ensures Fits(WireOf(cell), ParamType(fieldType, false))
    ensures BinaryValue(cell, fieldType) == Encode(WireOf(cell), ParamType(fieldType, false))
  {
    KindIsFormat(fieldType);
    hide KindOf, FormatOf, Le, LenEncBytes;
    Powers();
    if cell.IntCell? && cell.n < 0 {
      LeLow(cell.n, FormatOf(fieldType).bytes);
    }
  }

  lemma {:induction false} LeOfFromLe(b: Bytes)
    ensures Le(FromLe(b), |b|) == b
  {
    if b != [] {
      LeOfFromLe(b[1..]);
      var n := FromLe(b);
      assert n % 0x100 == b[0] && n / 0x100 == FromLe(b[1..]);
      assert b == [b[0]] + b[1..];
    }
  }

  /** Only the low bytes are written. */
  lemma LeModulo(n: nat, k: nat)
    ensures Le(n, k) == Le(n % Pow256(k), k)
  {
    LeTruncates(n, k);
    LeOfFromLe(Le(n, k));
  }

  /** Two's complement of 64 bits and of k bytes have the same low bytes. */
  lemma LeLow(n: int, k: nat)
    requires k in {1, 2, 4, 8} && -MAX_INT64 - 1 <= n < 0 && 0 <= 2 * n + Pow256(k)
    ensures n + Pow256(k) >= 0 && Le(n + TWO_TO_64, k) == Le(n + Pow256(k), k)
  {
    hide Le;
    Powers();
    hide Pow256;
    LeModulo(n + TWO_TO_64, k);
    LeModulo(n + Pow256(k), k);
    if k == 1 {
      assert (n + TWO_TO_64) % 0x100 == (n + 0x100) % 0x100;
    } else if k == 2 {
      assert (n + TWO_TO_64) % 0x1_0000 == (n + 0x1_0000) % 0x1_0000;
    } else if k == 4 {
      assert (n + TWO_TO_64) % 0x1_0000_0000 == (n + 0x1_0000_0000) % 0x1_0000_0000;
    }
  }

  function Row(cells: seq<Cell>, types: seq<Byte>, i: nat): seq<Arg>
    requires |cells| == |types| && i <= |cells|
    decreases |cells| - i
  {
    if i == |cells| then [] else [CellValue(cells[i], types[i])] + Row(cells, types, i + 1)
  }

  predicate IntsFit(cells: seq<Cell>, types: seq<Byte>)
    requires |cells| == |types|
  {
    forall i :: 0 <= i < |cells| ==> IntFits(cells[i], types[i])
  }

  lemma NullMapBit(cells: seq<Cell>, i: nat)
    requires i < |cells|
    ensures (i + 2) / 8 < |BitMap(NullBits(cells))|
    ensures Bit(BitMap(NullBits(cells))[(i + 2) / 8], (i + 2) % 8) <==> cells[i].NullCell?
  {
    BitMapBit(NullBits(cells), i + 2);
  }

  lemma {:induction false} ReadValuesBack(cells: seq<Cell>, types: seq<Byte>, i: nat)
    requires RowFits(cells, types) && i <= |cells|
    requires forall t :: t in types ==> Readable(t)
    ensures var r := ReadValues(BitMap(NullBits(cells)), types, i, RowValues(cells, types, i));
            r.Some? && |r.value| == |cells| - i &&
            (r.value == Row(cells, types, i) <==> forall j :: i <= j < |cells| ==> IntFits(cells[j], types[j]))
    decreases |cells| - i
  {
    hide BitMap, Bit, DecodeValue, BinaryValue, CellValue, CellFits, IntFits, Readable;
    if i < |cells| {
      NullMapBit(cells, i);
      ReadValuesBack(cells, types, i + 1);
      var later := RowValues(cells, types, i + 1);
      var tail := ReadValues(BitMap(NullBits(cells)), types, i + 1, later).value;
      if cells[i].NullCell? {
        assert [] + later == later;
        NullIntFits(cells[i], types[i]);
        SameHead(Null, Null, tail, Row(cells, types, i + 1));
      } else {
        var value := BinaryValue(cells[i], types[i]);
        CellRoundTrip(cells[i], types[i], later);
        assert (value + later)[|value|..] == later;
        SameHead(DecodeValue(value + later, ParamType(types[i], false)).arg, CellValue(cells[i], types[i]), tail, Row(cells, types, i + 1));
      }
    }
  }

  lemma NullIntFits(cell: Cell, fieldType: Byte)
    requires cell.NullCell?
    ensures IntFits(cell, fieldType) && CellValue(cell, fieldType) == Null
  {
  }

  lemma SameHead(a: Arg, b: Arg, x: seq<Arg>, y: seq<Arg>)
    ensures [a] + x == [b] + y <==> a == b && x == y
  {
    assert ([a] + x)[0] == a && ([b] + y)[0] == b;
    assert ([a] + x)[1..] == x && ([b] + y)[1..] == y;
  }

  /**
   * A binary row is always read back to its full length, and to the row's own values exactly when
   * every integer fits the width of its column.
   */
  lemma BinaryRowRoundTrip(cells: seq<Cell>, types: seq<Byte>)
    requires RowFits(cells, types) && forall t :: t in types ==> Readable(t)
    ensures ReadBinaryRow(BinaryRow(cells, types), types).Some?
    ensures ReadBinaryRow(BinaryRow(cells, types), types) == Some(Row(cells, types, 0)) <==> IntsFit(cells, types)
  {
    hide ReadValues, RowValues, BitMap, Row, IntFits, Readable, CellFits;
    var data := BinaryRow(cells, types);
    var bitmap := BitMap(NullBits(cells));
    assert data[1..1 + |bitmap|] == bitmap && data[1 + |bitmap|..] == RowValues(cells, types, 0);
    ReadValuesBack(cells, types, 0);
  }

  lemma BinaryRowIsRowLike(cells: seq<Cell>, types: seq<Byte>)
    requires RowFits(cells, types)
    ensures RowLike(BinaryRow(cells, types))
  {
  }
}
