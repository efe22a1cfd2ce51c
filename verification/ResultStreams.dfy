/**
 * A whole result set as a stream of packets, and a client that reads it back (writeResultSet,
 * writeBinaryResultSet, columnDefinition and the terminators in pkg/mysqlmock/protocol_codec.go),
 * with and without CLIENT_DEPRECATE_EOF.
 */
module ResultStreams {
  import opened Options
  import opened Integers
  import opened WireBytes
  import opened PreparedValues
  import opened Packets
  import opened ResultSets

  datatype Column = Column(name: Bytes, fieldType: Byte)

  const CATALOG: Bytes := [0x64, 0x65, 0x66]

  function Charset(fieldType: Byte): nat {
    if fieldType == 0xfd || fieldType == 0xfc then 45 else 63
  }

  /** columnDefinition */
  function ColumnDefinition(schema: Bytes, column: Column): Bytes {
    LenEncBytes(CATALOG) + (LenEncBytes(schema) + (LenEncBytes([]) + (LenEncBytes([]) +
      (LenEncBytes(column.name) + (LenEncBytes(column.name) + Fixed(column.fieldType))))))
  }

  /** The fields of fixed length: their size, character set, column length, type, flags, decimals and filler. */
  function Fixed(fieldType: Byte): (b: Bytes)
    ensures |b| == 13 && b[7] == fieldType
  {
    [0x0c] + Le(Charset(fieldType), 2) + Le(1024, 4) + [fieldType] + [0, 0] + [0] + [0, 0]
  }

  function Eof(status: nat): (b: Bytes)
    ensures |b| == 5 && b[0] == 0xfe
  {
    [0xfe] + Le(0, 2) + Le(status, 2)
  }

  /** The terminator of a client that does without EOF packets: an OK packet that starts with 0xfe. */
  function EofAsOk(status: nat): (b: Bytes)
    ensures |b| == 7 && b[0] == 0xfe
  {
    [0xfe] + LenEncInt(0) + LenEncInt(0) + Le(status, 2) + Le(0, 2)
  }

  function Terminator(status: nat, deprecate: bool): Bytes {
    if deprecate then EofAsOk(status) else Eof(status)
  }

  /** The payloads of a result set, in order. */
  function Payloads(columns: seq<Bytes>, rows: seq<Bytes>, status: nat, deprecate: bool): seq<Bytes>
    requires |columns| < TWO_TO_64
  {
    [LenEncInt(|columns|)] + (columns + ((if deprecate then [] else [Eof(status)]) + (rows + [Terminator(status, deprecate)])))
  }

  // ---------------------------------------------------------------------------------------------
  // The client
  // ---------------------------------------------------------------------------------------------

  /** Packets, and the one that ended them. */
  datatype Batch = Batch(payloads: seq<Bytes>, last: Bytes, rest: Bytes, number: Byte)

  function Cons(payload: Bytes, later: Option<Batch>): Option<Batch> {
    if later.Some? then Some(later.value.(payloads := [payload] + later.value.payloads)) else None
  }

  /** As many packets as were announced. */
  function ReadMany(input: Bytes, number: Byte, count: nat): Option<Batch>
    decreases count
  {
    if count == 0 then Some(Batch([], [], input, number))
    else
      var p := Receive(input, number);
      if p.Missing? then None else Cons(p.payload, ReadMany(p.rest, p.number, count - 1))
  }

  predicate IsTerminator(payload: Bytes, deprecate: bool) {
    payload != [] && payload[0] == 0xfe && |payload| < if deprecate then 0xff_ffff else 9
  }

  /** Rows up to the terminator; an error packet ends the result set. */
  function ReadRows(input: Bytes, number: Byte, deprecate: bool): Option<Batch>
    decreases |input|
  {
    var p := Receive(input, number);
    if p.Missing? then None
    else if IsTerminator(p.payload, deprecate) then Some(Batch([], p.payload, p.rest, p.number))
    else if p.payload != [] && p.payload[0] == 0xff then None
    else Cons(p.payload, ReadRows(p.rest, p.number, deprecate))
  }

  /** What a client learns when the rows are over. */
  datatype Ending = Ending(affected: nat, insertId: nat, status: nat, warnings: nat)

  /**
   * An EOF packet holds the warnings, then the status; the OK packet in its place two numbers, the status and
   * the warnings.
   */
  function ReadEnding(payload: Bytes, deprecate: bool): Option<Ending> {
    if !deprecate then
      if |payload| == 5 then Some(Ending(0, 0, FromLe(payload[3..]), FromLe(payload[1..3]))) else None
    else if payload == [] then None
    else
      var affected := ReadLenEncInt(payload[1..]);
      if !affected.Number? then None
      else
        var behind := payload[1..][affected.size..];
        var insertId := ReadLenEncInt(behind);
        if !insertId.Number? || |behind| != insertId.size + 4 then None
        else
          var b := behind[insertId.size..];
          Some(Ending(affected.n, insertId.n, FromLe(b[..2]), FromLe(b[2..])))
  }

  /** Nothing affected, nothing inserted, no warnings, and the connection's status. */
  function Ended(status: nat): Ending {
    Ending(0, 0, status % 0x1_0000, 0)
  }

  datatype Result = Result(columns: seq<Bytes>, rows: seq<Bytes>, ending: Ending, rest: Bytes, number: Byte)

  function ReadResult(input: Bytes, number: Byte, deprecate: bool): Option<Result> {
    var first := Receive(input, number);
    if first.Missing? then None
    else
      var count := ReadLenEncInt(first.payload);
      if !count.Number? || count.size != |first.payload| || count.n == 0 then None
      else
        var columns := ReadMany(first.rest, first.number, count.n);
        if columns.None? then None else ReadAfterColumns(columns.value, deprecate)
  }

  function ReadAfterColumns(columns: Batch, deprecate: bool): Option<Result> {
    if deprecate then ReadBody(columns.payloads, columns.rest, columns.number, deprecate)
    else
      var eof := Receive(columns.rest, columns.number);
      if eof.Missing? || !IsTerminator(eof.payload, false) then None
      else ReadBody(columns.payloads, eof.rest, eof.number, deprecate)
  }

  function ReadBody(columns: seq<Bytes>, input: Bytes, number: Byte, deprecate: bool): Option<Result> {
    var rows := ReadRows(input, number, deprecate);
    if rows.None? then None
    else
      var ending := ReadEnding(rows.value.last, deprecate);
      if ending.None? then None
      else Some(Result(columns, rows.value.payloads, ending.value, rows.value.rest, rows.value.number))
  }

  // ---------------------------------------------------------------------------------------------
  // The stream is read back
  // ---------------------------------------------------------------------------------------------

  lemma SentCons(payload: Bytes, later: seq<Bytes>, number: Byte)
    requires Sendable(payload)
    ensures Sent([payload] + later, number) == Frame(number, payload) + Sent(later, Next(number))
  {
    assert ([payload] + later)[1..] == later;
  }

  lemma {:induction false} SentAppend(a: seq<Bytes>, b: seq<Bytes>, number: Byte)
    requires AllSendable(a)
    ensures Sent(a + b, number) == Sent(a, number) + Sent(b, After(number, |a|))
  {
    hide Frame, Sendable;
    if a == [] {
      assert a + b == b;
    } else {
      assert Sendable(a[0]);
      assert a + b == [a[0]] + (a[1..] + b) && a == [a[0]] + a[1..];
      SentCons(a[0], a[1..] + b, number);
      SentCons(a[0], a[1..], number);
      SentAppend(a[1..], b, Next(number));
      AfterNext(number, |a|);
    }
  }

  lemma AfterNext(number: Byte, count: nat)
    ensures count > 0 ==> After(Next(number), count - 1) == After(number, count)
    ensures After(number, 0) == number
    ensures Next(After(number, count)) == After(number, count + 1)
  {
    if count > 0 {
      Wraps(number + 1, count - 1);
    }
    Wraps(number + count, 1);
  }

  /** Numbers wrap around at 256. */
  lemma Wraps(a: nat, b: nat)
    ensures (a % 0x100 + b) % 0x100 == (a + b) % 0x100
  {
    assert a == 0x100 * (a / 0x100) + a % 0x100;
  }

  lemma {:induction false} ReadManyBack(payloads: seq<Bytes>, number: Byte, rest: Bytes)
    requires AllOnePacket(payloads)
    ensures ReadMany(Sent(payloads, number) + rest, number, |payloads|) == Some(Batch(payloads, [], rest, After(number, |payloads|)))
  {
    hide Frame, Receive;
    if payloads == [] {
      assert [] + rest == rest;
    } else {
      var later := Sent(payloads[1..], Next(number));
      assert OnePacket(payloads[0]) && payloads == [payloads[0]] + payloads[1..];
      SentCons(payloads[0], payloads[1..], number);
      assert Sent(payloads, number) + rest == Frame(number, payloads[0]) + (later + rest);
      FrameRoundTrip(number, payloads[0], later + rest);
      ReadManyBack(payloads[1..], Next(number), rest);
      AfterNext(number, |payloads|);
    }
  }

  predicate AllRowLike(rows: seq<Bytes>) {
    forall r :: r in rows ==> RowLike(r)
  }

  lemma FrameThen(payload: Bytes, later: seq<Bytes>, number: Byte, rest: Bytes)
    requires Sendable(payload)
    ensures Sent([payload] + later, number) + rest == Frame(number, payload) + (Sent(later, Next(number)) + rest)
  {
    SentCons(payload, later, number);
    Regroup(Frame(number, payload), Sent(later, Next(number)), rest);
  }

  lemma RowGoesOn(row: Bytes, deprecate: bool)
    requires RowLike(row) && OnePacket(row)
    ensures !IsTerminator(row, deprecate) && !(row != [] && row[0] == 0xff) && Sendable(row)
  {
  }

  /** Rows and terminator cannot be mistaken for each other. */
  lemma {:induction false} ReadRowsBack(rows: seq<Bytes>, status: nat, deprecate: bool, number: Byte, rest: Bytes)
    requires AllOnePacket(rows) && AllRowLike(rows)
    ensures ReadRows(Sent(rows + [Terminator(status, deprecate)], number) + rest, number, deprecate)
         == Some(Batch(rows, Terminator(status, deprecate), rest, After(number, |rows| + 1)))
    decreases |rows|
  {
    hide Frame, Receive, Eof, EofAsOk, Terminator, Sent, IsTerminator, RowLike, OnePacket, Sendable, After, Next;
    var last := Terminator(status, deprecate);
    TerminatorOnePacket(status, deprecate);
    AfterNext(number, |rows| + 1);
    if rows == [] {
      AfterNext(Next(number), 0);
      NothingSent(number);
      assert rows + [last] == [last] + [] && [] + rest == rest;
      FrameThen(last, [], number, rest);
      FrameRoundTrip(number, last, rest);
    } else {
      var row, later := rows[0], rows[1..] + [last];
      assert row in rows && rows == [row] + rows[1..];
      assert rows + [last] == [row] + later;
      RowGoesOn(row, deprecate);
      FrameThen(row, later, number, rest);
      FrameRoundTrip(number, row, Sent(later, Next(number)) + rest);
      ReadRowsBack(rows[1..], status, deprecate, Next(number), rest);
    }
  }

  lemma NothingSent(number: Byte)
    ensures Sent([], Next(number)) == []
  {
  }

  /** The client takes status and warnings from the right bytes. */
  lemma EndingBack(status: nat, deprecate: bool)
    ensures ReadEnding(Terminator(status, deprecate), deprecate) == Some(Ended(status))
    ensures ReadEnding(Eof(status), false) == Some(Ended(status))
  {
    TwoBytes(status);
    TwoBytes(0);
    var s, none := Le(status, 2), Le(0, 2);
    assert Eof(status)[1..3] == none && Eof(status)[3..] == s;
    if deprecate {
      var payload := EofAsOk(status);
      assert LenEncInt(0) == [0];
      hide Le, FromLe, ReadLenEncInt, LenEncInt;
      assert payload[1..] == [0] + ([0] + (s + none));
      LenEncRoundTrip(0, [0] + (s + none));
      assert payload[1..][1..] == [0] + (s + none);
      LenEncRoundTrip(0, s + none);
      assert payload[1..][1..][1..] == s + none;
      assert (s + none)[..2] == s && (s + none)[2..] == none;
    }
  }

  /** The low sixteen bits. */
  lemma TwoBytes(n: nat)
    ensures FromLe(Le(n, 2)) == n % 0x1_0000
  {
    var m := n / 0x100;
    assert Le(m, 1) == [m % 0x100] + Le(m / 0x100, 0);
    assert FromLe([m % 0x100]) == m % 0x100;
    assert Le(n, 2)[1..] == [m % 0x100];
    assert n == 0x1_0000 * (m / 0x100) + (n % 0x100 + 0x100 * (m % 0x100));
  }

  lemma TerminatorOnePacket(status: nat, deprecate: bool)
    ensures OnePacket(Terminator(status, deprecate)) && OnePacket(Eof(status)) && IsTerminator(Eof(status), false)
    ensures IsTerminator(Terminator(status, deprecate), deprecate)
    ensures Sendable(Terminator(status, deprecate)) && Sendable(Eof(status))
  {
  }

  /** Payloads that leave room in their length fields are all read back. */
  lemma ShortStreamBack(columns: seq<Bytes>, rows: seq<Bytes>, status: nat, deprecate: bool, number: Byte, rest: Bytes)
    requires 0 < |columns| < TWO_TO_64 && AllOnePacket(columns)
    requires AllOnePacket(rows) && AllRowLike(rows)
    ensures var payloads := Payloads(columns, rows, status, deprecate);
            ReadResult(Sent(payloads, number) + rest, number, deprecate)
              == Some(Result(columns, rows, Ended(status), rest, After(number, |payloads|)))
  {
    hide Sent, Receive, ReadMany, ReadRows, ReadAfterColumns, LenEncInt, Eof, Terminator, IsTerminator, Frame, RowLike, After, Next,
         AllOnePacket, AllRowLike, OnePacket;
    var count := LenEncInt(|columns|);
    var middle: seq<Bytes> := if deprecate then [] else [Eof(status)];
    var tail := rows + [Terminator(status, deprecate)];
    var n1 := Next(number);
    var n2 := After(n1, |columns|);
    var body := Sent(middle + tail, n2) + rest;
    CountOnePacket(|columns|);
    AnnouncedThen(columns, middle + tail, number, rest);
    FrameRoundTrip(number, count, Sent(columns, n1) + body);
    assert count + [] == count;
    LenEncRoundTrip(|columns|, []);
    ReadManyBack(columns, n1, body);
    BodyBack(columns, rows, status, deprecate, n2, rest);
    Numbers(number, |columns|, |rows|, deprecate);
  }

  /** The column count, the columns, and what follows them. */
  lemma AnnouncedThen(columns: seq<Bytes>, later: seq<Bytes>, number: Byte, rest: Bytes)
    requires |columns| < TWO_TO_64 && AllOnePacket(columns)
    ensures var count, n1 := LenEncInt(|columns|), Next(number);
            Sent([count] + (columns + later), number) + rest ==
              Frame(number, count) + (Sent(columns, n1) + (Sent(later, After(n1, |columns|)) + rest))
  {
    CountOnePacket(|columns|);
    hide Sent, LenEncInt, Frame, After, Next;
    var count, n1 := LenEncInt(|columns|), Next(number);
    SentCons(count, columns + later, number);
    SentAppend(columns, later, n1);
    Regroup(Frame(number, count), Sent(columns, n1) + Sent(later, After(n1, |columns|)), rest);
    Regroup(Sent(columns, n1), Sent(later, After(n1, |columns|)), rest);
  }

  lemma CountOnePacket(n: nat)
    ensures OnePacket(LenEncInt(n)) && Sendable(LenEncInt(n))
  {
  }

  lemma BodyBack(columns: seq<Bytes>, rows: seq<Bytes>, status: nat, deprecate: bool, number: Byte, rest: Bytes)
    requires AllOnePacket(rows) && AllRowLike(rows)
    ensures var middle: seq<Bytes> := if deprecate then [] else [Eof(status)];
            var body := Sent(middle + (rows + [Terminator(status, deprecate)]), number) + rest;
            ReadAfterColumns(Batch(columns, [], body, number), deprecate)
              == Some(Result(columns, rows, Ended(status), rest, After(if deprecate then number else Next(number), |rows| + 1)))
  {
    hide Sent, ReadAfterColumns, Eof, Terminator, After, Next;
    var tail := rows + [Terminator(status, deprecate)];
    if deprecate {
      assert [] + tail == tail;
      RowsNext(columns, rows, status, number, rest);
    } else {
      EofNext(columns, rows, status, number, rest);
    }
  }

  lemma RowsNext(columns: seq<Bytes>, rows: seq<Bytes>, status: nat, number: Byte, rest: Bytes)
    requires AllOnePacket(rows) && AllRowLike(rows)
    ensures ReadAfterColumns(Batch(columns, [], Sent(rows + [Terminator(status, true)], number) + rest, number), true)
              == Some(Result(columns, rows, Ended(status), rest, After(number, |rows| + 1)))
  {
    EndingBack(status, true);
    hide Sent, Receive, ReadRows, Terminator, After, ReadEnding;
    ReadRowsBack(rows, status, true, number, rest);
  }

  lemma EofNext(columns: seq<Bytes>, rows: seq<Bytes>, status: nat, number: Byte, rest: Bytes)
    requires AllOnePacket(rows) && AllRowLike(rows)
    ensures ReadAfterColumns(Batch(columns, [], Sent([Eof(status)] + (rows + [Terminator(status, false)]), number) + rest, number), false)
              == Some(Result(columns, rows, Ended(status), rest, After(Next(number), |rows| + 1)))
  {
    EndingBack(status, false);
    hide Sent, Receive, ReadRows, Eof, Terminator, IsTerminator, Frame, OnePacket, Sendable, AllOnePacket, After, ReadEnding;
    var tail := rows + [Terminator(status, false)];
    var later := Sent(tail, Next(number));
    TerminatorOnePacket(status, false);
    SentCons(Eof(status), tail, number);
    Regroup(Frame(number, Eof(status)), later, rest);
    FrameRoundTrip(number, Eof(status), later + rest);
    ReadRowsBack(rows, status, false, Next(number), rest);
  }

  lemma Regroup(a: Bytes, b: Bytes, c: Bytes)
    ensures (a + b) + c == a + (b + c)
  {
  }

  lemma Numbers(number: Byte, columns: nat, rows: nat, deprecate: bool)
    ensures var n2 := After(Next(number), columns);
            After(if deprecate then n2 else Next(n2), rows + 1)
              == After(number, 1 + columns + (if deprecate then 0 else 1) + rows + 1)
  {
    Wraps(number + 1, columns);
    Wraps(number + 1 + columns, 1);
    Wraps(number + 1 + columns, rows + 1);
    Wraps(number + 1 + columns + 1, rows + 1);
  }

  // ---------------------------------------------------------------------------------------------
  // A full length field makes the client take two packets for one
  // ---------------------------------------------------------------------------------------------

  /** The payloads of the complete packets, as they stand on the wire. */
  function OnWire(input: Bytes): seq<Bytes>
    decreases |input|
  {
    var p := ReadPacket(input);
    if p.Incomplete? then [] else [p.payload] + OnWire(p.rest)
  }

  lemma {:induction false} SentOnWire(payloads: seq<Bytes>, number: Byte, rest: Bytes)
    requires AllSendable(payloads)
    ensures OnWire(Sent(payloads, number) + rest) == payloads + OnWire(rest)
  {
    hide Frame, ReadPacket, Sendable;
    if payloads == [] {
      assert [] + rest == rest && [] + OnWire(rest) == OnWire(rest);
    } else {
      var later := Sent(payloads[1..], Next(number));
      assert Sendable(payloads[0]) && payloads == [payloads[0]] + payloads[1..];
      assert Sent(payloads, number) + rest == Frame(number, payloads[0]) + (later + rest);
      ReadPacketBack(number, payloads[0], later + rest);
      SentOnWire(payloads[1..], Next(number), rest);
      assert [payloads[0]] + (payloads[1..] + OnWire(rest)) == payloads + OnWire(rest);
    }
  }

  /** From `input` to `rest` lie at least n packets, and if there are exactly n none of them is full. */
  predicate Uses(input: Bytes, rest: Bytes, n: nat) {
    var a, b := OnWire(input), OnWire(rest);
    |a| >= |b| + n && (|a| == |b| + n ==> a[n..] == b && AllOnePacket(a[..n]))
  }

  lemma {:induction false} ReceiveUses(input: Bytes, number: Byte)
    requires Receive(input, number).Receipt?
    ensures Uses(input, Receive(input, number).rest, 1)
    decreases |input|
  {
    hide ReadPacket;
    var p := ReadPacket(input);
    assert OnWire(input)[1..] == OnWire(p.rest) && OnWire(input)[..1] == [p.payload];
    if !OnePacket(p.payload) {
      ReceiveUses(p.rest, Next(number));
    }
  }

  lemma UsesThen(a: Bytes, b: Bytes, c: Bytes, m: nat, n: nat)
    requires Uses(a, b, m) && Uses(b, c, n)
    ensures Uses(a, c, m + n)
  {
    hide OnWire;
    var x, y := OnWire(a), OnWire(b);
    if |x| == |OnWire(c)| + m + n {
      assert x[m + n..] == x[m..][n..];
      assert x[..m + n] == x[..m] + x[m..][..n];
    }
  }

  lemma {:induction false} ReadManyUses(input: Bytes, number: Byte, count: nat)
    ensures var r := ReadMany(input, number, count);
            r.Some? ==> |r.value.payloads| == count && Uses(input, r.value.rest, count)
    decreases count
  {
    hide OnWire, Receive;
    if count == 0 {
      assert OnWire(input)[0..] == OnWire(input) && OnWire(input)[..0] == [];
    } else if ReadMany(input, number, count).Some? {
      var p := Receive(input, number);
      ReceiveUses(input, number);
      ReadManyUses(p.rest, p.number, count - 1);
      UsesThen(input, p.rest, ReadMany(input, number, count).value.rest, 1, count - 1);
    }
  }

  lemma {:induction false} ReadRowsUses(input: Bytes, number: Byte, deprecate: bool)
    ensures var r := ReadRows(input, number, deprecate);
            r.Some? ==> Uses(input, r.value.rest, |r.value.payloads| + 1)
    decreases |input|
  {
    hide Uses, Receive, IsTerminator;
    if ReadRows(input, number, deprecate).Some? {
      var p := Receive(input, number);
      ReceiveUses(input, number);
      if !IsTerminator(p.payload, deprecate) {
        ReadRowsUses(p.rest, p.number, deprecate);
        var later := ReadRows(p.rest, p.number, deprecate).value;
        UsesThen(input, p.rest, later.rest, 1, |later.payloads| + 1);
      }
    }
  }

  /** Packets of a result set of that many columns and rows. */
  function PacketCount(columns: nat, rows: nat, deprecate: bool): nat {
    1 + columns + (if deprecate then 0 else 1) + rows + 1
  }

  lemma ReadResultUses(input: Bytes, number: Byte, deprecate: bool)
    ensures var r := ReadResult(input, number, deprecate);
            r.Some? ==> Uses(input, r.value.rest, PacketCount(|r.value.columns|, |r.value.rows|, deprecate))
  {
    hide Uses, Receive, ReadMany, ReadRows, ReadLenEncInt, IsTerminator, ReadEnding;
    var r := ReadResult(input, number, deprecate);
    if r.Some? {
      var first := Receive(input, number);
      var count := ReadLenEncInt(first.payload).n;
      var columns := ReadMany(first.rest, first.number, count).value;
      ReceiveUses(input, number);
      ReadManyUses(first.rest, first.number, count);
      UsesThen(input, first.rest, columns.rest, 1, count);
      if deprecate {
        ReadRowsUses(columns.rest, columns.number, deprecate);
        UsesThen(input, columns.rest, r.value.rest, 1 + count, |r.value.rows| + 1);
      } else {
        var eof := Receive(columns.rest, columns.number);
        ReceiveUses(columns.rest, columns.number);
        UsesThen(input, columns.rest, eof.rest, 1 + count, 1);
        ReadRowsUses(eof.rest, eof.number, deprecate);
        UsesThen(input, eof.rest, r.value.rest, 2 + count, |r.value.rows| + 1);
      }
    }
  }

  /** A result set of as many columns and rows, up to the same place, was read without a full packet. */
  predicate SameShape(r: Option<Result>, columns: nat, rows: nat, rest: Bytes) {
    r.Some? && |r.value.columns| == columns && |r.value.rows| == rows && r.value.rest == rest
  }

  lemma SameShapeIsOnePacket(columns: seq<Bytes>, rows: seq<Bytes>, status: nat, deprecate: bool, number: Byte, rest: Bytes)
    requires 0 < |columns| < TWO_TO_64 && AllSendable(Payloads(columns, rows, status, deprecate))
    requires var payloads := Payloads(columns, rows, status, deprecate);
             SameShape(ReadResult(Sent(payloads, number) + rest, number, deprecate), |columns|, |rows|, rest)
    ensures AllOnePacket(columns) && AllOnePacket(rows)
  {
    hide ReadResult, Sent, OnWire, Eof, Terminator, LenEncInt, OnePacket, Sendable;
    var payloads := Payloads(columns, rows, status, deprecate);
    var input := Sent(payloads, number) + rest;
    ReadResultUses(input, number, deprecate);
    SentOnWire(payloads, number, rest);
    var n := PacketCount(|columns|, |rows|, deprecate);
    assert |payloads| == n && OnWire(input)[..n] == payloads;
    forall p | p in columns
      ensures OnePacket(p)
    {
      assert p in payloads;
    }
    forall p | p in rows
      ensures OnePacket(p)
    {
      assert p in payloads;
    }
  }

  lemma PayloadsSendable(columns: seq<Bytes>, rows: seq<Bytes>, status: nat, deprecate: bool)
    requires |columns| < TWO_TO_64 && AllSendable(columns) && AllSendable(rows)
    ensures AllSendable(Payloads(columns, rows, status, deprecate))
  {
    CountOnePacket(|columns|);
    TerminatorOnePacket(status, deprecate);
    hide LenEncInt, Eof, Terminator;
  }

  /**
   * A client that reads a result set gets exactly the column and row packets that were written, with
   * consecutive numbers modulo 256, and stops where the stream ends, whatever follows it - exactly
   * when no column or row packet has the full length of 2^24 - 1 bytes.
   */
  lemma StreamRecoverable(columns: seq<Bytes>, rows: seq<Bytes>, status: nat, deprecate: bool, number: Byte, rest: Bytes)
    requires 0 < |columns| < TWO_TO_64 && AllSendable(columns)
    requires AllSendable(rows) && AllRowLike(rows)
    ensures var payloads := Payloads(columns, rows, status, deprecate);
            AllSendable(payloads) &&
            (ReadResult(Sent(payloads, number) + rest, number, deprecate)
               == Some(Result(columns, rows, Ended(status), rest, After(number, |payloads|)))
             <==> AllOnePacket(columns) && AllOnePacket(rows))
  {
    hide ReadResult, Sent, Payloads, AllOnePacket, AllSendable, AllRowLike, After;
    PayloadsSendable(columns, rows, status, deprecate);
    var payloads := Payloads(columns, rows, status, deprecate);
    if AllOnePacket(columns) && AllOnePacket(rows) {
      ShortStreamBack(columns, rows, status, deprecate, number, rest);
    } else if ReadResult(Sent(payloads, number) + rest, number, deprecate) == Some(Result(columns, rows, Ended(status), rest, After(number, |payloads|))) {
      SameShapeIsOnePacket(columns, rows, status, deprecate, number, rest);
      assert false;
    }
  }

  // ---------------------------------------------------------------------------------------------
  // Column definitions
  // ---------------------------------------------------------------------------------------------

  /** Skips one length-encoded string and gives it with what follows. */
  function TakeString(data: Bytes): Option<(Bytes, Bytes)> {
    var r := ReadLenEncBytes(data);
    if r.NoBytes? then None else Some((r.value, data[r.size..]))
  }

  /** A column as the client learns of it. */
  datatype Definition = Definition(catalog: Bytes, schema: Bytes, table: Bytes, orgTable: Bytes, name: Bytes, orgName: Bytes,
                                   charset: nat, length: nat, fieldType: Byte, flags: nat, decimals: nat)

  /** That many length-encoded strings, and what follows them. */
  function TakeStrings(data: Bytes, count: nat): Option<(seq<Bytes>, Bytes)> {
    if count == 0 then Some(([], data))
    else
      var s := TakeString(data);
      if s.None? then None
      else
        var later := TakeStrings(s.value.1, count - 1);
        if later.None? then None else Some(([s.value.0] + later.value.0, later.value.1))
  }

  /** Six strings, the length of the rest, and the fields of fixed length. */
  function ReadColumn(data: Bytes): Option<Definition> {
    var s := TakeStrings(data, 6);
    if s.None? || |s.value.0| != 6 || |s.value.1| != 13 || s.value.1[0] != 0x0c then None
    else
      var t, b := s.value.0, s.value.1;
      Some(Definition(t[0], t[1], t[2], t[3], t[4], t[5], FromLe(b[1..3]), FromLe(b[3..7]), b[7], FromLe(b[8..10]), b[10]))
  }

  /** The catalog is "def"; strings and blobs are utf8mb4 text (45), everything else is binary (63). */
  function Described(schema: Bytes, column: Column): Definition {
    var text := column.fieldType in [0xfd, 0xfc];
    Definition([0x64, 0x65, 0x66], schema, [], [], column.name, column.name, if text then 45 else 63, 1024, column.fieldType, 0, 0)
  }

  /** One string off the front. */
  lemma TakeBack(value: Bytes, rest: Bytes, count: nat)
    requires |value| < TWO_TO_64
    ensures var later := TakeStrings(rest, count);
            TakeStrings(LenEncBytes(value) + rest, count + 1) ==
              if later.None? then None else Some(([value] + later.value.0, later.value.1))
  {
    hide LenEncBytes, ReadLenEncBytes;
    LenEncBytesRoundTrip(value, rest);
    assert (LenEncBytes(value) + rest)[|LenEncBytes(value)|..] == rest;
  }

  /** A client learns the catalog, the schema, the name twice, the character set, the length and the type. */
  lemma ColumnRoundTrip(schema: Bytes, column: Column)
    requires |schema| < TWO_TO_64 && |column.name| < TWO_TO_64
    ensures ReadColumn(ColumnDefinition(schema, column)) == Some(Described(schema, column))
  {
    FixedRead(column.fieldType);
    hide LenEncBytes, TakeString, TakeStrings, Fixed;
    var t6 := Fixed(column.fieldType);
    var t5 := LenEncBytes(column.name) + t6;
    var t4 := LenEncBytes(column.name) + t5;
    var t3 := LenEncBytes([]) + t4;
    var t2 := LenEncBytes([]) + t3;
    var t1 := LenEncBytes(schema) + t2;
    assert TakeStrings(t6, 0) == Some(([], t6)) by { NoStrings(t6); }
    TakeBack(column.name, t6, 0);
    TakeBack(column.name, t5, 1);
    TakeBack([], t4, 2);
    TakeBack([], t3, 3);
    TakeBack(schema, t2, 4);
    TakeBack(CATALOG, t1, 5);
    assert [CATALOG] + ([schema] + ([[]] + ([[]] + ([column.name] + ([column.name] + []))))) ==
           [CATALOG, schema, [], [], column.name, column.name];
  }

  lemma NoStrings(data: Bytes)
    ensures TakeStrings(data, 0) == Some(([], data))
  {
  }

  lemma FixedRead(fieldType: Byte)
    ensures var b := Fixed(fieldType);
            && b[0] == 0x0c && FromLe(b[1..3]) == (if fieldType in [0xfd, 0xfc] then 45 else 63) && FromLe(b[3..7]) == 1024
            && b[7] == fieldType && FromLe(b[8..10]) == 0 && b[10] == 0
  {
    var b := Fixed(fieldType);
    LeRoundTrip(Charset(fieldType), 2);
    LeRoundTrip(1024, 4);
    assert b[1..3] == Le(Charset(fieldType), 2);
    assert b[3..7] == Le(1024, 4);
    assert b[8..10] == [0, 0] && [0, 0][1..] == [0] && [0][1..] == [];
    assert FromLe([0]) == 0;
  }

  // ---------------------------------------------------------------------------------------------
  // Whole result sets
  // ---------------------------------------------------------------------------------------------

  function Definitions(schema: Bytes, columns: seq<Column>): (d: seq<Bytes>)
    ensures |d| == |columns|
  {
    seq(|columns|, i requires 0 <= i < |columns| => ColumnDefinition(schema, columns[i]))
  }

  function TextRows(rows: seq<seq<Option<Bytes>>>): (r: seq<Bytes>)
    ensures |r| == |rows|
  {
    seq(|rows|, i requires 0 <= i < |rows| => TextRow(rows[i]))
  }

  /** What both kinds of result sets share: columns and row packets come back if and only if no packet is full. */
  lemma ResultRecovered(schema: Bytes, columns: seq<Column>, rows: seq<Bytes>, status: nat, deprecate: bool, number: Byte,
                        rest: Bytes)
    requires 0 < |columns| < TWO_TO_64 && |schema| < TWO_TO_64 && forall c :: c in columns ==> |c.name| < TWO_TO_64
    requires AllRowLike(rows) && AllSendable(Payloads(Definitions(schema, columns), rows, status, deprecate))
    ensures var definitions := Definitions(schema, columns);
            var r := ReadResult(Sent(Payloads(definitions, rows, status, deprecate), number) + rest, number, deprecate);
            if AllOnePacket(definitions) && AllOnePacket(rows)
            then SameShape(r, |columns|, |rows|, rest) && r.value.rows == rows && r.value.ending == Ended(status) &&
                 forall i :: 0 <= i < |columns| ==> ReadColumn(r.value.columns[i]) == Some(Described(schema, columns[i]))
            else !SameShape(r, |columns|, |rows|, rest)
  {
    hide ReadResult, Sent, ReadColumn, ColumnDefinition, Eof, Terminator, LenEncInt, Sendable, OnePacket, RowLike;
    var definitions := Definitions(schema, columns);
    var payloads := Payloads(definitions, rows, status, deprecate);
    assert forall p :: p in definitions || p in rows ==> p in payloads;
    StreamRecoverable(definitions, rows, status, deprecate, number, rest);
    if SameShape(ReadResult(Sent(payloads, number) + rest, number, deprecate), |columns|, |rows|, rest) {
      SameShapeIsOnePacket(definitions, rows, status, deprecate, number, rest);
    }
    forall i | 0 <= i < |columns|
      ensures ReadColumn(definitions[i]) == Some(Described(schema, columns[i]))
    {
      assert columns[i] in columns;
      ColumnRoundTrip(schema, columns[i]);
    }
  }

  /**
   * A text result set the writer takes is read back - the same names and types, the same rows, cell
   * for cell, and nothing of what follows - exactly when no packet is full.
   */
  lemma TextResultRecovered(schema: Bytes, columns: seq<Column>, rows: seq<seq<Option<Bytes>>>, status: nat,
                            deprecate: bool, number: Byte, rest: Bytes)
    requires 0 < |columns| < TWO_TO_64 && |schema| < TWO_TO_64 && forall c :: c in columns ==> |c.name| < TWO_TO_64
    requires forall row :: row in rows ==> |row| == |columns| && ShortCells(row)
    requires AllSendable(Payloads(Definitions(schema, columns), TextRows(rows), status, deprecate))
    ensures var definitions, texts := Definitions(schema, columns), TextRows(rows);
            var r := ReadResult(Sent(Payloads(definitions, texts, status, deprecate), number) + rest, number, deprecate);
            (&& SameShape(r, |columns|, |rows|, rest) && r.value.ending == Ended(status)
             && (forall i :: 0 <= i < |columns| ==> ReadColumn(r.value.columns[i]) == Some(Described(schema, columns[i])))
             && (forall i :: 0 <= i < |rows| ==> ReadTextRow(r.value.rows[i], |columns|) == Some(rows[i])))
            <==> AllOnePacket(definitions) && AllOnePacket(texts)
  {
    hide ReadResult, Sent, ReadColumn, ReadTextRow, ColumnDefinition, TextRow, Eof, Terminator, LenEncInt, Sendable, ShortCells;
    var texts := TextRows(rows);
    var payloads := Payloads(Definitions(schema, columns), texts, status, deprecate);
    forall p | p in texts
      ensures RowLike(p)
    {
      assert p in payloads;
      var i :| 0 <= i < |rows| && p == texts[i];
      assert rows[i] in rows;
      TextRowIsRowLike(rows[i]);
    }
    ResultRecovered(schema, columns, texts, status, deprecate, number, rest);
    forall i | 0 <= i < |rows|
      ensures ReadTextRow(texts[i], |columns|) == Some(rows[i])
    {
      assert rows[i] in rows;
      TextRowRoundTrip(rows[i]);
    }
  }

  function Types(columns: seq<Column>): (t: seq<Byte>)
    ensures |t| == |columns|
  {
    seq(|columns|, i requires 0 <= i < |columns| => columns[i].fieldType)
  }

  function BinaryRows(rows: seq<seq<Cell>>, types: seq<Byte>): (r: seq<Bytes>)
    requires forall row :: row in rows ==> RowFits(row, types)
    ensures |r| == |rows|
  {
    seq(|rows|, i requires 0 <= i < |rows| => (assert rows[i] in rows; BinaryRow(rows[i], types)))
  }

  /**
   * A binary result set the writer takes is read back by the types its columns announce, value for
   * value, exactly when no packet is full and every integer fits its column.
   */
  lemma BinaryResultRecovered(schema: Bytes, columns: seq<Column>, rows: seq<seq<Cell>>, status: nat, deprecate: bool,
                              number: Byte, rest: Bytes)
    requires 0 < |columns| < TWO_TO_64 && |schema| < TWO_TO_64 && forall c :: c in columns ==> |c.name| < TWO_TO_64
    requires forall c :: c in columns ==> Readable(c.fieldType)
    requires forall row :: row in rows ==> RowFits(row, Types(columns))
    requires AllSendable(Payloads(Definitions(schema, columns), BinaryRows(rows, Types(columns)), status, deprecate))
    ensures var types := Types(columns);
            var definitions, packets := Definitions(schema, columns), BinaryRows(rows, types);
            var r := ReadResult(Sent(Payloads(definitions, packets, status, deprecate), number) + rest, number, deprecate);
            (&& SameShape(r, |columns|, |rows|, rest) && r.value.ending == Ended(status)
             && (forall i :: 0 <= i < |columns| ==> ReadColumn(r.value.columns[i]) == Some(Described(schema, columns[i])))
             && (forall i :: 0 <= i < |rows| ==> |rows[i]| == |types| && ReadBinaryRow(r.value.rows[i], types) == Some(Row(rows[i], types, 0))))
            <==> AllOnePacket(definitions) && AllOnePacket(packets) && forall i :: 0 <= i < |rows| ==> |rows[i]| == |types| && IntsFit(rows[i], types)
  {
    hide ReadResult, Sent, ReadColumn, ReadBinaryRow, ColumnDefinition, BinaryRow, Eof, Terminator, LenEncInt, Sendable, IntsFit, Row,
         CellFits, Readable;
    var types := Types(columns);
    var packets := BinaryRows(rows, types);
    forall i | 0 <= i < |rows|
      ensures |rows[i]| == |types| && RowLike(packets[i])
      ensures ReadBinaryRow(packets[i], types) == Some(Row(rows[i], types, 0)) <==> IntsFit(rows[i], types)
    {
      assert rows[i] in rows;
      BinaryRowIsRowLike(rows[i], types);
      TypesReadable(columns);
      BinaryRowRoundTrip(rows[i], types);
    }
    ResultRecovered(schema, columns, packets, status, deprecate, number, rest);
  }

  lemma TypesReadable(columns: seq<Column>)
    requires forall c :: c in columns ==> Readable(c.fieldType)
    ensures forall t :: t in Types(columns) ==> Readable(t)
  {
    hide Readable;
    forall i | 0 <= i < |columns|
      ensures Readable(Types(columns)[i])
    {
      assert columns[i] in columns;
    }
  }
}
