/**
 * The result-set writers as they loop: rows built cell by cell, packets written one by one with a
 * sequence number that wraps around (pkg/mysqlmock/protocol_codec.go, binaryRow in
 * pkg/mysqlmock/prepared.go).
 */
module ResultSetWriters {
  import opened Options
  import opened Integers
  import opened WireBytes
  import opened PreparedValues
  import opened Packets
  import opened ResultSets
  import opened ResultStreams

  method BuildTextRow(cells: seq<Option<Bytes>>) returns (payload: Bytes)
    ensures payload == TextRow(cells)
  {
    hide TextRow, LenEncInt;
    payload := [];
    assert cells[0..] == cells;
    for i := 0 to |cells|
      invariant TextRow(cells) == payload + TextRow(cells[i..])
    {
      TextRowStep(cells, i);
      if cells[i].None? {
        CellNext(payload, [0xfb], TextRow(cells[i + 1..]));
        payload := payload + [0xfb];
        continue;
      }
      CellNext(payload, LenEncBytes(cells[i].value), TextRow(cells[i + 1..]));
      var value := cells[i].value;
      var head := AppendLenEncInt([], |value|);
      assert [] + LenEncInt(|value|) == LenEncInt(|value|);
      payload := payload + (head + value);
    }
    TextRowNothing(cells);
    assert payload + [] == payload;
  }

  lemma TextRowStep(cells: seq<Option<Bytes>>, i: nat)
    requires i < |cells|
    ensures TextRow(cells[i..]) ==
              (if cells[i].None? then [0xfb] else LenEncBytes(cells[i].value)) + TextRow(cells[i + 1..])
  {
    hide LenEncBytes;
    assert cells[i..][1..] == cells[i + 1..];
  }

  lemma TextRowNothing(cells: seq<Option<Bytes>>)
    ensures TextRow(cells[|cells|..]) == []
  {
  }

  lemma CellNext(payload: Bytes, cell: Bytes, later: Bytes)
    ensures payload + (cell + later) == (payload + cell) + later
  {
  }

  // ---------------------------------------------------------------------------------------------
  // Setting the bits of a null map
  // ---------------------------------------------------------------------------------------------

  lemma {:induction false} PackSet(bits: seq<bool>, k: nat)
    requires k < |bits| && !bits[k]
    ensures Pack(bits[k := true]) == Pack(bits) + Pow2(k)
    decreases k
  {
    if k == 0 {
      assert bits[0 := true][1..] == bits[1..];
    } else {
      assert bits[k := true][1..] == bits[1..][k - 1 := true];
      PackSet(bits[1..], k - 1);
    }
  }

  lemma PackByteSet(bits: seq<bool>, k: nat)
    requires |bits| <= 8 && k < |bits| && !bits[k]
    ensures PackByte(bits) + Pow2(k) < 0x100 && PackByte(bits[k := true]) == PackByte(bits) + Pow2(k)
  {
    PackSet(bits, k);
    assert PackByte(bits[k := true]) < 0x100;
  }

  /** Setting bit i of a bit map adds 2^(i % 8) to byte i / 8 and leaves the others alone. */
  lemma {:induction false} BitMapSet(bits: seq<bool>, i: nat)
    requires i < |bits| && !bits[i]
    ensures BitMap(bits)[i / 8] + Pow2(i % 8) < 0x100
    ensures BitMap(bits[i := true]) == BitMap(bits)[i / 8 := BitMap(bits)[i / 8] + Pow2(i % 8)]
  {
    hide Pow2, PackByte;
    var changed := bits[i := true];
    if |bits| <= 8 {
      PackByteSet(bits, i);
    } else if i < 8 {
      assert changed[..8] == bits[..8][i := true] && changed[8..] == bits[8..];
      PackByteSet(bits[..8], i);
      assert i / 8 == 0 && i % 8 == i;
    } else {
      assert changed[..8] == bits[..8] && changed[8..] == bits[8..][i - 8 := true];
      BitMapSet(bits[8..], i - 8);
      assert i / 8 == 1 + (i - 8) / 8 && i % 8 == (i - 8) % 8;
      SetBehind(PackByte(bits[..8]), BitMap(bits[8..]), (i - 8) / 8, Pow2(i % 8));
    }
  }

  lemma SetBehind(first: Byte, later: Bytes, j: nat, p: nat)
    requires j < |later| && later[j] + p < 0x100
    ensures [first] + later[j := later[j] + p] == ([first] + later)[1 + j := ([first] + later)[1 + j] + p]
  {
  }

  /** An empty null map is all zero bytes. */
  lemma {:induction false} BitMapEmpty(bits: seq<bool>)
    requires forall i :: 0 <= i < |bits| ==> !bits[i]
    ensures forall j :: 0 <= j < |BitMap(bits)| ==> BitMap(bits)[j] == 0
  {
    if |bits| > 8 {
      PackEmpty(bits[..8]);
      BitMapEmpty(bits[8..]);
    } else {
      PackEmpty(bits);
    }
  }

  lemma {:induction false} PackEmpty(bits: seq<bool>)
    requires forall i :: 0 <= i < |bits| ==> !bits[i]
    ensures Pack(bits) == 0
  {
    if bits != [] {
      PackEmpty(bits[1..]);
    }
  }

  /** The null bits of the first `n` columns only. */
  function NullBitsUpTo(cells: seq<Cell>, n: nat): (bits: seq<bool>)
    requires n <= |cells|
    ensures |bits| == |cells| + 2
  {
    seq(|cells| + 2, i requires 0 <= i < |cells| + 2 => 2 <= i < n + 2 && cells[i - 2].NullCell?)
  }

  lemma NullBitsStep(cells: seq<Cell>, n: nat)
    requires n < |cells|
    ensures NullBitsUpTo(cells, n + 1) ==
              if cells[n].NullCell? then NullBitsUpTo(cells, n)[n + 2 := true] else NullBitsUpTo(cells, n)
    ensures !NullBitsUpTo(cells, n)[n + 2]
  {
  }

  /** `b |= 1 << k`, when that bit is still clear. */
  function SetBit(bitmap: Bytes, i: nat): Bytes
    requires i / 8 < |bitmap| && bitmap[i / 8] + Pow2(i % 8) < 0x100
  {
    bitmap[i / 8 := bitmap[i / 8] + Pow2(i % 8)]
  }

  /** binaryRow: the null map is filled in behind the header while the values are appended. */
  method BuildBinaryRow(cells: seq<Cell>, types: seq<Byte>) returns (payload: Bytes)
    requires RowFits(cells, types)
    ensures payload == BinaryRow(cells, types)
  {
    hide BitMap, BinaryValue, CellFits, RowValues;
    var nullLen := (|cells| + 7 + 2) / 8;
    var bitmap: Bytes := seq(nullLen, i => 0);
    var values: Bytes := [];
    BitMapEmpty(NullBitsUpTo(cells, 0));
    assert bitmap == BitMap(NullBitsUpTo(cells, 0));
    for i := 0 to |cells|
      invariant bitmap == BitMap(NullBitsUpTo(cells, i))
      invariant RowValues(cells, types, 0) == values + RowValues(cells, types, i)
    {
      NullBitsStep(cells, i);
      RowValuesStep(cells, types, i, values);
      if cells[i].NullCell? {
        BitMapSet(NullBitsUpTo(cells, i), i + 2);
        bitmap := SetBit(bitmap, i + 2);
        continue;
      }
      values := values + BinaryValue(cells[i], types[i]);
    }
    assert NullBitsUpTo(cells, |cells|) == NullBits(cells);
    RowValuesEnd(cells, types, values);
    payload := [0] + (bitmap + values);
  }

  lemma RowValuesStep(cells: seq<Cell>, types: seq<Byte>, i: nat, head: Bytes)
    requires RowFits(cells, types) && i < |cells|
    ensures head + RowValues(cells, types, i) ==
              (if cells[i].NullCell? then head else head + BinaryValue(cells[i], types[i])) + RowValues(cells, types, i + 1)
  {
    hide BinaryValue, CellFits;
  }

  lemma RowValuesEnd(cells: seq<Cell>, types: seq<Byte>, head: Bytes)
    requires RowFits(cells, types)
    ensures head + RowValues(cells, types, |cells|) == head
  {
  }

  // ---------------------------------------------------------------------------------------------
  // Writing the packets
  // ---------------------------------------------------------------------------------------------

  lemma SentFrom(payloads: seq<Bytes>, k: nat, number: Byte)
    requires k < |payloads|
    ensures Sent(payloads[k..], number) ==
              if Sendable(payloads[k]) then Frame(number, payloads[k]) + Sent(payloads[k + 1..], Next(number)) else []
  {
    assert payloads[k..][1..] == payloads[k + 1..];
  }

  lemma SentEnd(payloads: seq<Bytes>, number: Byte)
    ensures Sent(payloads[|payloads|..], number) == []
  {
  }

  /** One packet of a list; the number of the next one wraps around. */
  method WriteNext(w: PacketWriter, number: Byte, ghost all: seq<Bytes>, ghost k: nat, payload: Bytes, ghost goal: Bytes)
    returns (next: Byte, ok: bool)
    requires w.Valid() && k < |all| && payload == all[k]
    requires goal == w.written + Sent(all[k..], number)
    modifies w, w.packetBuf
    ensures w.Valid() && (w.packetBuf == old(w.packetBuf) || fresh(w.packetBuf))
    ensures ok <==> Sendable(payload)
    ensures ok ==> next == Next(number) && goal == w.written + Sent(all[k + 1..], next)
    ensures !ok ==> w.written == goal
  {
    hide Frame, Sendable, Sent;
    SentFrom(all, k, number);
    ok := w.WritePacket(number, payload);
    next := Next(number);
    ghost var tail := Sent(all[k + 1..], next);
    if ok {
      assert goal == old(w.written) + (Frame(number, payload) + tail);
    } else {
      assert goal == old(w.written) + [];
    }
  }

  /** Every packet goes out in turn; the first one refused ends the result set there. */
  method WriteAll(w: PacketWriter, number: Byte, payloads: seq<Bytes>, ghost all: seq<Bytes>, ghost k: nat, ghost goal: Bytes)
    returns (next: Byte, ok: bool)
    requires w.Valid() && k + |payloads| <= |all| && payloads == all[k..k + |payloads|]
    requires goal == w.written + Sent(all[k..], number)
    modifies w, w.packetBuf
    ensures w.Valid() && (w.packetBuf == old(w.packetBuf) || fresh(w.packetBuf))
    ensures ok <==> AllSendable(payloads)
    ensures ok ==> goal == w.written + Sent(all[k + |payloads|..], next)
    ensures !ok ==> w.written == goal
  {
    hide Sent, Sendable;
    next := number;
    for i := 0 to |payloads|
      invariant w.Valid() && (w.packetBuf == old(w.packetBuf) || fresh(w.packetBuf))
      invariant forall j :: 0 <= j < i ==> Sendable(payloads[j])
      invariant goal == w.written + Sent(all[k + i..], next)
    {
      next, ok := WriteNext(w, next, all, k + i, payloads[i], goal);
      if !ok {
        assert payloads[i] in payloads;
        return;
      }
    }
    ok := true;
  }

  /**
   * writeResultSet and writeBinaryResultSet: what goes out is the packets of the result set up to
   * the first payload refused, and success means that none was.
   */
  method WriteResultSet(w: PacketWriter, number: Byte, columns: seq<Bytes>, rows: seq<Bytes>, status: nat, deprecate: bool)
    returns (ok: bool)
    requires w.Valid() && |columns| < TWO_TO_64
    modifies w, w.packetBuf
    ensures w.Valid()
    ensures w.written == old(w.written) + Sent(Payloads(columns, rows, status, deprecate), number)
    ensures ok <==> AllSendable(Payloads(columns, rows, status, deprecate))
  {
    hide Sent, Sendable, LenEncInt, Eof, EofAsOk, Payloads;
    ghost var all := Payloads(columns, rows, status, deprecate);
    ghost var goal := w.written + Sent(all, number);
    ghost var n, m := |columns|, if deprecate then 0 else 1;
    assert all[0..] == all;
    Layout(columns, rows, status, deprecate);
    CountOnePacket(|columns|);
    TerminatorOnePacket(status, deprecate);
    var seq0, ok0 := WriteNext(w, number, all, 0, LenEncInt(|columns|), goal);
    var seq1, ok1 := WriteAll(w, seq0, columns, all, 1, goal);
    if !ok1 {
      SomeRefused(columns, all, 1);
      return false;
    }
    if !deprecate {
      seq1, ok1 := WriteNext(w, seq1, all, 1 + n, Eof(status), goal);
    }
    var seq2, ok2 := WriteAll(w, seq1, rows, all, 1 + n + m, goal);
    if !ok2 {
      SomeRefused(rows, all, 1 + n + m);
      return false;
    }
    var seq3, ok3 := WriteNext(w, seq2, all, |all| - 1, Terminator(status, deprecate), goal);
    SentEnd(all, seq3);
    PayloadsSendable(columns, rows, status, deprecate);
    ok := true;
  }

  /** Where the parts of a result set are. */
  lemma Layout(columns: seq<Bytes>, rows: seq<Bytes>, status: nat, deprecate: bool)
    requires |columns| < TWO_TO_64
    ensures var all := Payloads(columns, rows, status, deprecate);
            var n, m := |columns|, if deprecate then 0 else 1;
            && |all| == 2 + n + m + |rows| && all[0] == LenEncInt(n)
            && all[1..1 + n] == columns && (!deprecate ==> all[1 + n] == Eof(status))
            && all[1 + n + m..1 + n + m + |rows|] == rows && all[|all| - 1] == Terminator(status, deprecate)
  {
    hide LenEncInt, Eof, EofAsOk, Terminator;
  }

  lemma SomeRefused(part: seq<Bytes>, all: seq<Bytes>, k: nat)
    requires k + |part| <= |all| && part == all[k..k + |part|] && !AllSendable(part)
    ensures !AllSendable(all)
  {
    var p :| p in part && !Sendable(p);
    assert p in all;
  }
}
