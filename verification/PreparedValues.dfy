/**
 * One parameter value of COM_STMT_EXECUTE (decodePreparedValue, decodeBinaryDateTime and
 * decodeBinaryTime in pkg/mysqlmock/prepared.go; the protocol page "Binary Protocol Value").
 *
 * `Wire` is what a client sends, `Encode` writes it as the protocol says, and the law is that the
 * decoder gives back what was meant.  Floats are bit patterns; a formatted text (a time, or an
 * unsigned integer above 2^63-1) is represented by the numbers it shows.
 */
module PreparedValues {
  import opened Options
  import opened Integers
  import opened WireBytes

  datatype ParamType = ParamType(fieldType: Byte, unsigned: bool)

  datatype Arg =
    | Null
    | Int64(n: int)
    | Digits(value: nat)
    | Float32(bits: nat)
    | Float64(bits: nat)
    | Text(text: Bytes)
    | Blob(blob: Bytes)
    | ZeroTime
    | DateTime(year: nat, month: nat, day: nat, hour: nat, minute: nat, second: nat, micro: nat)
    | TimeText(negative: bool, hours: nat, minutes: nat, seconds: nat, fraction: Option<nat>)

  datatype Decoded = Bad | Decoded(arg: Arg, size: nat)

  datatype Kind = NullKind | IntKind(width: nat) | FloatKind | DoubleKind | TextKind | BlobKind | DateKind | TimeKind | Unsupported

  /** The cases of the decoder's switch, by field type. */
  function KindOf(fieldType: Byte): (k: Kind)
    ensures k.IntKind? ==> k.width in {1, 2, 4, 8}
  {
    if fieldType == 0x06 then NullKind
    else if fieldType == 0x01 then IntKind(1)
    else if fieldType in {0x02, 0x0d} then IntKind(2)
    else if fieldType in {0x03, 0x09} then IntKind(4)
    else if fieldType == 0x08 then IntKind(8)
    else if fieldType == 0x04 then FloatKind
    else if fieldType == 0x05 then DoubleKind
    else if fieldType in {0x00, 0xf6, 0x0f, 0xfd, 0xfe, 0xf7, 0xf8} then TextKind
    else if fieldType in {0xfc, 0xf9, 0xfa, 0xfb, 0x10, 0xf5, 0xff} then BlobKind
    else if fieldType in {0x0a, 0x0e, 0x0c, 0x07} then DateKind
    else if fieldType == 0x0b then TimeKind
    else Unsupported
  }

  /** Two's complement of a value of k bytes. */
  function Signed(n: nat, k: nat): int {
    if 2 * n < Pow256(k) then n else n - Pow256(k)
  }

  function IntArg(n: nat, k: nat, unsigned: bool): Arg {
    if !unsigned then Int64(Signed(n, k)) else if n > MAX_INT64 then Digits(n) else Int64(n)
  }

  function DecodeValue(data: Bytes, typ: ParamType): (r: Decoded)
    ensures r.Decoded? ==> r.size <= |data|
  {
    match KindOf(typ.fieldType)
    case NullKind => Decoded(Null, 0)
    case IntKind(k) => if |data| < k then Bad else Decoded(IntArg(FromLe(data[..k]), k, typ.unsigned), k)
    case FloatKind => if |data| < 4 then Bad else Decoded(Float32(FromLe(data[..4])), 4)
    case DoubleKind => if |data| < 8 then Bad else Decoded(Float64(FromLe(data[..8])), 8)
    case TextKind =>
      var r := ReadLenEncBytes(data);
      if r.NoBytes? then Bad else Decoded(Text(r.value), r.size)
    case BlobKind =>
      var r := ReadLenEncBytes(data);
      if r.NoBytes? then Bad else Decoded(Blob(r.value), r.size)
    case DateKind => DecodeDateTime(data)
    case TimeKind => DecodeTime(data)
    case Unsupported => Bad
  }

  /** decodeBinaryDateTime, up to the calendar arithmetic of the Go library. */
  function DecodeDateTime(data: Bytes): (r: Decoded)
    ensures r.Decoded? ==> r.size <= |data|
  {
    if data == [] || |data| <= data[0] then Bad
    else
      var length: nat := data[0];
      if length == 0 then Decoded(ZeroTime, 1)
      else if length != 4 && length != 7 && length != 11 then Bad
      else
        Decoded(DateTime(FromLe(data[1..3]), data[3], data[4],
                         if length >= 7 then data[5] else 0, if length >= 7 then data[6] else 0,
                         if length >= 7 then data[7] else 0, if length == 11 then FromLe(data[8..12]) else 0),
                1 + length)
  }

  const TWO_TO_32: int := 0x1_0000_0000

  /** decodeBinaryTime: the hours are 32-bit arithmetic. */
  function DecodeTime(data: Bytes): (r: Decoded)
    ensures r.Decoded? ==> r.size <= |data|
  {
    if data == [] || |data| <= data[0] then Bad
    else
      var length: nat := data[0];
      if length == 0 then Decoded(TimeText(false, 0, 0, 0, None), 1)
      else if length != 8 && length != 12 then Bad
      else
        Decoded(TimeText(data[1] == 1, (data[6] + FromLe(data[2..6]) * 24) % TWO_TO_32, data[7], data[8],
                         if length == 12 then Some(FromLe(data[9..13])) else None),
                1 + length)
  }

  /** The decoder looks at nothing beyond what it consumes. */
  lemma DecodePrefix(data: Bytes, extra: Bytes, typ: ParamType)
    requires DecodeValue(data, typ).Decoded?
    ensures DecodeValue(data + extra, typ) == DecodeValue(data, typ)
  {
    var whole := data + extra;
    match KindOf(typ.fieldType)
    case IntKind(k) => assert whole[..k] == data[..k];
    case FloatKind => assert whole[..4] == data[..4];
    case DoubleKind => assert whole[..8] == data[..8];
    case TextKind => LenEncBytesPrefix(data, extra);
    case BlobKind => LenEncBytesPrefix(data, extra);
    case DateKind => DatePrefix(data, extra);
    case TimeKind => TimePrefix(data, extra);
    case _ =>
  }

  lemma DatePrefix(data: Bytes, extra: Bytes)
    requires DecodeDateTime(data).Decoded?
    ensures DecodeDateTime(data + extra) == DecodeDateTime(data)
  {
    var whole := data + extra;
    assert whole[0] == data[0];
    if data[0] >= 4 {
      assert whole[1..3] == data[1..3];
    }
    if data[0] == 11 {
      assert whole[8..12] == data[8..12];
    }
  }

  lemma TimePrefix(data: Bytes, extra: Bytes)
    requires DecodeTime(data).Decoded?
    ensures DecodeTime(data + extra) == DecodeTime(data)
  {
    var whole := data + extra;
    assert whole[0] == data[0];
    if data[0] >= 8 {
      assert whole[2..6] == data[2..6];
    }
    if data[0] == 12 {
      assert whole[9..13] == data[9..13];
    }
  }

  // ---------------------------------------------------------------------------------------------
  // The client's side
  // ---------------------------------------------------------------------------------------------

  datatype Wire =
    | WireNull
    | WireInt(n: int)
    | WireBits(bits: nat)
    | WireBytes(bytes: Bytes)
    | WireZero
    | WireDate(year: nat, month: Byte, day: Byte)
    | WireDateTime(year: nat, month: Byte, day: Byte, hour: Byte, minute: Byte, second: Byte, micro: Option<nat>)
    | WireTime(negative: bool, days: nat, hour: Byte, minute: Byte, second: Byte, micro: Option<nat>)

  /** How the protocol page "Binary Protocol Value" has a value of a column type written. */
  datatype Format =
    | Nothing
    | Integer(bytes: nat)
    | Real(bytes: nat)
    | Characters
    | Binary
    | Calendar
    | Duration
    | Unknown

  /** The formats, one column type code after the other. */
  function FormatOf(code: Byte): (f: Format)
    ensures f.Integer? ==> f.bytes in {1, 2, 4, 8}
    ensures f.Real? ==> f.bytes in {4, 8}
  {
    match code as int
    case 0 => Characters
    case 1 => Integer(1)
    case 2 => Integer(2)
    case 3 => Integer(4)
    case 4 => Real(4)
    case 5 => Real(8)
    case 6 => Nothing
    case 7 => Calendar
    case 8 => Integer(8)
    case 9 => Integer(4)
    case 10 => Calendar
    case 11 => Duration
    case 12 => Calendar
    case 13 => Integer(2)
    case 14 => Calendar
    case 15 => Characters
    case 16 => Binary
    case 245 => Binary
    case 246 => Characters
    case 247 => Characters
    case 248 => Characters
    case 249 => Binary
    case 250 => Binary
    case 251 => Binary
    case 252 => Binary
    case 253 => Characters
    case 254 => Characters
    case 255 => Binary
    case _ => Unknown
  }

  /** The decoder's switch takes every column type for what the protocol says it is. */
  lemma KindIsFormat(code: Byte)
    ensures match FormatOf(code)
            case Nothing => KindOf(code) == NullKind
            case Integer(k) => KindOf(code) == IntKind(k)
            case Real(k) => KindOf(code) == if k == 4 then FloatKind else DoubleKind
            case Characters => KindOf(code) == TextKind
            case Binary => KindOf(code) == BlobKind
            case Calendar => KindOf(code) == DateKind
            case Duration => KindOf(code) == TimeKind
            case Unknown => KindOf(code) == Unsupported
  {
  }

  /** A type the protocol does not know is refused. */
  lemma UnknownRefused(data: Bytes, typ: ParamType)
    requires FormatOf(typ.fieldType).Unknown?
    ensures DecodeValue(data, typ).Bad?
  {
    KindIsFormat(typ.fieldType);
  }

  /** What a client may send for a parameter of the type. */
  predicate Fits(w: Wire, typ: ParamType) {
    match FormatOf(typ.fieldType)
    case Nothing => w.WireNull?
    case Integer(k) =>
      w.WireInt? && (if typ.unsigned then 0 <= w.n < Pow256(k) else 0 <= 2 * w.n + Pow256(k) < 2 * Pow256(k))
    case Real(k) => w.WireBits? && w.bits < Pow256(k)
    case Characters => w.WireBytes? && |w.bytes| < TWO_TO_64
    case Binary => w.WireBytes? && |w.bytes| < TWO_TO_64
    case Calendar =>
      || w.WireZero?
      || (w.WireDate? && w.year < Pow256(2))
      || (w.WireDateTime? && w.year < Pow256(2) && MicroFits(w.micro))
    case Duration => w.WireZero? || (w.WireTime? && w.days < Pow256(4) && MicroFits(w.micro))
    case Unknown => false
  }

  predicate MicroFits(micro: Option<nat>) {
    micro.Some? ==> micro.value < Pow256(4)
  }

  function MicroBytes(micro: Option<nat>): Bytes {
    if micro.Some? then Le(micro.value, 4) else []
  }

  function Encode(w: Wire, typ: ParamType): Bytes
    requires Fits(w, typ)
  {
    match w
    case WireNull => []
    case WireInt(n) =>
      var k := FormatOf(typ.fieldType).bytes;
      Le(if n < 0 then n + Pow256(k) else n, k)
    case WireBits(bits) => Le(bits, FormatOf(typ.fieldType).bytes)
    case WireBytes(bytes) => LenEncBytes(bytes)
    case WireZero => [0]
    case WireDate(year, month, day) => [4] + Le(year, 2) + [month, day]
    case WireDateTime(year, month, day, hour, minute, second, micro) =>
      [if micro.Some? then 11 else 7] + Le(year, 2) + [month, day, hour, minute, second] + MicroBytes(micro)
    case WireTime(negative, days, hour, minute, second, micro) =>
      [if micro.Some? then 12 else 8] + [if negative then 1 else 0] + Le(days, 4) + [hour, minute, second] + MicroBytes(micro)
  }

  /** The value the client meant. */
  function Denote(w: Wire, typ: ParamType): Arg {
    match w
    case WireNull => Null
    case WireInt(n) => if n > MAX_INT64 then Digits(n) else Int64(n)
    case WireBits(bits) => if FormatOf(typ.fieldType) == Real(4) then Float32(bits) else Float64(bits)
    case WireBytes(bytes) => if FormatOf(typ.fieldType).Characters? then Text(bytes) else Blob(bytes)
    case WireZero => if FormatOf(typ.fieldType).Calendar? then ZeroTime else TimeText(false, 0, 0, 0, None)
    case WireDate(year, month, day) => DateTime(year, month, day, 0, 0, 0, 0)
    case WireDateTime(year, month, day, hour, minute, second, micro) =>
      DateTime(year, month, day, hour, minute, second, if micro.Some? then micro.value else 0)
    case WireTime(negative, days, hour, minute, second, micro) =>
      TimeText(negative, 24 * days + hour, minute, second, micro)
  }

  /** The hours of a time are added up in 32 bits. */
  predicate HoursFit(w: Wire) {
    w.WireTime? ==> 24 * w.days + w.hour < 0x1_0000_0000
  }

  lemma IntRoundTrip(n: int, k: nat, unsigned: bool)
    requires k in {1, 2, 4, 8}
    requires if unsigned then 0 <= n < Pow256(k) else 0 <= 2 * n + Pow256(k) < 2 * Pow256(k)
    ensures var raw := if n < 0 then n + Pow256(k) else n;
            0 <= raw < Pow256(k) && IntArg(raw, k, unsigned) == if n > MAX_INT64 then Digits(n) else Int64(n)
  {
    Powers();
  }

  /** Dates and times: the fields are where the decoder looks for them. */
  lemma DateRoundTrip(w: Wire, typ: ParamType, rest: Bytes)
    requires Fits(w, typ) && (w.WireDate? || w.WireDateTime?)
    ensures DecodeDateTime(Encode(w, typ) + rest) == Decoded(Denote(w, typ), |Encode(w, typ)|)
  {
    var data := Encode(w, typ) + rest;
    hide FormatOf;
    LeRoundTrip(w.year, 2);
    assert data[1..3] == Le(w.year, 2);
    assert data[3] == w.month && data[4] == w.day;
    if w.WireDateTime? {
      assert data[5] == w.hour && data[6] == w.minute && data[7] == w.second;
      if w.micro.Some? {
        LeRoundTrip(w.micro.value, 4);
        assert data[8..12] == Le(w.micro.value, 4);
      }
    }
  }

  lemma TimeRoundTrip(w: Wire, typ: ParamType, rest: Bytes)
    requires Fits(w, typ) && w.WireTime?
    ensures DecodeTime(Encode(w, typ) + rest) ==
              Decoded(TimeText(w.negative, (24 * w.days + w.hour) % 0x1_0000_0000, w.minute, w.second, w.micro), |Encode(w, typ)|)
  {
    var data := Encode(w, typ) + rest;
    hide FormatOf;
    LeRoundTrip(w.days, 4);
    assert data[2..6] == Le(w.days, 4);
    assert data[1] == (if w.negative then 1 else 0) && data[6] == w.hour && data[7] == w.minute && data[8] == w.second;
    if w.micro.Some? {
      LeRoundTrip(w.micro.value, 4);
      assert data[9..13] == Le(w.micro.value, 4);
    }
  }

  predicate RoundTrips(w: Wire, typ: ParamType, rest: Bytes)
    requires Fits(w, typ)
  {
    var r := DecodeValue(Encode(w, typ) + rest, typ);
    r.Decoded? && r.size == |Encode(w, typ)| && (r.arg == Denote(w, typ) <==> HoursFit(w))
  }

  lemma IntRoundTrips(w: Wire, typ: ParamType, rest: Bytes)
    requires Fits(w, typ) && FormatOf(typ.fieldType).Integer?
    ensures RoundTrips(w, typ, rest)
  {
    KindIsFormat(typ.fieldType);
    hide KindOf, FormatOf;
    hide Le, FromLe, Pow256, IntArg, DecodeDateTime, DecodeTime, ReadLenEncBytes;
    var k := FormatOf(typ.fieldType).bytes;
    var raw := if w.n < 0 then w.n + Pow256(k) else w.n;
    IntRoundTrip(w.n, k, typ.unsigned);
    LeRoundTrip(raw, k);
    assert Encode(w, typ) == Le(raw, k);
    assert (Le(raw, k) + rest)[..k] == Le(raw, k);
  }

  lemma BitsRoundTrips(w: Wire, typ: ParamType, rest: Bytes)
    requires Fits(w, typ) && FormatOf(typ.fieldType).Real?
    ensures RoundTrips(w, typ, rest)
  {
    KindIsFormat(typ.fieldType);
    hide KindOf, FormatOf;
    hide Le, FromLe, Pow256, IntArg, DecodeDateTime, DecodeTime, ReadLenEncBytes;
    var k := FormatOf(typ.fieldType).bytes;
    LeRoundTrip(w.bits, k);
    assert (Le(w.bits, k) + rest)[..k] == Le(w.bits, k);
  }

  lemma BytesRoundTrips(w: Wire, typ: ParamType, rest: Bytes)
    requires Fits(w, typ) && (FormatOf(typ.fieldType).Characters? || FormatOf(typ.fieldType).Binary?)
    ensures RoundTrips(w, typ, rest)
  {
    KindIsFormat(typ.fieldType);
    hide KindOf, FormatOf;
    hide Le, FromLe, Pow256, IntArg, DecodeDateTime, DecodeTime, ReadLenEncBytes, LenEncBytes;
    LenEncBytesRoundTrip(w.bytes, rest);
  }

  lemma DurationRoundTrip(w: Wire, typ: ParamType, rest: Bytes)
    requires Fits(w, typ) && w.WireTime?
    ensures RoundTrips(w, typ, rest)
  {
    KindIsFormat(typ.fieldType);
    hide KindOf, FormatOf, Encode, DecodeDateTime, DecodeTime;
    TimeRoundTrip(w, typ, rest);
  }

  lemma MomentRoundTrip(w: Wire, typ: ParamType, rest: Bytes)
    requires Fits(w, typ) && (w.WireDate? || w.WireDateTime?)
    ensures RoundTrips(w, typ, rest)
  {
    KindIsFormat(typ.fieldType);
    hide KindOf, FormatOf, Encode, DecodeDateTime, DecodeTime;
    DateRoundTrip(w, typ, rest);
  }

  lemma ZeroRoundTrip(w: Wire, typ: ParamType, rest: Bytes)
    requires Fits(w, typ) && w.WireZero?
    ensures RoundTrips(w, typ, rest)
  {
    KindIsFormat(typ.fieldType);
    hide KindOf, FormatOf;
    assert ([0] + rest)[0] == 0;
  }

  lemma CalendarRoundTrips(w: Wire, typ: ParamType, rest: Bytes)
    requires Fits(w, typ) && (FormatOf(typ.fieldType).Calendar? || FormatOf(typ.fieldType).Duration?)
    ensures RoundTrips(w, typ, rest)
  {
    KindIsFormat(typ.fieldType);
    hide KindOf, FormatOf, RoundTrips, Encode, DecodeDateTime, DecodeTime;
    if w.WireZero? {
      ZeroRoundTrip(w, typ, rest);
    } else if w.WireTime? {
      DurationRoundTrip(w, typ, rest);
    } else {
      MomentRoundTrip(w, typ, rest);
    }
  }

  /**
   * Every value a client may send is decoded to what it meant and consumed exactly, whatever follows,
   * except that a time is right exactly when its hours fit in 32 bits.
   */
  lemma ValueRoundTrip(w: Wire, typ: ParamType, rest: Bytes)
    requires Fits(w, typ)
    ensures var r := DecodeValue(Encode(w, typ) + rest, typ);
            r.Decoded? && r.size == |Encode(w, typ)| && (r.arg == Denote(w, typ) <==> HoursFit(w))
  {
    hide DecodeValue, Encode, Denote, FormatOf, KindOf;
    match FormatOf(typ.fieldType)
    case Nothing => NullRoundTrips(w, typ, rest);
    case Integer(k) => IntRoundTrips(w, typ, rest);
    case Real(k) => BitsRoundTrips(w, typ, rest);
    case Characters => BytesRoundTrips(w, typ, rest);
    case Binary => BytesRoundTrips(w, typ, rest);
    case Calendar => CalendarRoundTrips(w, typ, rest);
    case Duration => CalendarRoundTrips(w, typ, rest);
    case Unknown =>
  }

  lemma NullRoundTrips(w: Wire, typ: ParamType, rest: Bytes)
    requires Fits(w, typ) && FormatOf(typ.fieldType).Nothing?
    ensures RoundTrips(w, typ, rest)
  {
    KindIsFormat(typ.fieldType);
    hide KindOf, FormatOf;
  }
}
