/**
 * COM_STMT_EXECUTE, COM_STMT_SEND_LONG_DATA and COM_STMT_RESET (pkg/mysqlmock/prepared.go; the
 * protocol page "COM_STMT_EXECUTE"): null bit map, remembered parameter types, long data.
 *
 * A reference encoder writes the payload a client sends.  The laws say that the decoder inverts it,
 * consumes it exactly, and that long data is what was sent since the last execute or reset.
 */
module PreparedStatements {
  import opened Options
  import opened Sequences
  import opened WireBytes
  import opened PreparedValues

  datatype Execution = Malformed | Bound(args: seq<Arg>)

  /** What a connection keeps for a prepared statement. */
  datatype Prepared = Prepared(count: nat, types: seq<ParamType>, long: map<nat, Bytes>)

  const HEADER: nat := 9

  function NullLen(count: nat): nat {
    (count + 7) / 8
  }

  predicate IsNull(bitmap: Bytes, i: nat)
    requires i / 8 < |bitmap|
  {
    Bit(bitmap[i / 8], i % 8)
  }

  function ReadTypes(data: Bytes, count: nat): (r: seq<ParamType>)
    requires |data| >= 2 * count
    ensures |r| == count
  {
    seq(count, i requires 0 <= i < count => ParamType(data[2 * i], data[2 * i + 1] >= 0x80))
  }

  /** The arguments from parameter `i` on; every byte of `values` must be used. */
  function Values(p: Prepared, bitmap: Bytes, i: nat, values: Bytes): Execution
    requires |bitmap| == NullLen(p.count) && |p.types| == p.count && i <= p.count
    decreases p.count - i
  {
    if i == p.count then (if values == [] then Bound([]) else Malformed)
    else if IsNull(bitmap, i) then Put(Null, Values(p, bitmap, i + 1, values))
    else if i in p.long then Put(Blob(p.long[i]), Values(p, bitmap, i + 1, values))
    else
      var r := DecodeValue(values, p.types[i]);
      if r.Bad? then Malformed else Put(r.arg, Values(p, bitmap, i + 1, values[r.size..]))
  }

  function Put(arg: Arg, later: Execution): Execution {
    if later.Bound? then Bound([arg] + later.args) else Malformed
  }

  /** decodeExecuteArgs: the arguments, and the parameter types remembered from now on. */
  function Decode(p: Prepared, payload: Bytes): (Execution, seq<ParamType>)
    requires |payload| >= HEADER
  {
    if p.count == 0 then (Bound([]), p.types)
    else
      var body := payload[HEADER..];
      var n := NullLen(p.count);
      if |body| < n + 1 then (Malformed, p.types)
      else if body[n] == 1 then
        if |body| < n + 1 + 2 * p.count then (Malformed, p.types)
        else
          var types := ReadTypes(body[n + 1..], p.count);
          (Values(p.(types := types), body[..n], 0, body[n + 1 + 2 * p.count..]), types)
      else if |p.types| != p.count then (Malformed, p.types)
      else (Values(p, body[..n], 0, body[n + 1..]), p.types)
  }

  // ---------------------------------------------------------------------------------------------
  // The client's side
  // ---------------------------------------------------------------------------------------------

  /** A parameter is NULL, was sent as long data, or is written into the payload. */
  datatype Param = NullParam | LongParam | Inline(value: Wire)

  predicate Sends(params: seq<Param>, types: seq<ParamType>, long: map<nat, Bytes>) {
    && |params| == |types|
    && (forall i :: 0 <= i < |params| && params[i].LongParam? ==> i in long)
    && (forall i :: 0 <= i < |params| && params[i].Inline? ==> i !in long && Fits(params[i].value, types[i]))
  }

  function Nulls(params: seq<Param>): (bits: seq<bool>)
    ensures |bits| == |params|
  {
    seq(|params|, i requires 0 <= i < |params| => params[i].NullParam?)
  }

  function TypeBytes(types: seq<ParamType>): (b: Bytes)
    ensures |b| == 2 * |types|
  {
    if types == [] then [] else [types[0].fieldType, if types[0].unsigned then 0x80 else 0] + TypeBytes(types[1..])
  }

  /** The values of the parameters from `i` on, one after the other. */
  function ValueBytes(params: seq<Param>, types: seq<ParamType>, long: map<nat, Bytes>, i: nat): Bytes
    requires Sends(params, types, long) && i <= |params|
    decreases |params| - i
  {
    if i == |params| then []
    else (if params[i].Inline? then Encode(params[i].value, types[i]) else []) + ValueBytes(params, types, long, i + 1)
  }

  /** Without parameters a client sends the header alone. */
  function Payload(header: Bytes, params: seq<Param>, types: seq<ParamType>, long: map<nat, Bytes>, sendTypes: bool): Bytes
    requires |header| == 9 && Sends(params, types, long)
  {
    if params == [] then header
    else
      header + (BitMap(Nulls(params)) + ([if sendTypes then 1 else 0] +
                ((if sendTypes then TypeBytes(types) else []) + ValueBytes(params, types, long, 0))))
  }

  function Meant(params: seq<Param>, types: seq<ParamType>, long: map<nat, Bytes>, i: nat): (args: seq<Arg>)
    requires Sends(params, types, long) && i <= |params|
    ensures |args| == |params| - i
    decreases |params| - i
  {
    if i == |params| then []
    else
      [match params[i]
       case NullParam => Null
       case LongParam => Blob(long[i])
       case Inline(w) => Denote(w, types[i])] + Meant(params, types, long, i + 1)
  }

  predicate TimesFit(params: seq<Param>) {
    forall i :: 0 <= i < |params| && params[i].Inline? ==> HoursFit(params[i].value)
  }

  // ---------------------------------------------------------------------------------------------
  // The decoder inverts the encoder
  // ---------------------------------------------------------------------------------------------

  lemma {:induction false} TypesRoundTrip(types: seq<ParamType>, rest: Bytes, i: nat)
    requires i < |types|
    ensures var data := TypeBytes(types) + rest;
            ParamType(data[2 * i], data[2 * i + 1] >= 0x80) == types[i]
  {
    if i > 0 {
      var data := TypeBytes(types) + rest;
      var later := TypeBytes(types[1..]) + rest;
      assert data[2..] == later;
      TypesRoundTrip(types[1..], rest, i - 1);
      assert data[2 * i] == later[2 * (i - 1)] && data[2 * i + 1] == later[2 * (i - 1) + 1];
    }
  }

  lemma ReadTypesBack(types: seq<ParamType>, rest: Bytes)
    ensures ReadTypes(TypeBytes(types) + rest, |types|) == types
  {
    hide TypeBytes;
    var data := TypeBytes(types) + rest;
    forall i | 0 <= i < |types|
      ensures ParamType(data[2 * i], data[2 * i + 1] >= 0x80) == types[i]
    {
      TypesRoundTrip(types, rest, i);
    }
    assert forall i :: 0 <= i < |types| ==> ReadTypes(data, |types|)[i] == types[i];
  }

  lemma NullBit(params: seq<Param>, i: nat)
    requires i < |params|
    ensures i / 8 < |BitMap(Nulls(params))|
    ensures IsNull(BitMap(Nulls(params)), i) <==> params[i].NullParam?
  {
    BitMapBit(Nulls(params), i);
  }

  lemma {:induction false} ValuesRoundTrip(p: Prepared, params: seq<Param>, i: nat)
    requires p.count == |params| && Sends(params, p.types, p.long) && i <= |params|
    requires TimesFit(params)
    ensures Values(p, BitMap(Nulls(params)), i, ValueBytes(params, p.types, p.long, i))
         == Bound(Meant(params, p.types, p.long, i))
    decreases |params| - i
  {
    hide BitMap, IsNull, DecodeValue, Encode, Denote, Fits, HoursFit;
    if i < |params| {
      NullBit(params, i);
      ValuesRoundTrip(p, params, i + 1);
      var later := ValueBytes(params, p.types, p.long, i + 1);
      if params[i].Inline? {
        ValueRoundTrip(params[i].value, p.types[i], later);
        assert (Encode(params[i].value, p.types[i]) + later)[|Encode(params[i].value, p.types[i])|..] == later;
      } else {
        assert [] + later == later;
      }
    }
  }

  /** With parameters the payload holds null map, types and values where the decoder looks for them. */
  /** Null map, flag and what follows them, cut apart again. */
  lemma BodySlices(bitmap: Bytes, flag: Bytes, tail: Bytes)
    requires |flag| == 1
    ensures var body, n := bitmap + (flag + tail), |bitmap|;
            && body[..n] == bitmap && body[n] == flag[0] && body[n + 1..] == tail
            && forall k :: 0 <= k <= |tail| ==> body[n + 1 + k..] == tail[k..]
  {
    var body, n := bitmap + (flag + tail), |bitmap|;
    assert body[n + 1..] == tail;
    forall k | 0 <= k <= |tail|
      ensures body[n + 1 + k..] == tail[k..]
    {
      assert body[n + 1 + k..] == body[n + 1..][k..];
    }
  }

  lemma ParametersRoundTrip(p: Prepared, header: Bytes, params: seq<Param>, types: seq<ParamType>, sendTypes: bool)
    requires |header| == 9 && p.count == |params| && p.count > 0
    requires Sends(params, types, p.long) && TimesFit(params)
    requires sendTypes || p.types == types
    ensures Decode(p, Payload(header, params, types, p.long, sendTypes)) == (Bound(Meant(params, types, p.long, 0)), types)
  {
    hide Values, BitMap, TypeBytes, ReadTypes, ValueBytes, Meant, Fits, HoursFit, Sends;
    var payload := Payload(header, params, types, p.long, sendTypes);
    assert |types| == p.count by { SendsLength(params, types, p.long); }
    var bitmap, values := BitMap(Nulls(params)), ValueBytes(params, types, p.long, 0);
    var n := NullLen(p.count);
    var tail := (if sendTypes then TypeBytes(types) else []) + values;
    var flag: Bytes := [if sendTypes then 1 else 0];
    var body := bitmap + (flag + tail);
    assert payload[HEADER..] == body;
    BodySlices(bitmap, flag, tail);
    ValuesRoundTrip(p.(types := types), params, 0);
    if sendTypes {
      ReadTypesBack(types, values);
      assert tail[2 * p.count..] == values;
    } else {
      assert tail == values;
      assert p.(types := types) == p;
    }
  }

  /**
   * For every parameter count, types, null pattern, long-data set and choice of sending the types or
   * relying on the remembered ones, the decoder gives back what the client meant and remembers the
   * types, if there are any.  The hours of a TIME are the one limit: they are added up in 32 bits.
   */
  lemma ExecuteRoundTrip(p: Prepared, header: Bytes, params: seq<Param>, types: seq<ParamType>, sendTypes: bool)
    requires |header| == 9 && p.count == |params|
    requires Sends(params, types, p.long) && TimesFit(params)
    requires sendTypes || p.types == types
    ensures Decode(p, Payload(header, params, types, p.long, sendTypes))
         == (Bound(Meant(params, types, p.long, 0)), if p.count == 0 then p.types else types)
  {
    if p.count > 0 {
      hide Decode, Payload, Sends, TimesFit, Meant;
      ParametersRoundTrip(p, header, params, types, sendTypes);
    }
  }

  lemma SendsLength(params: seq<Param>, types: seq<ParamType>, long: map<nat, Bytes>)
    requires Sends(params, types, long)
    ensures |types| == |params|
  {
  }

  // ---------------------------------------------------------------------------------------------
  // The payload is consumed exactly
  // ---------------------------------------------------------------------------------------------

  lemma {:induction false} ValuesNoTrailing(p: Prepared, bitmap: Bytes, i: nat, values: Bytes, extra: Bytes)
    requires |bitmap| == NullLen(p.count) && |p.types| == p.count && i <= p.count
    requires Values(p, bitmap, i, values).Bound? && extra != []
    ensures Values(p, bitmap, i, values + extra).Malformed?
    decreases p.count - i
  {
    hide IsNull, DecodeValue;
    if i < p.count {
      if IsNull(bitmap, i) || i in p.long {
        ValuesNoTrailing(p, bitmap, i + 1, values, extra);
      } else {
        var size := DecodeValue(values, p.types[i]).size;
        DecodePrefix(values, extra, p.types[i]);
        ValuesNoTrailing(p, bitmap, i + 1, values[size..], extra);
        assert (values + extra)[size..] == values[size..] + extra;
      }
    }
  }

  /** A payload that is accepted is refused with anything after it, exactly when the statement has parameters. */
  lemma NoTrailingBytes(p: Prepared, payload: Bytes, extra: Bytes)
    requires |payload| >= HEADER && extra != []
    requires Decode(p, payload).0.Bound?
    ensures Decode(p, payload + extra).0.Malformed? <==> p.count > 0
  {
    hide Values;
    if p.count == 0 {
      return;
    }
    var body := payload[HEADER..];
    var n := NullLen(p.count);
    assert (payload + extra)[HEADER..] == body + extra;
    assert (body + extra)[..n] == body[..n] && (body + extra)[n] == body[n];
    if body[n] == 1 {
      var start := n + 1 + 2 * p.count;
      assert (body + extra)[start..] == body[start..] + extra;
      SameTypes(body[n + 1..], extra, p.count);
      assert (body + extra)[n + 1..] == body[n + 1..] + extra;
      ValuesNoTrailing(p.(types := ReadTypes(body[n + 1..], p.count)), body[..n], 0, body[start..], extra);
    } else {
      assert (body + extra)[n + 1..] == body[n + 1..] + extra;
      ValuesNoTrailing(p, body[..n], 0, body[n + 1..], extra);
    }
  }

  /** Without parameters nothing behind the header is looked at: a byte that belongs to nothing is accepted. */
  lemma TrailingByteTaken(header: Bytes, types: seq<ParamType>, long: map<nat, Bytes>)
    requires |header| == 9
    ensures Decode(Prepared(0, types, long), header + [0]) == Decode(Prepared(0, types, long), header) == (Bound([]), types)
  {
  }

  lemma SameTypes(data: Bytes, extra: Bytes, count: nat)
    requires |data| >= 2 * count
    ensures ReadTypes(data + extra, count) == ReadTypes(data, count)
  {
  }

  // ---------------------------------------------------------------------------------------------
  // A prepared statement over a run of commands
  // ---------------------------------------------------------------------------------------------

  datatype Command = SendLong(param: nat, chunk: Bytes) | Execute(payload: Bytes) | Reset

  function LongSent(long: map<nat, Bytes>, param: nat, chunk: Bytes): map<nat, Bytes> {
    long[param := (if param in long then long[param] else []) + chunk]
  }

  function Step(p: Prepared, command: Command): Prepared {
    match command
    case SendLong(param, chunk) => p.(long := LongSent(p.long, param, chunk))
    case Execute(payload) =>
      if |payload| < HEADER then p else p.(types := Decode(p, payload).1, long := map[])
    case Reset => p.(long := map[])
  }

  function Run(p: Prepared, commands: seq<Command>): Prepared {
    if commands == [] then p else Step(Run(p, commands[..|commands| - 1]), commands[|commands| - 1])
  }

  /** A command after which nothing of the long data is left. */
  predicate Clears(command: Command) {
    command.Reset? || (command.Execute? && |command.payload| >= HEADER)
  }

  /** The chunks sent for a parameter, in order. */
  function Chunks(commands: seq<Command>, param: nat): seq<Bytes> {
    if commands == [] then []
    else
      var last := commands[|commands| - 1];
      Chunks(commands[..|commands| - 1], param) +
      if last.SendLong? && last.param == param then [last.chunk] else []
  }

  /** The parameter's long data is exactly these chunks, and there is none without a chunk. */
  predicate HoldsChunks(p: Prepared, param: nat, chunks: seq<Bytes>) {
    && (param in p.long <==> chunks != [])
    && (param in p.long ==> p.long[param] == Concat(chunks))
  }

  lemma StepChunks(p: Prepared, command: Command, param: nat, chunks: seq<Bytes>)
    requires HoldsChunks(p, param, chunks) && !Clears(command)
    ensures HoldsChunks(Step(p, command), param,
              chunks + if command.SendLong? && command.param == param then [command.chunk] else [])
  {
    hide Decode;
    if command.SendLong? && command.param == param {
      ConcatSnoc(chunks, command.chunk);
      assert chunks == [] ==> Concat(chunks) == [];
    } else {
      assert chunks + [] == chunks;
    }
  }

  /**
   * After any run, a parameter's long data is the concatenation of the chunks sent for it since the
   * last execute or reset, and it has long data exactly when at least one chunk was sent since then.
   */
  lemma {:induction false} LongDataIsChunks(p: Prepared, before: seq<Command>, since: seq<Command>, param: nat)
    requires before == [] ==> p.long == map[]
    requires before != [] ==> Clears(before[|before| - 1])
    requires forall c :: c in since ==> !Clears(c)
    ensures var now := Run(p, before + since);
            && (param in now.long <==> Chunks(since, param) != [])
            && (param in now.long ==> now.long[param] == Concat(Chunks(since, param)))
    decreases |since|
  {
    hide Decode, Concat;
    var all := before + since;
    if since == [] {
      assert all == before;
    } else {
      hide Step, Clears;
      var n := |since| - 1;
      assert since[n] in since && !Clears(since[n]);
      LongDataIsChunks(p, before, since[..n], param);
      assert all[..|all| - 1] == before + since[..n] && all[|all| - 1] == since[n];
      assert Run(p, all) == Step(Run(p, before + since[..n]), since[n]);
      hide Run;
      StepChunks(Run(p, before + since[..n]), since[n], param, Chunks(since[..n], param));
    }
  }

  // ---------------------------------------------------------------------------------------------
  // The statement object
  // ---------------------------------------------------------------------------------------------

  class PreparedStatement {
    const paramCount: nat
    var paramTypes: seq<ParamType>
    var longData: map<nat, Bytes>

    constructor (paramCount: nat)
      ensures State() == Prepared(paramCount, [], map[])
    {
      this.paramCount := paramCount;
      paramTypes, longData := [], map[];
    }

    ghost function State(): Prepared
      reads this
    {
      Prepared(paramCount, paramTypes, longData)
    }

    method SendLongData(param: nat, chunk: Bytes)
      modifies this
      ensures State() == Step(old(State()), SendLong(param, chunk))
    {
      var sent := if param in longData then longData[param] else [];
      longData := longData[param := sent + chunk];
    }

    method ResetLongData()
      modifies this
      ensures State() == Step(old(State()), Reset)
    {
      longData := map[];
    }

    /** The long data is dropped whether the arguments could be decoded or not. */
    method ExecuteArgs(payload: Bytes) returns (r: Execution)
      requires |payload| >= HEADER
      modifies this
      ensures State() == Step(old(State()), Execute(payload))
      ensures r == Decode(old(State()), payload).0
    {
      hide Decode;
      r := DecodeExecuteArgs(payload);
      longData := map[];
    }

    method DecodeExecuteArgs(payload: Bytes) returns (r: Execution)
      requires |payload| >= HEADER
      modifies this`paramTypes
      ensures (r, paramTypes) == Decode(old(State()), payload)
    {
      hide Values, ReadTypes;
      if paramCount == 0 {
        return Bound([]);
      }
      ghost var body := payload[HEADER..];
      var pos := HEADER;
      var nullLen := (paramCount + 7) / 8;
      if |payload| < pos + nullLen + 1 {
        return Malformed;
      }
      var nullBitmap := payload[pos..pos + nullLen];
      assert nullBitmap == body[..nullLen] && payload[pos + nullLen] == body[nullLen];
      pos := pos + nullLen;
      var newParamsBound := payload[pos];
      pos := pos + 1;
      assert payload[pos..] == body[nullLen + 1..];
      if newParamsBound == 1 {
        if |payload| < pos + paramCount * 2 {
          return Malformed;
        }
        paramTypes := TypesFrom(payload[pos..], paramCount);
        pos := pos + paramCount * 2;
        assert payload[pos..] == body[nullLen + 1 + 2 * paramCount..];
      } else if |paramTypes| != paramCount {
        return Malformed;
      }
      r := DecodeValues(nullBitmap, payload[pos..]);
    }

    /** The loop over the parameters. */
    method DecodeValues(nullBitmap: Bytes, values: Bytes) returns (r: Execution)
      requires |nullBitmap| == NullLen(paramCount) && |paramTypes| == paramCount
      ensures r == Values(State(), nullBitmap, 0, values)
    {
      hide Values, IsNull, DecodeValue;
      var args: seq<Arg> := [];
      var valuePos: nat := 0;
      ghost var p := State();
      assert values[0..] == values;
      PutNothing(Values(p, nullBitmap, 0, values));
      for i := 0 to paramCount
        invariant valuePos <= |values|
        invariant Values(p, nullBitmap, 0, values) == PutAll(args, Values(p, nullBitmap, i, values[valuePos..]))
      {
        ValuesStep(p, nullBitmap, i, values[valuePos..]);
        if IsNull(nullBitmap, i) {
          PutLast(args, Null, Values(p, nullBitmap, i + 1, values[valuePos..]));
          args := args + [Null];
          continue;
        }
        if i in longData {
          PutLast(args, Blob(longData[i]), Values(p, nullBitmap, i + 1, values[valuePos..]));
          args := args + [Blob(longData[i])];
          continue;
        }
        var decoded := DecodeValue(values[valuePos..], paramTypes[i]);
        if decoded.Bad? {
          return Malformed;
        }
        assert values[valuePos..][decoded.size..] == values[valuePos + decoded.size..];
        PutLast(args, decoded.arg, Values(p, nullBitmap, i + 1, values[valuePos + decoded.size..]));
        valuePos := valuePos + decoded.size;
        args := args + [decoded.arg];
      }
      ValuesEnd(p, nullBitmap, values[valuePos..]);
      if valuePos != |values| {
        return Malformed;
      }
      assert args + [] == args;
      return Bound(args);
    }
  }

  method TypesFrom(data: Bytes, count: nat) returns (types: seq<ParamType>)
    requires |data| >= 2 * count
    ensures types == ReadTypes(data, count)
  {
    types := [];
    for i := 0 to count
      invariant |types| == i && forall j :: 0 <= j < i ==> types[j] == ReadTypes(data, count)[j]
    {
      types := types + [ParamType(data[2 * i], data[2 * i + 1] >= 0x80)];
    }
  }

  ghost function PutAll(args: seq<Arg>, later: Execution): Execution {
    if later.Bound? then Bound(args + later.args) else Malformed
  }

  lemma PutNothing(e: Execution)
    ensures PutAll([], e) == e
  {
    if e.Bound? {
      assert [] + e.args == e.args;
    }
  }

  lemma PutLast(args: seq<Arg>, arg: Arg, later: Execution)
    ensures PutAll(args, Put(arg, later)) == PutAll(args + [arg], later)
  {
    if later.Bound? {
      assert args + ([arg] + later.args) == (args + [arg]) + later.args;
    }
  }

  lemma ValuesStep(p: Prepared, bitmap: Bytes, i: nat, values: Bytes)
    requires |bitmap| == NullLen(p.count) && |p.types| == p.count && i < p.count
    ensures i / 8 < |bitmap|
    ensures IsNull(bitmap, i) ==> Values(p, bitmap, i, values) == Put(Null, Values(p, bitmap, i + 1, values))
    ensures !IsNull(bitmap, i) && i in p.long ==>
              Values(p, bitmap, i, values) == Put(Blob(p.long[i]), Values(p, bitmap, i + 1, values))
    ensures !IsNull(bitmap, i) && i !in p.long ==>
              var r := DecodeValue(values, p.types[i]);
              Values(p, bitmap, i, values) ==
                if r.Bad? then Malformed else Put(r.arg, Values(p, bitmap, i + 1, values[r.size..]))
  {
    hide IsNull, DecodeValue;
  }

  lemma ValuesEnd(p: Prepared, bitmap: Bytes, values: Bytes)
    requires |bitmap| == NullLen(p.count) && |p.types| == p.count
    ensures Values(p, bitmap, p.count, values) == if values == [] then Bound([]) else Malformed
  {
  }
}
