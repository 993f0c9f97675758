/** Result sets on the wire: the packets writeResultset sends (proxy/conn_resultset.go, writeEOF of
    proxy/conn.go) and how readResult takes them apart (mysql/conn.go). */
module ResultStream {
  import opened Wrappers
  import opened Bytes
  import opened LengthEncoding
  import opened StringRuns
  import opened Sequences
  import F = FieldCodec
  import R = RowText
  import P = PacketIO

  const EOF_HEADER: byte := 0xfe
  const OK_HEADER: byte := 0
  const ERR_HEADER: byte := 0xff
  const LOCAL_IN_FILE_HEADER: byte := 0xfb

  // ---------------------------------------------------------------- streams of packets

  /** The sequence counter after some payloads. */
  function SeqAll(payloads: seq<bytes>, s: byte): byte {
    if payloads == [] then s
    else P.SeqAfter(|payloads[|payloads| - 1]|, SeqAll(payloads[..|payloads| - 1], s))
  }

  /** The bytes of some payloads sent one after the other. */
  function Sent(payloads: seq<bytes>, s: byte): bytes {
    if payloads == [] then []
    else
      var init := payloads[..|payloads| - 1];
      Sent(init, s) + P.Frames(payloads[|payloads| - 1], SeqAll(init, s))
  }

  /** The payloads that can be read from a stream before the first failure. */
  function PacketsOf(input: bytes, s: byte): (r: seq<bytes>)
    ensures forall i :: 0 <= i < |r| ==> |r[i]| > 0
    decreases |input|
  {
    match P.Read(input, s)
    case Packet(p, rest, s') => [p] + PacketsOf(rest, s')
    case _ => []
  }

  predicate Framable(payloads: seq<bytes>) {
    forall i :: 0 <= i < |payloads| ==> |payloads[i]| % P.MAX_PAYLOAD_LEN != 0
  }

  /** Payloads whose lengths are not multiples of MaxPayloadLen are read back in order, and the stream
      after them is left as it was. */
  lemma {:induction false} StreamRoundTrip(payloads: seq<bytes>, s: byte, tail: bytes)
    requires Framable(payloads)
    ensures PacketsOf(Sent(payloads, s) + tail, s) == payloads + PacketsOf(tail, SeqAll(payloads, s))
  {
    if payloads == [] {
      assert Sent(payloads, s) + tail == tail;
    } else {
      var n := |payloads| - 1;
      var init, last := payloads[..n], payloads[n];
      var s' := SeqAll(init, s);
      var after := PacketsOf(tail, P.SeqAfter(|last|, s'));
      Assoc(Sent(init, s), P.Frames(last, s'), tail);
      StreamRoundTrip(init, s, P.Frames(last, s') + tail);
      OnePacket(last, s', tail);
      Assoc(init, [last], after);
      assert payloads == init + [last];
    }
  }

  lemma OnePacket(p: bytes, s: byte, tail: bytes)
    requires |p| % P.MAX_PAYLOAD_LEN != 0
    ensures PacketsOf(P.Frames(p, s) + tail, s) == [p] + PacketsOf(tail, P.SeqAfter(|p|, s))
  {
    P.ReadFrames(p, s, tail);
  }

  // ---------------------------------------------------------------- writing

  function EofPacket(status: F.uint16, cap41: bool): (r: bytes)
    ensures |r| == (if cap41 then 5 else 1) && r[0] == EOF_HEADER
  {
    [EOF_HEADER] + (if cap41 then [0, 0] + LeBytes(status, 2) else [])
  }

  predicate AllSendable(fields: seq<F.Field>) { forall i :: 0 <= i < |fields| ==> F.Sendable(fields[i]) }

  function Dumps(fields: seq<F.Field>): (r: seq<bytes>)
    requires AllSendable(fields)
    ensures |r| == |fields| && forall i :: 0 <= i < |r| ==> r[i] == F.DumpField(fields[i])
  {
    seq(|fields|, (i: nat) requires i < |fields| => F.DumpField(fields[i]))
  }

  /** The packets of a result set: column count, definitions, EOF, rows, EOF. */
  function Packets(fields: seq<F.Field>, rows: seq<bytes>, status: F.uint16, cap41: bool): seq<bytes>
    requires AllSendable(fields) && |fields| <= MAX_UINT64
  {
    [PutLengthEncodedInt(|fields|)] + Dumps(fields) + [EofPacket(status, cap41)] + rows + [EofPacket(status, cap41)]
  }

  /** The proxy's side of a client connection. */
  class Writer {
    const io: P.PacketIO
    const cap41: bool

    constructor (io: P.PacketIO, cap41: bool)
      ensures this.io == io && this.cap41 == cap41
    {
      this.io, this.cap41 := io, cap41;
    }

    /** One payload behind the four bytes kept for its header. */
    method WritePacket(payload: bytes)
      modifies io
      ensures io.output == old(io.output) + P.Frames(payload, old(io.sequence))
      ensures io.sequence == P.SeqAfter(|payload|, old(io.sequence)) && io.input == old(io.input)
    {
      var data := new byte[|payload| + 4](i => 0);
      forall i | 0 <= i < |payload| {
        data[i + 4] := payload[i];
      }
      assert data[4..] == payload;
      io.WritePacket(data);
    }

    /** Sends one more payload after the ones already sent. */
    method WriteNext(payload: bytes, ghost done: seq<bytes>, ghost start: bytes, ghost s: byte)
      requires io.output == start + Sent(done, s) && io.sequence == SeqAll(done, s)
      modifies io
      ensures io.output == start + Sent(done + [payload], s) && io.sequence == SeqAll(done + [payload], s)
      ensures io.input == old(io.input)
    {
      assert (done + [payload])[..|done|] == done;
      Assoc(start, Sent(done, s), P.Frames(payload, io.sequence));
      WritePacket(payload);
    }

    /** writeResultset. */
    method WriteResultset(fields: seq<F.Field>, rows: seq<bytes>, status: F.uint16)
      requires AllSendable(fields) && |fields| <= MAX_UINT64
      modifies io
      ensures io.output == old(io.output) + Sent(Packets(fields, rows, status, cap41), old(io.sequence))
      ensures io.sequence == SeqAll(Packets(fields, rows, status, cap41), old(io.sequence))
    {
      ghost var start, s := io.output, io.sequence;
      ghost var head := [PutLengthEncodedInt(|fields|)];
      assert start + [] == start && [] + head == head;
      WriteNext(PutLengthEncodedInt(|fields|), [], start, s);
      var dumps := DumpAll(fields);
      WriteUntilEof(dumps, EofPacket(status, cap41), head, start, s);
      WriteUntilEof(rows, EofPacket(status, cap41), head + dumps + [EofPacket(status, cap41)], start, s);
    }

    /** Some packets and an EOF after them. */
    method WriteUntilEof(packets: seq<bytes>, eof: bytes, ghost done: seq<bytes>, ghost start: bytes, ghost s: byte)
      requires io.output == start + Sent(done, s) && io.sequence == SeqAll(done, s)
      modifies io
      ensures io.output == start + Sent(done + packets + [eof], s)
      ensures io.sequence == SeqAll(done + packets + [eof], s)
    {
      ghost var sent := done;
      for i := 0 to |packets|
        invariant sent == done + packets[..i]
        invariant io.output == start + Sent(sent, s) && io.sequence == SeqAll(sent, s)
      {
        WriteNext(packets[i], sent, start, s);
        sent := sent + [packets[i]];
      }
      assert sent == done + packets;
      WriteNext(eof, sent, start, s);
    }
  }

  method DumpAll(fields: seq<F.Field>) returns (dumps: seq<bytes>)
    requires AllSendable(fields)
    ensures dumps == Dumps(fields)
  {
    dumps := [];
    for i := 0 to |fields|
      invariant |dumps| == i && forall k :: 0 <= k < i ==> dumps[k] == F.DumpField(fields[k])
    {
      var data := F.Dump(fields[i]);
      dumps := dumps + [data];
    }
  }

  // ---------------------------------------------------------------- reading

  predicate IsEof(p: bytes) { |p| > 0 && p[0] == EOF_HEADER && |p| <= 5 }

  /** What the reader of a result set ends with. */
  datatype Outcome =
    | ResultSet(fields: seq<F.Field>, rows: seq<bytes>, values: seq<seq<R.Value>>, status: F.uint16)
    | OkPacket
    | ErrPacket
    | Malformed
    | EndOfStream
    | Crash

  /** Column definitions, and the packets after their EOF; or how the reading ended. */
  datatype Columns = Columns(fields: seq<F.Field>, rest: seq<bytes>) | NoColumns(end: Outcome)

  type FieldParser = bytes -> F.Parsed

  type RowParser = bytes -> Run<R.Value>

  /** readResultColumns, after some definitions. */
  function ColumnsFrom(parse: FieldParser, ps: seq<bytes>, done: seq<F.Field>, count: nat, cap41: bool): (r: Columns)
    decreases |ps|
  {
    if ps == [] then NoColumns(EndOfStream)
    else if IsEof(ps[0]) then
      if cap41 && |ps[0]| < 5 then NoColumns(Crash)
      else if |done| != count then NoColumns(Malformed)
      else Columns(done, ps[1..])
    else if |done| >= count then NoColumns(Crash)
    else
      match parse(ps[0])
      case Panics => NoColumns(Crash)
      case Malformed => NoColumns(Outcome.Malformed)
      case Parsed(f) => ColumnsFrom(parse, ps[1..], done + [f], count, cap41)
  }

  /** Rows up to their EOF, the status in it, and the packets after it. */
  datatype Rows = Rows(rows: seq<bytes>, status: F.uint16, rest: seq<bytes>) | NoRows(end: Outcome)

  function EofStatus(p: bytes, cap41: bool): F.uint16
    requires cap41 ==> |p| >= 5
  {
    if cap41 then F.U16(p[3..5]) else 0
  }

  /** The row loop of readResultRows. */
  function RowsFrom(ps: seq<bytes>, done: seq<bytes>, cap41: bool): (r: Rows)
    decreases |ps|
  {
    if ps == [] then NoRows(EndOfStream)
    else if IsEof(ps[0]) then
      if cap41 && |ps[0]| < 5 then NoRows(Crash) else Rows(done, EofStatus(ps[0], cap41), ps[1..])
    else RowsFrom(ps[1..], done + [ps[0]], cap41)
  }

  /** The values of the rows, or how the first row that does not parse ends the reading. */
  datatype Values = Values(values: seq<seq<R.Value>>) | NoValues(end: Outcome)

  function ValuesOf(parse: RowParser, rows: seq<bytes>): (r: Values)
    ensures r.Values? ==> |r.values| == |rows|
  {
    if rows == [] then Values([])
    else
      match ValuesOf(parse, rows[..|rows| - 1])
      case NoValues(e) => NoValues(e)
      case Values(vs) =>
        match parse(rows[|rows| - 1])
        case Run(v, _) => Values(vs + [v])
        case BadRun => NoValues(Crash)
        case _ => NoValues(Malformed)
  }

  const PARSE_FIELD: FieldParser := p => F.ParseField(p)

  function RowParserFor(fl: R.Floats, fields: seq<F.Field>): RowParser { p => R.ParsedRow(fl, p, fields) }

  /** readResult on the packets of a stream. */
  function Interpret(fl: R.Floats, ps: seq<bytes>, cap41: bool): Outcome
    requires forall i :: 0 <= i < |ps| ==> |ps[i]| > 0
  {
    if ps == [] then EndOfStream
    else if ps[0][0] == OK_HEADER then OkPacket
    else if ps[0][0] == ERR_HEADER then ErrPacket
    else if ps[0][0] == LOCAL_IN_FILE_HEADER then Malformed
    else if IntWidth(ps[0]) > |ps[0]| then Crash
    else if IntWidth(ps[0]) != |ps[0]| then Malformed
    else ReadSet(fl, PARSE_FIELD, ps[1..], LengthEncodedInt(ps[0]).num, cap41)
  }

  /** readResultset after the column count. */
  function ReadSet(fl: R.Floats, parse: FieldParser, ps: seq<bytes>, count: nat, cap41: bool): Outcome {
    match ColumnsFrom(parse, ps, [], count, cap41)
    case NoColumns(e) => e
    case Columns(fields, rest) =>
      match RowsFrom(rest, [], cap41)
      case NoRows(e) => e
      case Rows(rows, status, _) => SetOf(fl, fields, rows, status)
  }

  /** The result set of some rows, if they all parse. */
  function SetOf(fl: R.Floats, fields: seq<F.Field>, rows: seq<bytes>, status: F.uint16): Outcome {
    match ValuesOf(RowParserFor(fl, fields), rows)
    case NoValues(e) => e
    case Values(values) => ResultSet(fields, rows, values, status)
  }

  /** The receiving side of a connection to a server. */
  class ResultReader {
    const io: P.PacketIO
    const cap41: bool
    const fl: R.Floats

    constructor (io: P.PacketIO, cap41: bool, fl: R.Floats)
      ensures this.io == io && this.cap41 == cap41 && this.fl == fl
    {
      this.io, this.cap41, this.fl := io, cap41, fl;
    }

    /** The packets still to come. */
    ghost function Pending(): seq<bytes>
      reads this, io
    {
      PacketsOf(io.input, io.sequence)
    }

    method ReadPacket() returns (p: Option<bytes>)
      modifies io
      ensures p.None? ==> old(Pending()) == []
      ensures p.Some? ==> |p.value| > 0 && old(Pending()) == [p.value] + Pending()
    {
      var r := io.ReadPacket();
      if r.Packet? {
        return Some(r.payload);
      }
      return None;
    }

    /** readResultColumns. */
    method ReadColumns(parse: FieldParser, count: nat) returns (fields: seq<F.Field>, end: Option<Outcome>)
      modifies io
      ensures var c := ColumnsFrom(parse, old(Pending()), [], count, cap41);
              if end.Some? then c == NoColumns(end.value) else c == Columns(fields, Pending())
    {
      fields := [];
      ghost var c := ColumnsFrom(parse, Pending(), [], count, cap41);
      while true
        invariant c == ColumnsFrom(parse, Pending(), fields, count, cap41)
        decreases |Pending()|
      {
        ghost var pending := Pending();
        var p := ReadPacket();
        if p.None? {
          return fields, Some(EndOfStream);
        }
        assert pending[0] == p.value && pending[1..] == Pending();
        if IsEof(p.value) {
          end := if cap41 && |p.value| < 5 then Some(Crash) else if |fields| != count then Some(Malformed) else None;
          return;
        }
        if |fields| >= count {
          return fields, Some(Crash);
        }
        match parse(p.value)
        case Panics => return fields, Some(Crash);
        case Malformed => return fields, Some(Outcome.Malformed);
        case Parsed(f) => fields := fields + [f];
      }
    }

    /** The row loop of readResultRows. */
    method ReadRows() returns (rows: seq<bytes>, status: F.uint16, end: Option<Outcome>)
      modifies io
      ensures var r := RowsFrom(old(Pending()), [], cap41);
              if end.Some? then r == NoRows(end.value) else r == Rows(rows, status, Pending())
    {
      rows, status := [], 0;
      ghost var r := RowsFrom(Pending(), [], cap41);
      while true
        invariant r == RowsFrom(Pending(), rows, cap41)
        decreases |Pending()|
      {
        ghost var pending := Pending();
        var p := ReadPacket();
        if p.None? {
          return rows, 0, Some(EndOfStream);
        }
        assert pending[0] == p.value && pending[1..] == Pending();
        if IsEof(p.value) {
          if cap41 && |p.value| < 5 {
            return rows, 0, Some(Crash);
          }
          return rows, EofStatus(p.value, cap41), None;
        }
        rows := rows + [p.value];
      }
    }

    /** The value loop of readResultRows. */
    method ReadValues(parse: RowParser, rows: seq<bytes>) returns (r: Values)
      ensures r == ValuesOf(parse, rows)
    {
      var values: seq<seq<R.Value>> := [];
      for i := 0 to |rows|
        invariant ValuesOf(parse, rows[..i]) == Values(values)
      {
        assert rows[..i + 1][..i] == rows[..i];
        match parse(rows[i])
        case Run(v, _) => values := values + [v];
        case BadRun =>
          ValuesStop(parse, rows, i + 1);
          return NoValues(Crash);
        case _ =>
          ValuesStop(parse, rows, i + 1);
          return NoValues(Malformed);
      }
      assert rows[..|rows|] == rows;
      r := Values(values);
    }

    /** readResultset after the column count. */
    method ReadResultset(parse: FieldParser, count: nat) returns (r: Outcome)
      modifies io
      ensures r == ReadSet(fl, parse, old(Pending()), count, cap41)
    {
      var fields, end := ReadColumns(parse, count);
      if end.Some? {
        return end.value;
      }
      var rows, status, end' := ReadRows();
      if end'.Some? {
        return end'.value;
      }
      var values := ReadValues(RowParserFor(fl, fields), rows);
      match values
      case NoValues(e) => r := e;
      case Values(vs) => r := ResultSet(fields, rows, vs, status);
    }

    /** readResult. */
    method ReadResult() returns (r: Outcome)
      modifies io
      ensures r == Interpret(fl, old(Pending()), cap41)
    {
      ghost var pending := Pending();
      var p := ReadPacket();
      if p.None? {
        return EndOfStream;
      }
      var data := p.value;
      assert pending[0] == data && pending[1..] == Pending();
      if data[0] == OK_HEADER {
        return OkPacket;
      }
      if data[0] == ERR_HEADER {
        return ErrPacket;
      }
      if data[0] == LOCAL_IN_FILE_HEADER {
        return Malformed;
      }
      if IntWidth(data) > |data| {
        return Crash;
      }
      if IntWidth(data) != |data| {
        return Malformed;
      }
      r := ReadResultset(PARSE_FIELD, LengthEncodedInt(data).num);
    }
  }

  lemma {:induction false} ValuesStop(parse: RowParser, rows: seq<bytes>, i: nat)
    requires i <= |rows| && ValuesOf(parse, rows[..i]).NoValues?
    ensures ValuesOf(parse, rows) == ValuesOf(parse, rows[..i])
    decreases |rows| - i
  {
    if i == |rows| {
      assert rows[..i] == rows;
    } else {
      assert rows[..i + 1][..i] == rows[..i];
      ValuesStop(parse, rows, i + 1);
    }
  }

  // ---------------------------------------------------------------- nothing is mistaken

  /** Definitions that are not EOFs, as many as announced, are collected up to the EOF. */
  lemma {:induction false} ColumnsRead(parse: FieldParser, ps: seq<bytes>, parsed: seq<F.Field>, eof: bytes,
                                       rest: seq<bytes>, done: seq<F.Field>, cap41: bool)
    requires |ps| == |parsed| && forall i :: 0 <= i < |ps| ==> !IsEof(ps[i]) && parse(ps[i]) == F.Parsed(parsed[i])
    requires IsEof(eof) && (cap41 ==> |eof| == 5)
    ensures ColumnsFrom(parse, ps + [eof] + rest, done, |done| + |ps|, cap41) == Columns(done + parsed, rest)
    decreases |ps|
  {
    var all := ps + [eof] + rest;
    if ps == [] {
      assert all[0] == eof && all[1..] == rest && done + parsed == done;
    } else {
      assert all[0] == ps[0] && all[1..] == ps[1..] + [eof] + rest;
      ColumnsRead(parse, ps[1..], parsed[1..], eof, rest, done + [parsed[0]], cap41);
      assert done + [parsed[0]] + parsed[1..] == done + parsed;
    }
  }

  lemma {:induction false} RowsRead(ps: seq<bytes>, eof: bytes, rest: seq<bytes>, done: seq<bytes>, cap41: bool)
    requires forall i :: 0 <= i < |ps| ==> !IsEof(ps[i])
    requires IsEof(eof) && (cap41 ==> |eof| == 5)
    ensures RowsFrom(ps + [eof] + rest, done, cap41) == Rows(done + ps, EofStatus(eof, cap41), rest)
    decreases |ps|
  {
    var all := ps + [eof] + rest;
    if ps == [] {
      assert all[0] == eof && all[1..] == rest && done + ps == done;
    } else {
      assert all[0] == ps[0] && all[1..] == ps[1..] + [eof] + rest;
      RowsRead(ps[1..], eof, rest, done + [ps[0]], cap41);
      assert done + [ps[0]] + ps[1..] == done + ps;
    }
  }

  /** A run of encoded strings begins with the first of them. */
  lemma {:induction false} JoinedHead(parts: seq<bytes>)
    requires parts != []
    ensures |Joined(parts)| >= |parts[0]| && Joined(parts)[..|parts[0]|] == parts[0]
  {
    var n := |parts| - 1;
    if n == 0 {
      assert parts[..0] == [];
    } else {
      JoinedHead(parts[..n]);
      assert Joined(parts)[..|parts[0]|] == Joined(parts[..n])[..|parts[0]|];
    }
  }

  lemma PutNotEof(s: Option<bytes>)
    requires s.Some? ==> F.Fits(s.value)
    ensures |Put(s)| > 0 && (Put(s)[0] == EOF_HEADER ==> |Put(s)| > 5)
  {
  }

  /** No row that can be built looks like an EOF packet. */
  lemma RowNotEof(fl: R.Floats, fields: seq<F.Field>, values: seq<R.Value>)
    requires |fields| == |values| > 0 && R.ValidRow(values)
    requires R.RowBytes(fl, fields, values).Some?
    ensures var row := R.RowBytes(fl, fields, values).value; |row| > 0 && !IsEof(row)
  {
    var parts := R.Unwrap(R.Cells(fl, fields, values));
    R.WrittenFits(fl, fields[0], values[0]);
    assert R.Cells(fl, fields, values)[0].Some?;
    PutNotEof(R.Written(fl, fields[0], values[0]).value);
    JoinedHead(parts);
    assert Joined(parts)[0] == parts[0][0];
  }

  /** Definitions begin with the length of "def". */
  lemma DumpNotEof(f: F.Field)
    requires F.Sendable(f) && f.data.None?
    ensures |F.DumpField(f)| > 0 && F.DumpField(f)[0] == 3
  {
    var parts := F.Parts(F.NamesOf(f));
    JoinedHead(parts);
    assert parts[0] == [3] + F.DEF;
    assert Joined(parts)[0] == parts[0][0];
  }

  // ---------------------------------------------------------------- the whole trip

  /** The definitions as they arrive. */
  function Arrived(fields: seq<F.Field>): (r: seq<F.Field>)
    requires AllSendable(fields)
    ensures |r| == |fields| && forall i :: 0 <= i < |r| ==> r[i] == F.Received(fields[i], F.DumpField(fields[i]))
  {
    seq(|fields|, (i: nat) requires i < |fields| => F.Received(fields[i], F.DumpField(fields[i])))
  }

  ghost predicate Fresh(fields: seq<F.Field>) {
    AllSendable(fields) && forall i :: 0 <= i < |fields| ==> fields[i].data.None? && F.DefaultSurvives(fields[i])
  }

  ghost predicate RealRows(rows: seq<bytes>) { forall i :: 0 <= i < |rows| ==> |rows[i]| > 0 && !IsEof(rows[i]) }

  lemma DumpsRead(fields: seq<F.Field>)
    requires Fresh(fields)
    ensures var dumps := Dumps(fields);
            forall i :: 0 <= i < |dumps| ==>
              !IsEof(dumps[i]) && |dumps[i]| > 0 && PARSE_FIELD(dumps[i]) == F.Parsed(Arrived(fields)[i])
  {
    var dumps := Dumps(fields);
    forall i | 0 <= i < |dumps|
      ensures !IsEof(dumps[i]) && |dumps[i]| > 0 && PARSE_FIELD(dumps[i]) == F.Parsed(Arrived(fields)[i])
    {
      DumpNotEof(fields[i]);
      F.RoundTripIff(fields[i]);
    }
  }

  /** How a sent result set is interpreted: every packet in its place, definitions and row bytes as they
      were sent, in order. Only a row that does not parse can spoil it. */
  function Delivered(fl: R.Floats, fields: seq<F.Field>, rows: seq<bytes>, status: F.uint16, cap41: bool): Outcome
    requires AllSendable(fields)
  {
    SetOf(fl, Arrived(fields), rows, if cap41 then status else 0)
  }

  lemma EofCarriesStatus(status: F.uint16, cap41: bool)
    ensures IsEof(EofPacket(status, cap41))
    ensures EofStatus(EofPacket(status, cap41), cap41) == if cap41 then status else 0
  {
    if cap41 {
      assert EofPacket(status, cap41)[3..5] == LeBytes(status, 2);
      assert Pow256(2) == 0x10000;
      LeFits(status, 2);
    }
  }

  lemma SetDelivered(fl: R.Floats, fields: seq<F.Field>, rows: seq<bytes>, status: F.uint16, cap41: bool, more: seq<bytes>)
    requires Fresh(fields) && RealRows(rows)
    ensures var eof := EofPacket(status, cap41);
            ReadSet(fl, PARSE_FIELD, Dumps(fields) + [eof] + (rows + [eof] + more), |fields|, cap41) ==
              Delivered(fl, fields, rows, status, cap41)
  {
    EofCarriesStatus(status, cap41);
    DumpsRead(fields);
    SetRead(fl, PARSE_FIELD, Dumps(fields), Arrived(fields), rows, EofPacket(status, cap41), more, cap41);
  }

  lemma SetRead(fl: R.Floats, parse: FieldParser, dumps: seq<bytes>, arrived: seq<F.Field>, rows: seq<bytes>,
                eof: bytes, more: seq<bytes>, cap41: bool)
    requires |dumps| == |arrived| && RealRows(rows) && IsEof(eof) && (cap41 ==> |eof| == 5)
    requires forall i :: 0 <= i < |dumps| ==> !IsEof(dumps[i]) && parse(dumps[i]) == F.Parsed(arrived[i])
    ensures ReadSet(fl, parse, dumps + [eof] + (rows + [eof] + more), |dumps|, cap41) ==
            SetOf(fl, arrived, rows, EofStatus(eof, cap41))
  {
    ColumnsRead(parse, dumps, arrived, eof, rows + [eof] + more, [], cap41);
    RowsRead(rows, eof, more, [], cap41);
    assert [] + arrived == arrived && [] + rows == rows;
  }

  lemma PacketsNonEmpty(fields: seq<F.Field>, rows: seq<bytes>, status: F.uint16, cap41: bool)
    requires Fresh(fields) && RealRows(rows) && |fields| <= MAX_UINT64
    ensures forall i :: 0 <= i < |Packets(fields, rows, status, cap41)| ==> |Packets(fields, rows, status, cap41)[i]| > 0
  {
    DumpsRead(fields);
  }

  lemma AfterHead<A>(head: A, a: seq<A>, sep: seq<A>, b: seq<A>, c: seq<A>)
    ensures var all := [head] + a + sep + b + sep + c;
            all[0] == head && all[1..] == a + sep + (b + sep + c)
  {
    assert [head] + a + sep + b + sep + c == [head] + (a + sep + (b + sep + c));
  }

  /** The packets writeResultset sends for at least one column are interpreted as the result set they
      were made from: none is taken for OK, ERR or EOF in the wrong place. */
  lemma PacketsDelivered(fl: R.Floats, fields: seq<F.Field>, rows: seq<bytes>, status: F.uint16, cap41: bool,
                         more: seq<bytes>)
    requires Fresh(fields) && RealRows(rows) && 0 < |fields| <= MAX_UINT64
    requires forall i :: 0 <= i < |more| ==> |more[i]| > 0
    ensures var ps := Packets(fields, rows, status, cap41);
            && (forall i :: 0 <= i < |ps + more| ==> |(ps + more)[i]| > 0)
            && Interpret(fl, ps + more, cap41) == Delivered(fl, fields, rows, status, cap41)
  {
    var ps, eof, head := Packets(fields, rows, status, cap41), EofPacket(status, cap41), PutLengthEncodedInt(|fields|);
    PacketsNonEmpty(fields, rows, status, cap41);
    AfterHead(head, Dumps(fields), [eof], rows, more);
    CountRead(|fields|);
    SetDelivered(fl, fields, rows, status, cap41, more);
  }

  lemma CountRead(n: nat)
    requires 0 < n <= MAX_UINT64
    ensures var head := PutLengthEncodedInt(n);
            && head[0] != OK_HEADER && head[0] != ERR_HEADER && head[0] != LOCAL_IN_FILE_HEADER
            && IntWidth(head) == |head| && LengthEncodedInt(head).num == n
  {
    IntRoundTrip(n, []);
    assert PutLengthEncodedInt(n) + [] == PutLengthEncodedInt(n);
  }

  /** The same through the byte stream, whatever follows it. */
  lemma StreamDelivered(fl: R.Floats, fields: seq<F.Field>, rows: seq<bytes>, status: F.uint16, cap41: bool, s: byte,
                        tail: bytes)
    requires Fresh(fields) && RealRows(rows) && 0 < |fields| <= MAX_UINT64
    requires Framable(Packets(fields, rows, status, cap41))
    ensures Interpret(fl, PacketsOf(Sent(Packets(fields, rows, status, cap41), s) + tail, s), cap41) ==
            Delivered(fl, fields, rows, status, cap41)
  {
    var ps := Packets(fields, rows, status, cap41);
    StreamRoundTrip(ps, s, tail);
    PacketsDelivered(fl, fields, rows, status, cap41, PacketsOf(tail, SeqAll(ps, s)));
  }

  // ---------------------------------------------------------------- result sets the proxy builds

  ghost predicate AllMatch(columns: seq<R.ColumnType>, rows: seq<seq<R.Value>>) {
    forall i :: 0 <= i < |rows| ==> RowMatches(columns, rows[i])
  }

  ghost predicate RowMatches(columns: seq<R.ColumnType>, values: seq<R.Value>) {
    |values| == |columns| && R.ValidRow(values) && forall j :: 0 <= j < |values| ==> R.ColumnMatches(columns[j], values[j])
  }

  lemma RowBuilds(fl: R.Floats, columns: seq<R.ColumnType>, i: nat, values: seq<R.Value>)
    requires RowMatches(columns, values)
    ensures R.RowBytes(fl, R.RowFields(columns, i, values), values).Some?
  {
    if i == 0 {
      var fields := R.FieldsFor(columns, values);
      forall j | 0 <= j < |values|
        ensures R.Cells(fl, fields, values)[j].Some?
      {
        R.ValueOnWire(fl, columns[j], values[j]);
      }
    } else {
      R.LaterRowIff(fl, columns, values, values);
    }
  }

  ghost predicate RowIs(fl: R.Floats, columns: seq<R.ColumnType>, i: nat, values: seq<R.Value>, row: bytes)
    requires R.ValidRow(values)
  {
    |values| == |columns| && Some(row) == R.RowBytes(fl, R.RowFields(columns, i, values), values)
  }

  /** The bytes of a row of the columns' kinds. */
  ghost function SentRow(fl: R.Floats, columns: seq<R.ColumnType>, i: nat, values: seq<R.Value>): (row: bytes)
    requires RowMatches(columns, values)
    ensures RowIs(fl, columns, i, values, row)
  {
    RowBuilds(fl, columns, i, values);
    R.RowBytes(fl, R.RowFields(columns, i, values), values).value
  }

  ghost function SentRows(fl: R.Floats, columns: seq<R.ColumnType>, rows: seq<seq<R.Value>>): (r: seq<bytes>)
    requires AllMatch(columns, rows)
    ensures |r| == |rows|
    ensures forall i :: 0 <= i < |r| ==> RowMatches(columns, rows[i]) && r[i] == SentRow(fl, columns, i, rows[i])
  {
    seq(|rows|, i requires 0 <= i < |rows| => assert RowMatches(columns, rows[i]); SentRow(fl, columns, i, rows[i]))
  }

  lemma AddsRow(fl: R.Floats, columns: seq<R.ColumnType>, b: R.Built, i: nat, values: seq<R.Value>)
    requires RowMatches(columns, values) && b.Built?
    ensures R.AdderFor(fl, columns)(b, i, values) ==
            R.Built(if i == 0 then R.FieldsFor(columns, values) else b.fields, b.rows + [SentRow(fl, columns, i, values)])
  {
  }

  /** Rows of the columns' kinds always build, each with the fields of its place. */
  lemma AllBuild(fl: R.Floats, columns: seq<R.ColumnType>, rows: seq<seq<R.Value>>)
    requires AllMatch(columns, rows) && rows != []
    ensures |rows[0]| == |columns|
    ensures R.BuiltRows(fl, columns, rows) == R.Built(R.FieldsFor(columns, rows[0]), SentRows(fl, columns, rows))
  {
    var add, out := R.AdderFor(fl, columns), SentRows(fl, columns, rows);
    assert RowMatches(columns, rows[0]);
    var fields := R.FieldsFor(columns, rows[0]);
    forall b: R.Built, i: nat | i < |rows| && b.Built?
      ensures R.AppendsOne(add, rows[i], fields, out[i], b, i)
    {
      AddsRow(fl, columns, b, i, rows[i]);
    }
    R.FoldAll(add, rows, fields, out);
  }

  lemma ArrivedClasses(fields: seq<F.Field>)
    requires AllSendable(fields)
    ensures R.ClassesAgree(Arrived(fields), R.OnWire(fields))
  {
  }

  /** Row `i` reaches the client as itself: a first row when its floating-point numbers survive, a later
      one when it holds no number. */
  ghost predicate Whole(fl: R.Floats, columns: seq<R.ColumnType>, i: nat, values: seq<R.Value>)
    requires |columns| == |values|
  {
    if i == 0 then forall j :: 0 <= j < |values| ==> R.Survives(fl, values[j]) else R.NoNumbers(columns, values)
  }

  ghost predicate Reads(r: Run<R.Value>, values: seq<R.Value>) { r.Run? && r.values == values }

  /** Row `i` as the client parses it. */
  lemma RowArrives(fl: R.Floats, columns: seq<R.ColumnType>, first: seq<R.Value>, i: nat, values: seq<R.Value>, row: bytes)
    requires RowMatches(columns, values) && |first| == |columns| && (i == 0 ==> values == first)
    requires Some(row) == R.RowBytes(fl, R.RowFields(columns, i, values), values)
    requires AllSendable(R.FieldsFor(columns, first))
    ensures Reads(R.ParsedRow(fl, row, Arrived(R.FieldsFor(columns, first))), values) <==> Whole(fl, columns, i, values)
  {
    var fields := R.FieldsFor(columns, first);
    ArrivedClasses(fields);
    R.ParsedByClass(fl, Arrived(fields), R.OnWire(fields), row);
    if i == 0 {
      R.ClientSeesRow(fl, columns, values);
      R.OneRowBuilt(fl, columns, values);
      R.RowRest(fl, fields, values, R.OnWire(fields));
    } else {
      R.LaterRowIff(fl, columns, first, values);
    }
  }

  /** The rows make the result set of the values exactly when each parses to its own. */
  lemma SetIff(fl: R.Floats, fields: seq<F.Field>, rows: seq<bytes>, values: seq<seq<R.Value>>, status: F.uint16)
    requires |rows| == |values|
    ensures SetOf(fl, fields, rows, status) == ResultSet(fields, rows, values, status) <==>
            forall i :: 0 <= i < |rows| ==> Reads(R.ParsedRow(fl, rows[i], fields), values[i])
  {
    var parse := RowParserFor(fl, fields);
    assert forall i :: 0 <= i < |rows| ==> parse(rows[i]) == R.ParsedRow(fl, rows[i], fields);
    AllParse(parse, rows, values);
    NoSetIsNoValues(parse, rows);
  }

  /** A failed reading is never a result set. */
  lemma {:induction false} NoSetIsNoValues(parse: RowParser, rows: seq<bytes>)
    ensures ValuesOf(parse, rows).NoValues? ==> !ValuesOf(parse, rows).end.ResultSet?
  {
    if rows != [] { NoSetIsNoValues(parse, rows[..|rows| - 1]); }
  }

  lemma {:induction false} AllParse(parse: RowParser, rows: seq<bytes>, values: seq<seq<R.Value>>)
    requires |rows| == |values|
    ensures (forall i :: 0 <= i < |rows| ==> Reads(parse(rows[i]), values[i])) <==> ValuesOf(parse, rows) == Values(values)
  {
    if rows != [] {
      var n := |rows| - 1;
      AllParse(parse, rows[..n], values[..n]);
      assert forall i :: 0 <= i < n ==> rows[..n][i] == rows[i] && values[..n][i] == values[i];
      assert values[..n] + [values[n]] == values;
      var before := ValuesOf(parse, rows[..n]);
      if ValuesOf(parse, rows) == Values(values) {
        assert before.values == values[..n] && values[n] == parse(rows[n]).values;
      }
    }
  }

  ghost predicate NamesFit(columns: seq<R.ColumnType>) { forall j :: 0 <= j < |columns| ==> F.Fits(columns[j].name) }

  /** A result set built by the proxy arrives with its definitions, row bytes and values exactly when the
      floating-point numbers of the first row survive and no later row holds a number. */
  lemma BuiltDeliveredIff(fl: R.Floats, columns: seq<R.ColumnType>, rows: seq<seq<R.Value>>, status: F.uint16, cap41: bool)
    requires NamesFit(columns) && columns != [] && rows != []
    requires AllMatch(columns, rows)
    ensures var b := R.BuiltRows(fl, columns, rows);
            && b.Built? && Fresh(b.fields) && RealRows(b.rows) && |b.fields| == |columns|
            && (Delivered(fl, b.fields, b.rows, status, cap41) ==
                ResultSet(Arrived(b.fields), b.rows, rows, if cap41 then status else 0) <==>
                forall i :: 0 <= i < |rows| ==> |rows[i]| == |columns| && Whole(fl, columns, i, rows[i]))
  {
    AllBuild(fl, columns, rows);
    BuiltReal(fl, columns, rows);
    var b := R.BuiltRows(fl, columns, rows);
    SetIff(fl, Arrived(b.fields), b.rows, rows, if cap41 then status else 0);
    RowFates(fl, columns, rows);
  }

  /** Which rows arrive whole. */
  lemma RowFates(fl: R.Floats, columns: seq<R.ColumnType>, rows: seq<seq<R.Value>>)
    requires NamesFit(columns) && columns != [] && rows != []
    requires AllMatch(columns, rows)
    ensures R.BuiltRows(fl, columns, rows).Built? && AllSendable(R.BuiltRows(fl, columns, rows).fields)
    ensures |R.BuiltRows(fl, columns, rows).rows| == |rows|
    ensures var b := R.BuiltRows(fl, columns, rows);
            forall i :: 0 <= i < |rows| ==>
              && |rows[i]| == |columns|
              && (Reads(R.ParsedRow(fl, b.rows[i], Arrived(b.fields)), rows[i]) <==> Whole(fl, columns, i, rows[i]))
  {
    AllBuild(fl, columns, rows);
    BuiltReal(fl, columns, rows);
    var b := R.BuiltRows(fl, columns, rows);
    forall i | 0 <= i < |rows|
      ensures |rows[i]| == |columns|
      ensures Reads(R.ParsedRow(fl, b.rows[i], Arrived(b.fields)), rows[i]) <==> Whole(fl, columns, i, rows[i])
    {
      assert RowMatches(columns, rows[i]) && RowMatches(columns, rows[0]);
      assert RowIs(fl, columns, i, rows[i], b.rows[i]);
      RowArrives(fl, columns, rows[0], i, rows[i], b.rows[i]);
    }
  }

  /** The packets of the result set the proxy builds. */
  ghost function BuiltPackets(fl: R.Floats, columns: seq<R.ColumnType>, rows: seq<seq<R.Value>>, status: F.uint16,
                              cap41: bool): seq<bytes>
    requires NamesFit(columns) && 0 < |columns| <= MAX_UINT64 && rows != [] && AllMatch(columns, rows)
  {
    BuiltDeliveredIff(fl, columns, rows, status, cap41);
    var b := R.BuiltRows(fl, columns, rows);
    Packets(b.fields, b.rows, status, cap41)
  }

  lemma SetFields(fl: R.Floats, fields: seq<F.Field>, rows: seq<bytes>, status: F.uint16)
    ensures SetOf(fl, fields, rows, status).ResultSet? ==> SetOf(fl, fields, rows, status).fields == fields
  {
    NoSetIsNoValues(RowParserFor(fl, fields), rows);
  }

  lemma ColumnsDescribed(columns: seq<R.ColumnType>, values: seq<R.Value>)
    requires |columns| == |values| && AllSendable(R.FieldsFor(columns, values))
    ensures var fields := Arrived(R.FieldsFor(columns, values));
            |fields| == |columns| && forall j :: 0 <= j < |columns| ==> R.Describes(columns[j], values[j], fields[j])
  {
    forall j | 0 <= j < |columns|
      ensures R.Describes(columns[j], values[j], Arrived(R.FieldsFor(columns, values))[j])
    {
      assert R.FieldsFor(columns, values)[j] == R.FieldFor(columns[j], values[j]);
    }
  }

  /** From values through bytes to values: what a client reads off the stream after the proxy has sent a
      result set is that result set, with its values, under the same condition and whatever follows; and
      whenever it reads one, each definition describes its column. */
  lemma ValuesDeliveredIff(fl: R.Floats, columns: seq<R.ColumnType>, rows: seq<seq<R.Value>>, status: F.uint16,
                           cap41: bool, s: byte, tail: bytes)
    requires NamesFit(columns) && 0 < |columns| <= MAX_UINT64 && rows != [] && AllMatch(columns, rows)
    requires Framable(BuiltPackets(fl, columns, rows, status, cap41))
    ensures var b := R.BuiltRows(fl, columns, rows);
            && b.Built? && AllSendable(b.fields)
            && (Interpret(fl, PacketsOf(Sent(BuiltPackets(fl, columns, rows, status, cap41), s) + tail, s), cap41) ==
                ResultSet(Arrived(b.fields), b.rows, rows, if cap41 then status else 0) <==>
                forall i :: 0 <= i < |rows| ==> |rows[i]| == |columns| && Whole(fl, columns, i, rows[i]))
    ensures var got := Interpret(fl, PacketsOf(Sent(BuiltPackets(fl, columns, rows, status, cap41), s) + tail, s), cap41);
            got.ResultSet? ==>
              && |got.fields| == |columns| == |rows[0]|
              && forall j :: 0 <= j < |columns| ==> R.Describes(columns[j], rows[0][j], got.fields[j])
  {
    BuiltDeliveredIff(fl, columns, rows, status, cap41);
    var b := R.BuiltRows(fl, columns, rows);
    AllBuild(fl, columns, rows);
    ColumnsDescribed(columns, rows[0]);
    SetFields(fl, Arrived(b.fields), b.rows, if cap41 then status else 0);
    StreamDelivered(fl, b.fields, b.rows, status, cap41, s, tail);
  }

  lemma BuiltReal(fl: R.Floats, columns: seq<R.ColumnType>, rows: seq<seq<R.Value>>)
    requires NamesFit(columns) && columns != [] && rows != []
    requires AllMatch(columns, rows)
    ensures R.BuiltRows(fl, columns, rows).Built?
    ensures Fresh(R.BuiltRows(fl, columns, rows).fields) && RealRows(R.BuiltRows(fl, columns, rows).rows)
  {
    AllBuild(fl, columns, rows);
    var b := R.BuiltRows(fl, columns, rows);
    assert RowMatches(columns, rows[0]);
    forall i | 0 <= i < |rows|
      ensures |b.rows[i]| > 0 && !IsEof(b.rows[i])
    {
      assert RowIs(fl, columns, i, rows[i], b.rows[i]);
      RowNotEof(fl, R.RowFields(columns, i, rows[i]), rows[i]);
    }
  }
}
