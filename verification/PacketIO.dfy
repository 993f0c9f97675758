/** Packet framing (mysql/packetio.go): payloads are cut into chunks of at most
    MAX_PAYLOAD_LEN bytes, each behind a three-byte length and a one-byte sequence id. */
module PacketIO {
  import opened Bytes

  const MAX_PAYLOAD_LEN: nat := 0xffffff

  /** What ReadPacket returns. `rest` is the unread input and `seqNo` the reader's counter. */
  datatype ReadResult =
    | Packet(payload: seq<byte>, rest: seq<byte>, seqNo: byte)
    | Eof
    | BadLength
    | BadSequence

  /** One framed chunk: length, sequence id, bytes. */
  function Frame(chunk: seq<byte>, s: byte): (r: seq<byte>)
    ensures |r| == |chunk| + 4
  {
    LeBytes(|chunk|, 3) + [s] + chunk
  }

  /** The bytes WritePacket sends for a payload: full chunks, then one short chunk, which is
      empty exactly when the payload length is a multiple of MAX_PAYLOAD_LEN. */
  function Frames(payload: seq<byte>, s: byte): (r: seq<byte>)
    decreases |payload|
  {
    if |payload| < MAX_PAYLOAD_LEN then Frame(payload, s)
    else Frame(payload[..MAX_PAYLOAD_LEN], s) + Frames(payload[MAX_PAYLOAD_LEN..], (s + 1) % 256)
  }

  /** The sequence counter after a payload of `n` bytes has been sent. */
  function SeqAfter(n: nat, s: byte): (r: byte) {
    (s + n / MAX_PAYLOAD_LEN + 1) % 256
  }

  /** ReadPacket on the bytes still to be read. */
  function Read(input: seq<byte>, s: byte): (r: ReadResult)
    ensures r.Packet? ==> |r.payload| + |r.rest| < |input| && |r.payload| > 0
    decreases |input|
  {
    if |input| < 4 then Eof
    else
      var length := LeValue(input[..3]);
      if length < 1 then BadLength
      else if input[3] != s then BadSequence
      else if |input| < 4 + length then Eof
      else
        var data := input[4..4 + length];
        var rest := input[4 + length..];
        if length < MAX_PAYLOAD_LEN then Packet(data, rest, (s + 1) % 256)
        else
          match Read(rest, (s + 1) % 256)
          case Packet(more, rest', s') => Packet(data + more, rest', s')
          case err => err
  }

  /** Reading one frame off the front of a stream. */
  lemma ReadFrame(chunk: seq<byte>, s: byte, tail: seq<byte>)
    requires |chunk| <= MAX_PAYLOAD_LEN
    ensures var input := Frame(chunk, s) + tail;
            && input[3] == s && input[4..4 + |chunk|] == chunk && input[4 + |chunk|..] == tail
            && LeValue(input[..3]) == |chunk|
  {
    var input := Frame(chunk, s) + tail;
    assert Pow256(3) == 0x1000000;
    LeFits(|chunk|, 3);
    assert input[..3] == LeBytes(|chunk|, 3);
  }

  /** What the receiver of a payload gets: the payload whole, with the following bytes unread and
      the two counters equal, unless its length is a multiple of MAX_PAYLOAD_LEN, when the closing
      empty chunk is refused. */
  function Received(payload: seq<byte>, s: byte, tail: seq<byte>): (r: ReadResult) {
    if |payload| % MAX_PAYLOAD_LEN != 0
    then Packet(payload, tail, SeqAfter(|payload|, s)) else BadLength
  }

  /** Prefixing a full chunk to a received payload. */
  function Prepend(chunk: seq<byte>, r: ReadResult): ReadResult {
    match r
    case Packet(more, rest, s') => Packet(chunk + more, rest, s')
    case err => err
  }

  /** A full chunk moves the counter by one and leaves the length's residue alone. */
  lemma FullChunk(n: nat, s: byte)
    requires n >= MAX_PAYLOAD_LEN
    ensures SeqAfter(n, s) == SeqAfter(n - MAX_PAYLOAD_LEN, (s + 1) % 256)
    ensures n % MAX_PAYLOAD_LEN == (n - MAX_PAYLOAD_LEN) % MAX_PAYLOAD_LEN
  {
    assert n / MAX_PAYLOAD_LEN == (n - MAX_PAYLOAD_LEN) / MAX_PAYLOAD_LEN + 1;
  }

  lemma ShortChunk(n: nat, s: byte)
    requires n < MAX_PAYLOAD_LEN
    ensures SeqAfter(n, s) == (s + 1) % 256
  {
  }

  lemma ReceivedFull(payload: seq<byte>, s: byte, tail: seq<byte>)
    requires |payload| >= MAX_PAYLOAD_LEN
    ensures Received(payload, s, tail) ==
            Prepend(payload[..MAX_PAYLOAD_LEN], Received(payload[MAX_PAYLOAD_LEN..], (s + 1) % 256, tail))
  {
    FullChunk(|payload|, s);
    assert payload == payload[..MAX_PAYLOAD_LEN] + payload[MAX_PAYLOAD_LEN..];
  }

  /** What Read does with a full chunk followed by a stream. */
  lemma ReadFull(chunk: seq<byte>, s: byte, tail: seq<byte>)
    requires |chunk| == MAX_PAYLOAD_LEN
    ensures Read(Frame(chunk, s) + tail, s) == Prepend(chunk, Read(tail, (s + 1) % 256))
  {
    ReadFrame(chunk, s, tail);
  }

  /** What Read does with a closing chunk: an empty one is refused. */
  lemma ReadShort(chunk: seq<byte>, s: byte, tail: seq<byte>)
    requires |chunk| < MAX_PAYLOAD_LEN
    ensures Read(Frame(chunk, s) + tail, s) == Received(chunk, s, tail)
  {
    ReadFrame(chunk, s, tail);
  }

  /** Reading back what WritePacket sent, for every payload and whatever follows it. */
  lemma {:induction false} ReadFrames(payload: seq<byte>, s: byte, tail: seq<byte>)
    ensures Read(Frames(payload, s) + tail, s) == Received(payload, s, tail)
    decreases |payload|
  {
    if |payload| < MAX_PAYLOAD_LEN {
      ReadShort(payload, s, tail);
    } else {
      var head, more := payload[..MAX_PAYLOAD_LEN], payload[MAX_PAYLOAD_LEN..];
      var s' := (s + 1) % 256;
      var stream := Frames(more, s') + tail;
      assert Frames(payload, s) + tail == Frame(head, s) + stream;
      ReadFull(head, s, stream);
      ReadFrames(more, s', tail);
      ReceivedFull(payload, s, tail);
    }
  }

  /** The packet round trip holds exactly for lengths that are not multiples of MAX_PAYLOAD_LEN. */
  lemma RoundTripIff(payload: seq<byte>, s: byte, tail: seq<byte>)
    ensures (|payload| % MAX_PAYLOAD_LEN != 0) <==>
            Read(Frames(payload, s) + tail, s) == Packet(payload, tail, SeqAfter(|payload|, s))
  {
    ReadFrames(payload, s, tail);
  }

  lemma Le3(n: nat)
    ensures LeBytes(n, 3) == [n % 256, n / 256 % 256, n / 256 / 256 % 256]
  {
    assert LeBytes(n / 256 / 256, 1) == [n / 256 / 256 % 256];
    assert LeBytes(n / 256, 2) == [n / 256 % 256] + LeBytes(n / 256 / 256, 1);
  }

  /** Sending one full chunk off the front of `rest` keeps what is sent in total. */
  lemma SentOne(sent: seq<byte>, rest: seq<byte>, s: byte)
    requires |rest| >= MAX_PAYLOAD_LEN
    ensures sent + Frames(rest, s) ==
            sent + Frame(rest[..MAX_PAYLOAD_LEN], s) + Frames(rest[MAX_PAYLOAD_LEN..], (s + 1) % 256)
  {
  }

  /** The framing endpoint: a byte stream in, a byte stream out and one sequence counter. */
  class PacketIO {
    var input: seq<byte>
    var output: seq<byte>
    var sequence: byte

    constructor (input: seq<byte>)
      ensures this.input == input && output == [] && sequence == 0
    {
      this.input, output, sequence := input, [], 0;
    }

    /** Writes one header in front of `data[start + 4..end]` and sends the two together. */
    method SendChunk(data: array<byte>, start: nat, end: nat)
      requires start + 4 <= end <= data.Length && end - start - 4 <= MAX_PAYLOAD_LEN
      modifies this`output, this`sequence, data
      ensures output == old(output) + Frame(old(data[start + 4..end]), old(sequence))
      ensures sequence == (old(sequence) + 1) % 256
      ensures data[start + 4..] == old(data[start + 4..])
    {
      ghost var chunk := data[start + 4..end];
      var length := end - start - 4;
      data[start], data[start + 1], data[start + 2] := length % 256, length / 256 % 256, length / 256 / 256 % 256;
      data[start + 3] := sequence;
      assert data[start + 4..end] == chunk;
      Le3(length);
      assert data[start..end] == data[start..start + 3] + [sequence] + chunk;
      output := output + data[start..end];
      sequence := (sequence + 1) % 256;
    }

    /** Sends one full chunk; its last four bytes are then free for the next header. */
    method SendFull(data: array<byte>, start: nat, ghost rest: seq<byte>)
      requires start + 4 + MAX_PAYLOAD_LEN <= data.Length && data[start + 4..] == rest
      modifies this`output, this`sequence, data
      ensures data[start + 4 + MAX_PAYLOAD_LEN..] == rest[MAX_PAYLOAD_LEN..]
      ensures output + Frames(rest[MAX_PAYLOAD_LEN..], sequence) == old(output) + Frames(rest, old(sequence))
      ensures SeqAfter(|rest| - MAX_PAYLOAD_LEN, sequence) == SeqAfter(|rest|, old(sequence))
    {
      SentOne(output, rest, sequence);
      FullChunk(|rest|, sequence);
      assert data[start + 4..start + 4 + MAX_PAYLOAD_LEN] == rest[..MAX_PAYLOAD_LEN];
      SendChunk(data, start, start + 4 + MAX_PAYLOAD_LEN);
      assert data[start + 4..][MAX_PAYLOAD_LEN..] == rest[MAX_PAYLOAD_LEN..];
    }

    /** Sends `data[4..]`; the four bytes in front are room for the header. Each later header is
        written over the last four bytes of the chunk that was just sent. */
    method WritePacket(data: array<byte>)
      requires data.Length >= 4
      modifies this`output, this`sequence, data
      ensures output == old(output) + Frames(old(data[4..]), old(sequence))
      ensures sequence == SeqAfter(data.Length - 4, old(sequence))
    {
      ghost var rest := data[4..];
      ghost var whole, after := output + Frames(rest, sequence), SeqAfter(|rest|, sequence);
      var start := 0;
      while data.Length - start - 4 >= MAX_PAYLOAD_LEN
        invariant 0 <= start && start + 4 <= data.Length
        invariant data[start + 4..] == rest
        invariant output + Frames(rest, sequence) == whole
        invariant SeqAfter(|rest|, sequence) == after
      {
        SendFull(data, start, rest);
        rest := rest[MAX_PAYLOAD_LEN..];
        start := start + MAX_PAYLOAD_LEN;
      }
      assert data[start + 4..data.Length] == rest;
      assert Frames(rest, sequence) == Frame(rest, sequence);
      ShortChunk(|rest|, sequence);
      SendChunk(data, start, data.Length);
    }

    /** Reads one payload. A successful read leaves exactly the bytes after it unread. */
    method ReadPacket() returns (r: ReadResult)
      modifies this`input, this`sequence
      ensures r == Read(old(input), old(sequence))
      ensures r.Packet? ==> input == r.rest && sequence == r.seqNo
      decreases |input|
    {
      if |input| < 4 {
        input := [];
        return Eof;
      }
      var header := input[..4];
      ghost var before := input;
      input := input[4..];
      var length := LeValue(header[..3]);
      assert header[..3] == before[..3];
      if length < 1 {
        return BadLength;
      }
      if header[3] != sequence {
        return BadSequence;
      }
      sequence := (sequence + 1) % 256;
      if |input| < length {
        input := [];
        return Eof;
      }
      var data := input[..length];
      input := input[length..];
      assert data == before[4..4 + length] && input == before[4 + length..];
      if length < MAX_PAYLOAD_LEN {
        return Packet(data, input, sequence);
      }
      var more := ReadPacket();
      match more
      case Packet(payload, rest, s) => r := Packet(data + payload, rest, s);
      case _ => r := more;
    }
  }
}
