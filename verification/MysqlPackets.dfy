/**
 The MySQL packet layer: payloads are cut into frames of at most 2^24-1 bytes with a
 4-byte header (3 bytes of length, 1 byte of sequence number).  `writePacket` writes
 each header over bytes of the buffer it has already sent; `readPacket` reassembles
 frames that the network delivers in chunks of any size.
 */
module MysqlPackets {
  import opened Quotients
  import opened Wrappers

  const MAX_PACKET_SIZE: nat := 0xFF_FFFF

  function ToByte(n: nat): byte { (n % 256) as byte }

  /** The header of a frame. */
  function Header(size: nat, sequence: byte): (h: seq<byte>)
    ensures |h| == 4
  {
    [ToByte(size), ToByte(size / 256), ToByte(size / 65536), sequence]
  }

  function Succ(sequence: byte): byte { if sequence == 255 then 0 else sequence + 1 }

  /** A payload on the wire; one whose length is a multiple of the maximum ends with an
      empty frame. */
  function Frames(payload: seq<byte>, sequence: byte): seq<byte>
    decreases |payload|
  {
    if |payload| < MAX_PACKET_SIZE then Header(|payload|, sequence) + payload
    else
      Header(MAX_PACKET_SIZE, sequence) + payload[..MAX_PACKET_SIZE]
      + Frames(payload[MAX_PACKET_SIZE..], Succ(sequence))
  }

  /** The sequence number after all frames of a payload. */
  function After(payload: seq<byte>, sequence: byte): byte
    decreases |payload|
  {
    if |payload| < MAX_PACKET_SIZE then Succ(sequence) else After(payload[MAX_PACKET_SIZE..], Succ(sequence))
  }

  /** What the first frame of a payload is, and what is left to send after it. */
  lemma FirstFrame(payload: seq<byte>, sequence: byte, size: nat)
    requires size == if |payload| < MAX_PACKET_SIZE then |payload| else MAX_PACKET_SIZE
    ensures Frames(payload, sequence) == Header(size, sequence) + payload[..size]
            + (if size < MAX_PACKET_SIZE then [] else Frames(payload[size..], Succ(sequence)))
    ensures After(payload, sequence) == if size < MAX_PACKET_SIZE then Succ(sequence)
            else After(payload[size..], Succ(sequence))
  {
    hide Header;
    if size < MAX_PACKET_SIZE {
      assert payload[..size] == payload;
    }
  }

  /** Every frame takes the next number, modulo 256. */
  lemma {:induction false} AfterIs(payload: seq<byte>, sequence: byte)
    ensures After(payload, sequence) as nat == (sequence as nat + |payload| / MAX_PACKET_SIZE + 1) % 256
    decreases |payload|
  {
    if |payload| >= MAX_PACKET_SIZE {
      AfterIs(payload[MAX_PACKET_SIZE..], Succ(sequence));
      assert (|payload| - MAX_PACKET_SIZE) / MAX_PACKET_SIZE == |payload| / MAX_PACKET_SIZE - 1;
    }
  }

  /** A frame at the front of `wire`: three bytes of length, lowest first, the number, and the
      body. */
  predicate FrameAt(wire: seq<byte>, body: seq<byte>, number: nat) {
    && |body| <= MAX_PACKET_SIZE && 4 + |body| <= |wire|
    && wire[0] as nat == |body| % 256 && wire[1] as nat == |body| / 256 % 256 && wire[2] as nat == |body| / 65536
    && wire[3] as nat == number && wire[4..4 + |body|] == body
  }

  /** Where frame `k` begins on the wire, and its part of the payload. */
  function Place(k: nat): nat { (MAX_PACKET_SIZE + 4) * k }

  function Part(payload: seq<byte>, k: nat): seq<byte>
    requires MAX_PACKET_SIZE * k <= |payload|
  {
    payload[MAX_PACKET_SIZE * k..][..Lesser(|payload| - MAX_PACKET_SIZE * k, MAX_PACKET_SIZE)]
  }

  /** The wire, frame by frame: there are as many as the payload has maximal parts and one
      more, frame `k` carries part `k` of the payload and a number `k` beyond the first, and
      nothing else is sent. */
  lemma {:induction false} WireIs(payload: seq<byte>, sequence: byte, k: nat)
    requires MAX_PACKET_SIZE * k <= |payload|
    ensures |Frames(payload, sequence)| == |payload| + 4 * (|payload| / MAX_PACKET_SIZE + 1)
    ensures Place(k) <= |Frames(payload, sequence)|
    ensures FrameAt(Frames(payload, sequence)[Place(k)..], Part(payload, k), (sequence as nat + k) % 256)
    decreases k
  {
    hide Header, FrameAt, Frames;
    WireLength(payload, sequence);
    if k == 0 {
      assert payload[MAX_PACKET_SIZE * 0..] == payload;
      assert Frames(payload, sequence)[Place(0)..] == Frames(payload, sequence);
      FirstOnWire(payload, sequence);
    } else {
      var rest := payload[MAX_PACKET_SIZE..];
      WireIs(rest, Succ(sequence), k - 1);
      assert rest[MAX_PACKET_SIZE * (k - 1)..] == payload[MAX_PACKET_SIZE * k..];
      assert Part(rest, k - 1) == Part(payload, k);
      LaterOnWire(payload, sequence, Place(k - 1));
      SuccNumber(sequence, k);
    }
  }

  lemma LaterOnWire(payload: seq<byte>, sequence: byte, o: nat)
    requires |payload| >= MAX_PACKET_SIZE && o <= |Frames(payload[MAX_PACKET_SIZE..], Succ(sequence))|
    ensures var wire := Frames(payload, sequence);
            MAX_PACKET_SIZE + 4 + o <= |wire|
            && wire[MAX_PACKET_SIZE + 4 + o..] == Frames(payload[MAX_PACKET_SIZE..], Succ(sequence))[o..]
  {
    hide Header;
    var front := Header(MAX_PACKET_SIZE, sequence) + payload[..MAX_PACKET_SIZE];
    var more := Frames(payload[MAX_PACKET_SIZE..], Succ(sequence));
    assert Frames(payload, sequence) == front + more;
  }

  lemma SuccNumber(sequence: byte, k: nat)
    requires k > 0
    ensures (Succ(sequence) as nat + (k - 1)) % 256 == (sequence as nat + k) % 256
  {
  }

  lemma {:induction false} WireLength(payload: seq<byte>, sequence: byte)
    ensures |Frames(payload, sequence)| == |payload| + 4 * (|payload| / MAX_PACKET_SIZE + 1)
    decreases |payload|
  {
    hide Header;
    if |payload| >= MAX_PACKET_SIZE {
      WireLength(payload[MAX_PACKET_SIZE..], Succ(sequence));
      assert (|payload| - MAX_PACKET_SIZE) / MAX_PACKET_SIZE == |payload| / MAX_PACKET_SIZE - 1;
    }
  }

  lemma FirstOnWire(payload: seq<byte>, sequence: byte)
    ensures FrameAt(Frames(payload, sequence), Part(payload, 0), sequence as nat % 256)
  {
    var size := Lesser(|payload|, MAX_PACKET_SIZE);
    FirstFrame(payload, sequence, size);
    var wire, body := Frames(payload, sequence), payload[..size];
    assert payload[MAX_PACKET_SIZE * 0..] == payload;
    assert wire[4..4 + size] == body;
  }

  // ---------- reading, as a function of the stream ----------

  datatype ReadError = BadConn | PktSync | PktSyncMul

  /** The outcome of reading one packet off a stream. */
  datatype Parsed = Packet(data: seq<byte>, rest: seq<byte>, sequence: byte) | Failed(error: ReadError)

  function Length(h: seq<byte>): nat
    requires |h| == 4
  {
    h[0] as nat + 256 * (h[1] as nat) + 65536 * (h[2] as nat)
  }

  /** Reading a packet: frames are collected until one is shorter than the maximum. */
  function Parse(stream: seq<byte>, sequence: byte, prev: Option<seq<byte>>): Parsed
    decreases |stream|
  {
    if |stream| < 4 then Failed(BadConn)
    else
      var n := Length(stream[..4]);
      var body := stream[4..];
      if stream[3] != sequence then Failed(if stream[3] > sequence then PktSyncMul else PktSync)
      else if n == 0 then
        if prev.None? then Failed(BadConn) else Packet(prev.value, body, Succ(sequence))
      else if |body| < n then Failed(BadConn)
      else
        var data := (if prev.None? then [] else prev.value) + body[..n];
        if n < MAX_PACKET_SIZE then Packet(data, body[n..], Succ(sequence))
        else Parse(body[n..], Succ(sequence), Some(data))
  }

  lemma HeaderLength(size: nat, sequence: byte)
    requires size <= MAX_PACKET_SIZE
    ensures Length(Header(size, sequence)) == size && Header(size, sequence)[3] == sequence
  {
    assert size == size % 256 + 256 * (size / 256);
    assert size / 65536 == size / 256 / 256;
  }

  /** Reading what was framed gives the payload back, leaves the rest of the stream
      alone, and ends at the writer's sequence number; only an empty payload is taken
      for a broken connection. */
  lemma RoundTrip(payload: seq<byte>, sequence: byte, rest: seq<byte>)
    ensures Parse(Frames(payload, sequence) + rest, sequence, None)
         == if payload == [] then Failed(BadConn) else Packet(payload, rest, After(payload, sequence))
  {
    if payload == [] {
      ParseFrame(payload, sequence, rest, None);
      assert Frames(payload, sequence) + rest == Header(0, sequence) + payload + rest;
    } else {
      Reassembles(payload, sequence, rest, None);
      assert [] + payload == payload;
    }
  }

  lemma {:induction false} Reassembles(payload: seq<byte>, sequence: byte, rest: seq<byte>, prev: Option<seq<byte>>)
    requires payload != [] || prev.Some?
    ensures Parse(Frames(payload, sequence) + rest, sequence, prev)
         == Packet((if prev.None? then [] else prev.value) + payload, rest, After(payload, sequence))
    decreases |payload|
  {
    hide Header, Parse, Length;
    var before := if prev.None? then [] else prev.value;
    var n := if |payload| < MAX_PACKET_SIZE then |payload| else MAX_PACKET_SIZE;
    if |payload| < MAX_PACKET_SIZE {
      assert Frames(payload, sequence) + rest == Header(n, sequence) + payload + rest;
      ParseFrame(payload, sequence, rest, prev);
      assert before + [] == before;
    } else {
      var tail := payload[MAX_PACKET_SIZE..];
      var more := Frames(tail, Succ(sequence)) + rest;
      assert Frames(payload, sequence) + rest == Header(n, sequence) + payload[..n] + more;
      ParseFrame(payload[..n], sequence, more, prev);
      Reassembles(tail, Succ(sequence), rest, Some(before + payload[..n]));
      assert before + payload[..n] + tail == before + payload;
    }
  }

  /** Reading one frame. */
  lemma ParseFrame(body: seq<byte>, sequence: byte, more: seq<byte>, prev: Option<seq<byte>>)
    requires |body| <= MAX_PACKET_SIZE
    ensures var before := if prev.None? then [] else prev.value;
            Parse(Header(|body|, sequence) + body + more, sequence, prev) ==
            if body == [] then (if prev.None? then Failed(BadConn) else Packet(prev.value, more, Succ(sequence)))
            else if |body| < MAX_PACKET_SIZE then Packet(before + body, more, Succ(sequence))
            else Parse(more, Succ(sequence), Some(before + body))
  {
    HeaderLength(|body|, sequence);
    hide Header, Length;
    var h := Header(|body|, sequence);
    var stream := h + body + more;
    assert stream[..4] == h && stream[3] == h[3];
    assert stream[4..] == body + more;
    assert (body + more)[..|body|] == body && (body + more)[|body|..] == more;
  }

  /** A reply to a packet just sent: it is taken if and only if it goes on with the number after
      the last frame; a number that is ahead or behind is told apart. */
  lemma ReplyInStep(payload: seq<byte>, sequence: byte, reply: seq<byte>, number: byte, rest: seq<byte>)
    requires reply != []
    ensures var next := (sequence as nat + |payload| / MAX_PACKET_SIZE + 1) % 256;
            Parse(Frames(reply, number) + rest, After(payload, sequence), None)
            == if number as nat == next then Packet(reply, rest, After(reply, number))
               else Failed(if number as nat > next then PktSyncMul else PktSync)
  {
    hide Frames, After, Parse;
    AfterIs(payload, sequence);
    if number == After(payload, sequence) {
      RoundTrip(reply, number, rest);
    } else {
      NumberOnWire(reply, number);
      OutOfStep(Frames(reply, number) + rest, After(payload, sequence));
    }
  }

  lemma NumberOnWire(payload: seq<byte>, sequence: byte)
    ensures |Frames(payload, sequence)| >= 4 && Frames(payload, sequence)[3] == sequence
  {
    hide Frames;
    FirstFrame(payload, sequence, Lesser(|payload|, MAX_PACKET_SIZE));
  }

  lemma OutOfStep(stream: seq<byte>, sequence: byte)
    requires |stream| >= 4 && stream[3] != sequence
    ensures Parse(stream, sequence, None) == Failed(if stream[3] > sequence then PktSyncMul else PktSync)
  {
  }

  // ---------- long parameters, sent in several commands ----------

  const COM_STMT_SEND_LONG_DATA: byte := 0x18
  const LONG_DATA_OFFSET: nat := 7

  /** What precedes the data in each command: the command, the statement and the
      parameter, little endian. */
  function LongDataHead(stmtId: nat, paramId: nat): (h: seq<byte>)
    ensures |h| == LONG_DATA_OFFSET
  {
    [COM_STMT_SEND_LONG_DATA,
     ToByte(stmtId), ToByte(stmtId / 0x100), ToByte(stmtId / 0x1_0000), ToByte(stmtId / 0x100_0000),
     ToByte(paramId), ToByte(paramId / 0x100)]
  }

  /** A long parameter on the wire: commands of at most `room` data bytes, each starting
      again at sequence number 0. */
  function LongData(head: seq<byte>, arg: seq<byte>, room: nat): seq<byte>
    requires room > 0
    decreases |arg|
  {
    if arg == [] then []
    else
      var n := Lesser(|arg|, room);
      Frames(head + arg[..n], 0) + LongData(head, arg[n..], room)
  }

  lemma {:induction false} ParseConsumes(stream: seq<byte>, sequence: byte, prev: Option<seq<byte>>)
    ensures var p := Parse(stream, sequence, prev); p.Packet? ==> |p.rest| < |stream|
    decreases |stream|
  {
    if |stream| >= 4 && stream[3] == sequence {
      var n := Length(stream[..4]);
      if 0 < n <= |stream| - 4 && n >= MAX_PACKET_SIZE {
        var data := (if prev.None? then [] else prev.value) + stream[4..][..n];
        ParseConsumes(stream[4..][n..], Succ(sequence), Some(data));
      }
    }
  }

  /** A command as the server reads it: a byte that says which, four bytes of statement id and
      two of parameter number, lowest first, and data. */
  datatype Command = SendLongData(stmtId: nat, paramId: nat, data: seq<byte>) | OtherCommand

  function ReadCommand(payload: seq<byte>): Command {
    if |payload| < 7 || payload[0] != 0x18 then OtherCommand
    else
      SendLongData(
        payload[1] as nat + 256 * (payload[2] as nat + 256 * (payload[3] as nat + 256 * (payload[4] as nat))),
        payload[5] as nat + 256 * (payload[6] as nat),
        payload[7..])
  }

  lemma TwoBytes(n: nat)
    ensures ToByte(n) as nat + 256 * (ToByte(n / 256) as nat) == n % 65536 && n / 256 / 256 == n / 65536
  {
    Remainder(n, 256);
    Remainder(n / 256, 256);
    Quotient(n, 65536, n / 256 / 256, 256 * (n / 256 % 256) + n % 256);
  }

  lemma FourBytes(n: nat)
    ensures ToByte(n) as nat + 256 * (ToByte(n / 256) as nat + 256 * (ToByte(n / 65536) as nat
            + 256 * (ToByte(n / 0x100_0000) as nat))) == n % 0x1_0000_0000
  {
    hide ToByte;
    var high := n / 65536;
    TwoBytes(n);
    TwoBytes(high);
    DivTwice(n, 65536, 256);
    Remainder(n, 65536);
    Remainder(high, 65536);
    Quotient(n, 0x1_0000_0000, high / 65536, 65536 * (high % 65536) + n % 65536);
  }

  lemma HeadRead(stmtId: nat, paramId: nat, data: seq<byte>)
    ensures ReadCommand(LongDataHead(stmtId, paramId) + data)
         == SendLongData(stmtId % 0x1_0000_0000, paramId % 0x1_0000, data)
  {
    hide ToByte;
    var payload := LongDataHead(stmtId, paramId) + data;
    assert payload[7..] == data;
    FourBytes(stmtId);
    TwoBytes(paramId);
  }

  /** What the server makes of a stream of such commands for one parameter: it appends
      the data of each. */
  function Unpack(stream: seq<byte>, stmtId: nat, paramId: nat): Option<seq<byte>>
    decreases |stream|
  {
    if stream == [] then Some([])
    else
      var p := Parse(stream, 0, None);
      ParseConsumes(stream, 0, None);
      if p.Failed? then None
      else
        var c := ReadCommand(p.data);
        if c.OtherCommand? || c.stmtId != stmtId || c.paramId != paramId then None
        else
          var more := Unpack(p.rest, stmtId, paramId);
          if more.None? then None else Some(c.data + more.value)
  }

  /** The server receives the parameter, however it had to be cut up, and for the statement and
      parameter it is meant for, as far as their numbers have four and two bytes. */
  lemma {:induction false} LongDataRoundTrip(stmtId: nat, paramId: nat, arg: seq<byte>, room: nat)
    requires room > 0
    ensures Unpack(LongData(LongDataHead(stmtId, paramId), arg, room), stmtId % 0x1_0000_0000, paramId % 0x1_0000)
         == Some(arg)
    decreases |arg|
  {
    hide Frames, Parse, After, LongDataHead, ReadCommand;
    if arg != [] {
      var head, n := LongDataHead(stmtId, paramId), Lesser(|arg|, room);
      var payload, rest := head + arg[..n], LongData(head, arg[n..], room);
      RoundTrip(payload, 0, rest);
      HeadRead(stmtId, paramId, arg[..n]);
      LongDataRoundTrip(stmtId, paramId, arg[n..], room);
      FramesNonempty(payload, 0);
      assert arg[..n] + arg[n..] == arg;
    }
  }

  lemma FramesNonempty(payload: seq<byte>, sequence: byte)
    ensures |Frames(payload, sequence)| >= 4
  {
  }
}
