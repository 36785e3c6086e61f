/**
 The connection over which MySQL packets travel: a network that delivers and takes
 bytes in chunks of its own choosing, the refill buffer in front of it, and the packet
 reader and writers, which work in place.
 */
module MysqlConn {
  import opened Wrappers
  import opened MysqlPackets

  const DEFAULT_BUF_SIZE: nat := 4096

  datatype IoError = Eof | Other

  method CopyAt(b: array<byte>, from: nat, data: seq<byte>)
    requires from + |data| <= b.Length
    modifies b
    ensures b[..] == old(b[..])[..from] + data + old(b[..])[from + |data|..]
  {
    forall k | 0 <= k < |data| {
      b[from + k] := data[k];
    }
  }

  /** A connection to the peer: bytes it sent that were not read yet, and bytes it got. */
  class Network {
    var incoming: seq<byte>
    var outgoing: seq<byte>

    /** `net.Conn.Read` into `b[from..]`: some of what is there, at least one byte unless
        the stream has ended; with `faulty` it may also fail. */
    method Read(b: array<byte>, from: nat, faulty: bool) returns (nn: nat, err: Option<IoError>)
      requires from < b.Length
      modifies this`incoming, b
      ensures from + nn <= b.Length && nn <= |old(incoming)|
      ensures incoming == old(incoming)[nn..]
      ensures b[..] == old(b[..])[..from] + old(incoming)[..nn] + old(b[..])[from + nn..]
      ensures err.None? ==> nn > 0
      ensures err == Some(Eof) ==> incoming == []
      ensures !faulty ==> err != Some(Other)
    {
      var most := if |incoming| < b.Length - from then |incoming| else b.Length - from;
      nn :| 0 <= nn <= most && (most > 0 && !faulty ==> nn > 0);
      CopyAt(b, from, incoming[..nn]);
      incoming := incoming[nn..];
      var early: bool := *;
      if |incoming| == 0 && (nn == 0 || early) {
        err := Some(Eof);
      } else if faulty && (nn == 0 || early) {
        err := Some(Other);
      } else {
        err := None;
      }
    }

    /** `net.Conn.Write`: the bytes taken, and whether it failed; a good network takes all. */
    method Write(data: seq<byte>, faulty: bool) returns (n: nat, failed: bool)
      modifies this`outgoing
      ensures n <= |data| && outgoing == old(outgoing) + data[..n]
      ensures !faulty ==> n == |data| && !failed
    {
      n, failed := |data|, false;
      if faulty {
        n :| 0 <= n <= |data|;
        failed := *;
      }
      outgoing := outgoing + data[..n];
    }
  }

  /** `t` is the end of `s`. */
  predicate Ends(s: seq<byte>, t: seq<byte>) { |t| <= |s| && s[|s| - |t|..] == t }

  /** Bytes that moved from the network into the buffer, behind those that were there. */
  lemma HeldEnds(b: seq<byte>, n: nat, incoming: seq<byte>, left: seq<byte>, before: seq<byte>)
    requires |left| <= n <= |b| && b[..n] + incoming == left + before
    ensures b[..|left|] == left && Ends(before, incoming)
  {
    var all := left + before;
    assert all[..|left|] == left && (b[..n] + incoming)[..|left|] == b[..|left|];
    assert all[n..] == before[n - |left|..] && (b[..n] + incoming)[n..] == incoming;
  }

  lemma Received(b0: seq<byte>, in0: seq<byte>, b1: seq<byte>, n: nat, nn: nat, all: seq<byte>)
    requires n + nn <= |b0| && nn <= |in0| && b0[..n] + in0 == all
    requires b1 == b0[..n] + in0[..nn] + b0[n + nn..]
    ensures |b1| == |b0| && b1[..n + nn] + in0[nn..] == all
  {
    assert b1[..n + nn] == b0[..n] + in0[..nn];
    assert in0 == in0[..nn] + in0[nn..];
  }

  lemma Taken(here: seq<byte>, rest: seq<byte>, need: nat)
    requires need <= |here|
    ensures (here + rest)[..need] == here[..need] && (here + rest)[need..] == here[need..] + rest
  {}

  lemma Slices(b: seq<byte>, i: nat, need: nat, length: nat)
    requires need <= length && i + length <= |b|
    ensures b[i..i + length][..need] == b[i..i + need] && b[i..i + length][need..] == b[i + need..i + length]
  {}

  /** `buffer`: read-ahead in front of the network. */
  class Buffer {
    var buf: array<byte>
    var idx: nat
    var length: nat
    const nc: Network

    ghost predicate Valid()
      reads this
    {
      idx + length <= buf.Length
    }

    /** Everything the peer sent that was not handed out yet. */
    ghost function Pending(): seq<byte>
      requires Valid()
      reads this, buf, nc
    {
      buf[idx..idx + length] + nc.incoming
    }

    lemma PendingParts()
      requires Valid()
      ensures Pending() == buf[idx..idx + length] + nc.incoming
    {
    }

    lemma PendingFront()
      requires Valid() && idx == 0
      ensures Pending() == buf[..length] + nc.incoming
    {
    }

    constructor (nc: Network)
      ensures Valid() && fresh(buf) && this.nc == nc && Pending() == nc.incoming
    {
      buf := new byte[DEFAULT_BUF_SIZE];
      idx, length := 0, 0;
      this.nc := nc;
    }

    /** The first half of `fill`: moves what is left to the front and grows the buffer to
        hold `need` bytes. */
    method MakeRoom(need: nat)
      requires Valid()
      modifies this, buf
      ensures Valid() && (buf == old(buf) || fresh(buf))
      ensures idx == 0 && length == old(length) && buf.Length >= need
      ensures buf[..length] == old(buf[idx..idx + length])
    {
      ghost var left := buf[idx..idx + length];
      if length > 0 && idx > 0 {
        forall k | 0 <= k < length {
          buf[k] := buf[idx + k];
        }
      }
      assert buf[..length] == left;
      if need > buf.Length {
        var newBuf := new byte[((need / DEFAULT_BUF_SIZE) + 1) * DEFAULT_BUF_SIZE];
        forall k | 0 <= k < buf.Length {
          newBuf[k] := buf[k];
        }
        assert newBuf[..length] == left;
        buf := newBuf;
      }
      idx := 0;
    }

    /** One read behind the first `n` bytes; together they still are all there is. */
    method ReadMore(n: nat, faulty: bool, ghost all: seq<byte>) returns (nn: nat, err: Option<IoError>)
      requires n < buf.Length && buf[..n] + nc.incoming == all
      modifies buf, nc`incoming
      ensures n + nn <= buf.Length && buf[..n + nn] + nc.incoming == all
      ensures |nc.incoming| == |old(nc.incoming)| - nn && (err.None? ==> nn > 0)
      ensures (err == Some(Eof) ==> nc.incoming == []) && (!faulty ==> err != Some(Other))
    {
      ghost var b0, in0 := buf[..], nc.incoming;
      nn, err := nc.Read(buf, n, faulty);
      Received(b0, in0, buf[..], n, nn, all);
    }

    /** `fill`: reads until `need` bytes are there or the stream ends. */
    method Fill(need: nat, faulty: bool) returns (ok: bool)
      requires Valid() && length < need
      modifies this, buf, nc`incoming
      ensures Valid() && (buf == old(buf) || fresh(buf))
      ensures idx == 0 && (ok ==> length >= need && Pending() == old(Pending()))
      ensures !ok ==> length == old(length) && buf[..length] == old(buf[idx..idx + length])
                      && Ends(old(nc.incoming), nc.incoming)
      ensures !faulty ==> (ok <==> |old(Pending())| >= need)
    {
      hide Ends, Pending;
      ghost var left := buf[idx..idx + length];
      ghost var all := left + nc.incoming;
      PendingParts();
      MakeRoom(need);
      var n: nat := length;
      while true
        invariant (buf == old(buf) || fresh(buf)) && Valid() && idx == 0 && length == |left| <= n
        invariant n < need <= buf.Length && buf[..n] + nc.incoming == all
        decreases |nc.incoming|
      {
        var nn, err := ReadMore(n, faulty, all);
        n := n + nn;
        HeldEnds(buf[..], n, nc.incoming, left, old(nc.incoming));
        match err {
          case None =>
            if n >= need {
              length := n;
              PendingFront();
              return true;
            }
          case Some(Eof) =>
            if n >= need {
              length := n;
              PendingFront();
              return true;
            }
            return false;
          case Some(Other) =>
            return false;
        }
      }
    }

    /** `readNext`. */
    method ReadNext(need: nat, faulty: bool) returns (data: Option<seq<byte>>)
      requires Valid()
      modifies this, buf, nc`incoming
      ensures Valid() && (buf == old(buf) || fresh(buf))
      ensures data.Some? ==>
              |old(Pending())| >= need && data.value == old(Pending())[..need] && Pending() == old(Pending())[need..]
      ensures !faulty ==> (data.Some? <==> |old(Pending())| >= need)
    {
      if length < need {
        var ok := Fill(need, faulty);
        if !ok {
          return None;
        }
      }
      var slice := Take(need);
      return Some(slice);
    }

    /** The second half of `readNext`: hands out `need` of the buffered bytes. */
    method Take(need: nat) returns (data: seq<byte>)
      requires Valid() && need <= length
      modifies this`idx, this`length
      ensures Valid() && |old(Pending())| >= need
      ensures data == old(Pending())[..need] && Pending() == old(Pending())[need..]
    {
      Taken(buf[idx..idx + length], nc.incoming, need);
      Slices(buf[..], idx, need, length);
      var offset := idx;
      idx := idx + need;
      length := length - need;
      data := buf[offset..idx];
    }
  }

  /** What a read may return and leave behind, given what the stream holds. */
  ghost predicate Agrees(p: Parsed, r: Result<seq<byte>, ReadError>, pending: seq<byte>, sequence: byte) {
    match p
    case Packet(data, rest, after) => r == Success(data) && pending == rest && sequence == after
    case Failed(e) => r == Failure(e)
  }

  /** The bytes of an array after a header was stored at `o`. */
  lemma Stored(was: seq<byte>, now: seq<byte>, h: seq<byte>, lo: nat, o: nat, size: nat, hi: nat)
    requires |h| == 4 && lo <= o && o + 4 + size <= hi <= |was| == |now|
    requires forall k :: 0 <= k < |was| ==> now[k] == if o <= k < o + 4 then h[k - o] else was[k]
    ensures now[..lo] == was[..lo] && now[hi..] == was[hi..]
    ensures now[o..o + 4 + size] == h + was[o + 4..hi][..size]
    ensures now[o + size + 4..hi] == was[o + 4..hi][size..]
  {
    assert now[o..o + 4] == h;
    assert now[o..o + 4 + size] == now[o..o + 4] + now[o + 4..o + 4 + size];
    assert now[o + 4..o + 4 + size] == was[o + 4..hi][..size];
  }

  lemma NoCommand(head: seq<byte>, room: nat)
    requires room > 0
    ensures LongData(head, [], room) == []
  {
  }

  lemma FirstCommand(sent: seq<byte>, head: seq<byte>, left: seq<byte>, room: nat, n: nat)
    requires 0 < room && left != [] && n == Lesser(|left|, room)
    ensures sent + LongData(head, left, room) == sent + Frames(head + left[..n], 0) + LongData(head, left[n..], room)
  {
    hide Frames;
    assert LongData(head, left, room) == Frames(head + left[..n], 0) + LongData(head, left[n..], room);
  }

  datatype WriteError = PktTooLarge | WriteFailed

  /** `mysqlConn`, as far as packets go. */
  class Conn {
    const nc: Network
    const buf: Buffer
    const maxAllowedPacket: nat
    var sequence: byte

    ghost predicate Valid()
      reads buf
    {
      buf.Valid() && buf.nc == nc
    }

    constructor (nc: Network, maxAllowedPacket: nat)
      ensures Valid() && fresh(buf) && fresh(buf.buf) && buf.Pending() == nc.incoming
      ensures this.nc == nc && sequence == 0 && this.maxAllowedPacket == maxAllowedPacket
    {
      this.nc := nc;
      buf := new Buffer(nc);
      this.maxAllowedPacket := maxAllowedPacket;
      sequence := 0;
    }

    /** `readPacket`: whatever way the network cuts the stream up, the outcome is that of
        parsing the whole stream; a failing network only adds failures. */
    method ReadPacket(faulty: bool) returns (r: Result<seq<byte>, ReadError>)
      requires Valid()
      modifies this`sequence, buf, buf.buf, nc`incoming
      ensures Valid()
      ensures Agrees(Parse(old(buf.Pending()), old(sequence), None), r, buf.Pending(), sequence)
           || (faulty && r == Failure(BadConn))
    {
      hide Length, Buffer.Pending, Buffer.Valid;
      var prev: Option<seq<byte>> := None;
      ghost var goal := Parse(buf.Pending(), sequence, None);
      while true
        invariant Valid() && (buf.buf == old(buf.buf) || fresh(buf.buf))
        invariant Parse(buf.Pending(), sequence, prev) == goal
        decreases |buf.Pending()|
      {
        ghost var stream := buf.Pending();
        var header := buf.ReadNext(4, faulty);
        if header.None? {
          return Failure(BadConn);
        }
        var pktLen := Length(header.value);
        if header.value[3] != sequence {
          return Failure(if header.value[3] > sequence then PktSyncMul else PktSync);
        }
        sequence := Succ(sequence);
        if pktLen == 0 {
          return if prev.None? then Failure(BadConn) else Success(prev.value);
        }
        var data := buf.ReadNext(pktLen, faulty);
        if data.None? {
          return Failure(BadConn);
        }
        var joined := (if prev.None? then [] else prev.value) + data.value;
        if pktLen < MAX_PACKET_SIZE {
          return Success(joined);
        }
        prev := Some(joined);
      }
    }

    /** The length and sequence bytes of a frame. */
    method StoreHeader(data: array<byte>, o: nat, size: nat)
      requires o + 4 <= data.Length
      modifies data
      ensures forall k :: 0 <= k < data.Length ==>
                data[k] == if o <= k < o + 4 then Header(size, sequence)[k - o] else old(data[k])
    {
      data[o], data[o + 1], data[o + 2], data[o + 3] :=
        ToByte(size), ToByte(size / 256), ToByte(size / 65536), sequence;
    }

    /** `writePacket` on `data[lo..hi]`, whose first four bytes are room for the header:
        the network gets exactly the framed payload, though later headers are written over
        payload bytes, because those were sent before. */
    method WritePacket(data: array<byte>, lo: nat, hi: nat, faulty: bool) returns (err: Option<WriteError>)
      requires lo + 4 <= hi <= data.Length
      modifies this`sequence, data, nc`outgoing
      ensures data[..lo] == old(data[..lo]) && data[hi..] == old(data[hi..])
      ensures err == Some(PktTooLarge) <==> hi - lo - 4 > maxAllowedPacket
      ensures err.Some? ==> faulty || hi - lo - 4 > maxAllowedPacket
      ensures err == Some(PktTooLarge) ==>
                data[..] == old(data[..]) && sequence == old(sequence) && nc.outgoing == old(nc.outgoing)
      ensures err.None? ==> nc.outgoing == old(nc.outgoing) + Frames(old(data[lo + 4..hi]), old(sequence))
      ensures err.None? ==> sequence == After(old(data[lo + 4..hi]), old(sequence))
      ensures err == Some(WriteFailed) ==> faulty && old(nc.outgoing) <= nc.outgoing
      ensures err == Some(WriteFailed) ==>
              nc.outgoing <= old(nc.outgoing) + Frames(old(data[lo + 4..hi]), old(sequence))
    {
      hide Frames, After, Header;
      var o, pktLen := lo, hi - lo - 4;
      if pktLen > maxAllowedPacket {
        return Some(PktTooLarge);
      }
      ghost var goal := nc.outgoing + Frames(data[lo + 4..hi], sequence);
      ghost var last := After(data[lo + 4..hi], sequence);
      while true
        invariant lo <= o && o + 4 + pktLen == hi && 0 <= pktLen
        invariant data[..lo] == old(data[..lo]) && data[hi..] == old(data[hi..])
        invariant old(nc.outgoing) <= nc.outgoing
        invariant nc.outgoing + Frames(data[o + 4..hi], sequence) == goal
        invariant After(data[o + 4..hi], sequence) == last
        decreases pktLen
      {
        ghost var left, was := data[o + 4..hi], data[..];
        var size := if pktLen >= MAX_PACKET_SIZE then MAX_PACKET_SIZE else pktLen;
        StoreHeader(data, o, size);
        Stored(was, data[..], Header(size, sequence), lo, o, size, hi);
        FirstFrame(left, sequence, size);
        var n, failed := nc.Write(data[o..o + 4 + size], faulty);
        if failed || n != 4 + size {
          return Some(WriteFailed);
        }
        sequence := Succ(sequence);
        if size != MAX_PACKET_SIZE {
          return None;
        }
        pktLen := pktLen - size;
        o := o + size;
      }
    }

    /** `writeCommandLongData`: the parameter goes out in commands that are never too
        large, in a buffer where each command's head overwrites data sent before. */
    method WriteCommandLongData(stmtId: nat, paramId: nat, arg: array<byte>, faulty: bool)
      returns (err: Option<WriteError>)
      requires maxAllowedPacket > LONG_DATA_OFFSET + 1
      modifies this`sequence, nc`outgoing
      ensures err != Some(PktTooLarge) && (err.Some? ==> faulty)
      ensures err.None? ==> sequence == 0
      ensures err.None? ==>
                nc.outgoing == old(nc.outgoing)
                             + LongData(LongDataHead(stmtId, paramId), arg[..], maxAllowedPacket - 1 - LONG_DATA_OFFSET)
    {
      hide Frames, After, LongDataHead, LongData;
      var maxLen := maxAllowedPacket - 1;
      var pktLen := maxLen;
      ghost var head, room := LongDataHead(stmtId, paramId), maxLen - LONG_DATA_OFFSET;
      ghost var whole := arg[..];
      ghost var goal := nc.outgoing + LongData(head, whole, room);
      var data := new byte[4 + LONG_DATA_OFFSET + arg.Length];
      CopyAt(data, 4 + LONG_DATA_OFFSET, arg[..]);
      var o, argLen := 0, arg.Length;
      assert data[11..] == data[..][11..] == whole;
      while argLen > 0
        invariant argLen >= 0 && o >= 0 && o + 11 + argLen == data.Length
        invariant pktLen == maxLen || argLen == 0
        invariant fresh(data) && arg[..] == whole
        invariant nc.outgoing + LongData(head, data[o + 11..], room) == goal
        decreases argLen
      {
        if LONG_DATA_OFFSET + argLen < maxLen {
          pktLen := LONG_DATA_OFFSET + argLen;
        }
        ghost var left, sent := data[o + 11..], nc.outgoing;
        FirstCommand(sent, head, left, room, pktLen - LONG_DATA_OFFSET);
        err := SendLongData(data, o, pktLen, stmtId, paramId, faulty);
        if err.Some? {
          return;
        }
        o := o + pktLen - LONG_DATA_OFFSET;
        argLen := argLen - (pktLen - LONG_DATA_OFFSET);
      }
      assert data[o + 11..] == [];
      NoCommand(head, room);
      sequence := 0;
      return None;
    }

    /** One round of that loop: the command with `pktLen` bytes at `o`. */
    method SendLongData(data: array<byte>, o: nat, pktLen: nat, stmtId: nat, paramId: nat, faulty: bool)
      returns (err: Option<WriteError>)
      requires LONG_DATA_OFFSET <= pktLen <= maxAllowedPacket && o + 4 + pktLen <= data.Length
      modifies this`sequence, data, nc`outgoing
      ensures err != Some(PktTooLarge) && (err.Some? ==> faulty)
      ensures data[o + 4 + pktLen..] == old(data[o + 11..][pktLen - LONG_DATA_OFFSET..])
      ensures err.None? ==>
                nc.outgoing == old(nc.outgoing)
                             + Frames(LongDataHead(stmtId, paramId) + old(data[o + 11..][..pktLen - LONG_DATA_OFFSET]),
                                 0)
    {
      hide Frames, After, LongDataHead;
      ghost var left := data[o + 11..];
      sequence := 0;
      StoreLongDataHead(data, o, stmtId, paramId);
      assert data[o + 4..o + 4 + pktLen] == data[o + 4..o + 11] + data[o + 11..o + 4 + pktLen];
      assert data[o + 11..o + 4 + pktLen] == left[..pktLen - LONG_DATA_OFFSET];
      err := WritePacket(data, o, o + 4 + pktLen, faulty);
    }

    /** The command, statement and parameter bytes of a long data command. */
    method StoreLongDataHead(data: array<byte>, o: nat, stmtId: nat, paramId: nat)
      requires o + 11 <= data.Length
      modifies data
      ensures data[o + 4..o + 11] == LongDataHead(stmtId, paramId)
      ensures data[..o + 4] == old(data[..o + 4]) && data[o + 11..] == old(data[o + 11..])
    {
      data[o + 4] := COM_STMT_SEND_LONG_DATA;
      data[o + 5], data[o + 6] := ToByte(stmtId), ToByte(stmtId / 0x100);
      data[o + 7], data[o + 8] := ToByte(stmtId / 0x1_0000), ToByte(stmtId / 0x100_0000);
      data[o + 9], data[o + 10] := ToByte(paramId), ToByte(paramId / 0x100);
    }
  }

  /** What one end writes the other reads: a payload sent in place and taken off a network
      that cuts the stream anywhere comes back whole, and both ends are at the same sequence
      number again. */
  method Transfer(sender: Conn, receiver: Conn, data: array<byte>, lo: nat, hi: nat)
    returns (r: Result<seq<byte>, ReadError>)
    requires receiver.Valid() && receiver.buf.Pending() == [] && sender.sequence == receiver.sequence
    requires sender != receiver && sender.nc != receiver.nc && data != receiver.buf.buf
    requires lo + 4 < hi <= data.Length && hi - lo - 4 <= sender.maxAllowedPacket
    modifies sender`sequence, receiver`sequence, sender.nc`outgoing, receiver.nc`incoming, receiver.buf,
        receiver.buf.buf, data
    ensures receiver.Valid() && r == Success(old(data[lo + 4..hi]))
    ensures receiver.buf.Pending() == [] && sender.sequence == receiver.sequence
  {
    hide Frames, After, Parse;
    ghost var payload, before, start := data[lo + 4..hi], sender.nc.outgoing, sender.sequence;
    var sent := |sender.nc.outgoing|;
    var err := sender.WritePacket(data, lo, hi, false);
    receiver.nc.incoming := receiver.nc.incoming + sender.nc.outgoing[sent..];
    assert receiver.buf.Pending() == Frames(payload, start);
    RoundTrip(payload, start, []);
    assert Frames(payload, start) + [] == Frames(payload, start);
    r := receiver.ReadPacket(false);
  }
}
