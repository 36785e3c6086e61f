/**
 `File.WriteTo` of the SFTP client: the rest of a file is fetched with many reads in
 flight; answers that arrive early wait in `pendingWrites` until their turn.  Both the
 server and the writer are adversaries.
 */
module SftpWriteTo {
  import opened Wrappers
  import opened SftpClient

  /** The variables of the copy loop; `reqs` maps a request id to its file offset, and
      `written` is everything the writer took. */
  datatype Copy = Copy(
    inFlight: nat, desiredInFlight: nat, offset: nat, writeOffset: nat, reqs: map<nat, nat>, nextId: nat,
    pending: map<nat, seq<byte>>, firstErr: OffsetError, written: seq<byte>, copied: nat)

  /** The answer of a truthful server to a read at `o`: all the file has there, or its end. */
  predicate Good(file: seq<byte>, maxPacket: nat, reqs: map<nat, nat>, r: Reply) {
    match r
    case Lost(_) => false
    case Status(id, status) => id in reqs && status == Some(Eof) && |file| <= reqs[id]
    case Data(id, data) => id in reqs && reqs[id] < |file| && |data| == Lesser(maxPacket, |file| - reqs[id])
  }

  /** The replies that may come: data is the file's and never empty.  A server that is not
      truthful may answer in part, refuse, confirm without data, report the end of the file
      where it is not, or drop the connection. */
  predicate Allowed(file: seq<byte>, maxPacket: nat, truthful: bool, reqs: map<nat, nat>, r: Reply) {
    && (truthful ==> Good(file, maxPacket, reqs, r))
    && (!r.Lost? ==> r.id in reqs)
    && (r.Data? ==> 0 < |r.data| <= maxPacket && reqs[r.id] + |r.data| <= |file|
                    && r.data == file[reqs[r.id]..reqs[r.id] + |r.data|])
  }

  /** What a writer does with data: how much it takes, and the error it reports, if any. */
  datatype Took = Took(n: nat, err: Option<Error>)

  /** A writer, given what it took before. */
  type Writer = (seq<byte>, seq<byte>) -> Took

  function Taken(w: Writer, written: seq<byte>, data: seq<byte>): (t: Took)
    ensures t.n <= |data|
  {
    var t := w(written, data);
    if t.n <= |data| then t else Took(|data|, t.err)
  }

  ghost predicate Reliable(w: Writer) {
    forall written, data :: w(written, data) == Took(|data|, None)
  }

  // ---------- the steps of the copy loop ----------

  /** One read request for the next `maxPacket` bytes. */
  function Send(s: Copy, maxPacket: nat, fileSize: nat): Copy {
    s.(reqs := s.reqs[s.nextId := s.offset], nextId := s.nextId + 1, inFlight := s.inFlight + 1,
       offset := s.offset + maxPacket,
       desiredInFlight := if s.offset + maxPacket > fileSize then 1 else s.desiredInFlight)
  }

  predicate MaySend(s: Copy) { s.firstErr.err.None? && s.inFlight + |s.pending| < s.desiredInFlight }

  /** A reply without data; an unknown id is an error. */
  function Fail(s: Copy, r: Reply): Copy
    requires s.inFlight > 0 && !r.Data?
  {
    match r
    case Lost(e) => s.(inFlight := s.inFlight - 1, firstErr := OffsetError(0, Some(e)))
    case Status(id, status) =>
      if id !in s.reqs then s.(inFlight := s.inFlight - 1, firstErr := OffsetError(0, Some(Other(-1))))
      else s.(inFlight := s.inFlight - 1, reqs := s.reqs - {id}, firstErr := Keep(s.firstErr, s.reqs[id], status))
  }

  /** A data reply leaves the request table. */
  function Accept(s: Copy, id: nat): Copy
    requires s.inFlight > 0
  {
    s.(inFlight := s.inFlight - 1, reqs := s.reqs - {id})
  }

  /** One that is not next in line waits. */
  function Park(s: Copy, id: nat, data: seq<byte>): Copy
    requires s.inFlight > 0 && id in s.reqs
  {
    Accept(s, id).(pending := s.pending[s.reqs[id] := data])
  }

  /** What went wrong with a write. */
  function Fault(t: Took, data: seq<byte>): Option<Error> {
    if t.err.Some? then t.err else if t.n < |data| then Some(ShortWrite) else None
  }

  predicate Bad(t: Took, data: seq<byte>) { Fault(t, data).Some? }

  /** Handing `data`, which belongs at `writeOffset`, to the writer. */
  function Emit(s: Copy, data: seq<byte>, t: Took): Copy
    requires t.n <= |data|
  {
    var s' := s.(written := s.written + data[..t.n]);
    if Bad(t, data) then s'.(firstErr := OffsetError(s.writeOffset + t.n, Fault(t, data)))
    else s'.(writeOffset := s.writeOffset + t.n)
  }

  /** Only chunks written as they arrive are counted. */
  function Tally(s: Copy, n: nat): Copy { s.(copied := s.copied + n) }

  /** The window after a chunk was written. */
  function Widen(s: Copy, fileSize: nat): Copy {
    s.(desiredInFlight := if s.offset > fileSize then 1
                          else if s.desiredInFlight < MAX_CONCURRENT_REQUESTS then s.desiredInFlight + 1
                          else s.desiredInFlight)
  }

  /** Taking a waiting chunk whose turn has come. */
  function Unpark(s: Copy): Copy { s.(pending := s.pending - {s.writeOffset}) }

  // ---------- what every step keeps ----------

  /** The writer has a contiguous prefix of what it should get. */
  ghost predicate Prefix(file: seq<byte>, start: nat, written: seq<byte>) {
    if start <= |file| then start + |written| <= |file| && written == file[start..start + |written|] else written == []
  }

  /** Chunks are issued at consecutive offsets from `start`, up to the next one to issue. */
  ghost predicate Chunks(start: nat, maxPacket: nat, offset: nat, issued: set<nat>) {
    && (forall o :: o in issued ==> start <= o && o + maxPacket <= offset)
    && (forall o :: o in issued ==> o + maxPacket == offset || o + maxPacket in issued)
    && (forall o, p :: o in issued && p in issued && o < p ==> o + maxPacket <= p)
  }

  /** What arrived is the file's; what waits arrived and is not written yet. */
  ghost predicate Arrived(file: seq<byte>, maxPacket: nat, writeOffset: nat, issued: set<nat>, got: map<nat, seq<byte>>,
                          pending: map<nat, seq<byte>>) {
    && (forall o :: o in got ==> o in issued && 0 < |got[o]| <= maxPacket && o + |got[o]| <= |file|)
    && (forall o :: o in got ==> got[o] == file[o..o + |got[o]|])
    && (forall o :: o in pending ==> o in got && pending[o] == got[o] && writeOffset <= o)
  }

  /** Each issued chunk arrived, was refused, or is outstanding, and then not written. */
  ghost predicate Sorted(writeOffset: nat, issued: set<nat>, got: set<nat>, out: set<nat>, refused: set<nat>) {
    && (forall o :: o in out ==> o in issued && o !in got && writeOffset <= o)
    && (forall o :: o in refused ==> o in issued && o !in got && o !in out)
    && (forall o :: o in issued ==> o in got || o in out || o in refused)
  }

  /** What was written: whole chunks and at last perhaps a short one.  What arrived is
      written or waits, except, with `hole`, the chunk at the write offset. */
  ghost predicate Tiled(maxPacket: nat, offset: nat, writeOffset: nat, issued: set<nat>, got: map<nat, seq<byte>>,
                        waiting: set<nat>, hole: bool) {
    && (forall o :: o in issued && o < writeOffset ==>
          o in got && if o + maxPacket <= writeOffset then |got[o]| == maxPacket else o + |got[o]| == writeOffset)
    && (forall o :: o in got ==> o < writeOffset || o in waiting || (hole && o == writeOffset))
    && (writeOffset in issued || writeOffset == offset || exists o :: o in issued && o < writeOffset < o + maxPacket)
    && (hole ==> writeOffset in issued && writeOffset in got && writeOffset !in waiting)
  }

  /** A moment of a run: the loop's variables, the offsets issued, what arrived, the offsets
      given up after a status, what went wrong with a write, whether the connection was lost,
      and how many of the bytes written had to wait. */
  datatype Trace = Trace(
    s: Copy, issued: set<nat>, got: map<nat, seq<byte>>, refused: set<nat>, fault: Option<Error>, hungUp: bool,
    late: nat)
  {
    const halted: bool := fault.Some?
  }

  /** The beginning of every run. */
  function Begin(start: nat): Trace { Trace(Start(start), {}, map[], {}, None, false, 0) }

  /** No two requests ask for the same offset. */
  ghost predicate Once(reqs: map<nat, nat>) {
    forall i, j :: i in reqs && j in reqs && i != j ==> reqs[i] != reqs[j]
  }

  /** Every offset is asked for under one id. */
  ghost predicate Table(s: Copy, hungUp: bool) {
    && (forall i :: i in s.reqs ==> i < s.nextId)
    && Once(s.reqs)
    && (if hungUp then s.inFlight < |s.reqs| else s.inFlight == |s.reqs|) && s.desiredInFlight >= 1
  }

  /** The writer's side: a prefix, up to the write offset unless a write went wrong. */
  ghost predicate Written(file: seq<byte>, start: nat, s: Copy, halted: bool) {
    && Prefix(file, start, s.written) && (!halted ==> s.writeOffset == start + |s.written|)
    && start <= s.writeOffset <= s.offset && (start <= |file| ==> s.writeOffset <= |file|)
  }

  ghost predicate Invariant(file: seq<byte>, start: nat, maxPacket: nat, t: Trace, hole: bool) {
    && Written(file, start, t.s, t.halted) && Table(t.s, t.hungUp)
    && Chunks(start, maxPacket, t.s.offset, t.issued)
    && Arrived(file, maxPacket, t.s.writeOffset, t.issued, t.got, t.s.pending)
    && Sorted(t.s.writeOffset, t.issued, t.got.Keys, t.s.reqs.Values, t.refused)
    && Tiled(maxPacket, t.s.offset, t.s.writeOffset, t.issued, t.got, t.s.pending.Keys, hole)
    && (t.halted ==> hole)
  }

  // ---------- single steps ----------

  lemma ValuesAdd(reqs: map<nat, nat>, id: nat, o: nat)
    requires id !in reqs
    ensures reqs[id := o].Values == reqs.Values + {o} && |reqs[id := o]| == |reqs| + 1
  {
    var r := reqs[id := o];
    assert r.Keys == reqs.Keys + {id};
    forall v | v in reqs.Values + {o} ensures v in r.Values {
      if v in reqs.Values {
        var i :| i in reqs && reqs[i] == v;
        assert i in r.Keys && r[i] == v;
      } else {
        assert id in r.Keys && r[id] == v;
      }
    }
  }

  lemma ValuesDrop(reqs: map<nat, nat>, id: nat)
    requires id in reqs && forall i, j :: i in reqs && j in reqs && i != j ==> reqs[i] != reqs[j]
    ensures (reqs - {id}).Values == reqs.Values - {reqs[id]} && |reqs - {id}| == |reqs| - 1
  {
    var r := reqs - {id};
    Fewer(reqs, id);
    forall v | v in reqs.Values - {reqs[id]} ensures v in r.Values {
      var i :| i in reqs && reqs[i] == v;
      assert i in r.Keys && r[i] == v;
    }
  }

  lemma KeysPut<V>(m: map<nat, V>, o: nat, v: V)
    ensures m[o := v].Keys == m.Keys + {o}
  {
  }

  lemma Use(file: seq<byte>, start: nat, maxPacket: nat, t: Trace, hole: bool)
    requires Invariant(file, start, maxPacket, t, hole)
    ensures Written(file, start, t.s, t.halted) && Table(t.s, t.hungUp) && (t.halted ==> hole)
    ensures Chunks(start, maxPacket, t.s.offset, t.issued)
    ensures Arrived(file, maxPacket, t.s.writeOffset, t.issued, t.got, t.s.pending)
    ensures Sorted(t.s.writeOffset, t.issued, t.got.Keys, t.s.reqs.Values, t.refused)
    ensures Tiled(maxPacket, t.s.offset, t.s.writeOffset, t.issued, t.got, t.s.pending.Keys, hole)
    ensures start <= t.s.writeOffset <= t.s.offset && t.s.nextId !in t.s.reqs && t.s.desiredInFlight >= 1
    ensures t.s.inFlight <= |t.s.reqs|
  {
  }

  lemma Make(file: seq<byte>, start: nat, maxPacket: nat, t: Trace, hole: bool)
    requires Written(file, start, t.s, t.halted) && Table(t.s, t.hungUp) && (t.halted ==> hole)
    requires Chunks(start, maxPacket, t.s.offset, t.issued)
    requires Arrived(file, maxPacket, t.s.writeOffset, t.issued, t.got, t.s.pending)
    requires Sorted(t.s.writeOffset, t.issued, t.got.Keys, t.s.reqs.Values, t.refused)
    requires Tiled(maxPacket, t.s.offset, t.s.writeOffset, t.issued, t.got, t.s.pending.Keys, hole)
    ensures Invariant(file, start, maxPacket, t, hole)
  {
  }

  lemma OncePut(reqs: map<nat, nat>, id: nat, o: nat)
    requires Once(reqs) && o !in reqs.Values
    ensures Once(reqs[id := o])
  {
    NotAValue(reqs, o);
  }

  lemma TableSend(s: Copy, hungUp: bool, maxPacket: nat, fileSize: nat)
    requires Table(s, hungUp) && s.offset !in s.reqs.Values
    ensures Table(Send(s, maxPacket, fileSize), hungUp)
    ensures Send(s, maxPacket, fileSize).reqs.Values == s.reqs.Values + {s.offset}
  {
    hide Once;
    ValuesAdd(s.reqs, s.nextId, s.offset);
    OncePut(s.reqs, s.nextId, s.offset);
  }

  lemma NotAValue(reqs: map<nat, nat>, o: nat)
    requires o !in reqs.Values
    ensures forall i :: i in reqs ==> reqs[i] != o
  {
    assert forall i :: i in reqs ==> reqs[i] in reqs.Values;
  }

  lemma TableDrop(s: Copy, hungUp: bool, id: nat, s': Copy)
    requires Table(s, hungUp) && s.inFlight > 0 && id in s.reqs
    requires s'.reqs == s.reqs - {id} && s'.inFlight == s.inFlight - 1 && s'.nextId == s.nextId
            && s'.desiredInFlight >= 1
    ensures Table(s', hungUp) && s.reqs[id] in s.reqs.Values && s'.reqs.Values == s.reqs.Values - {s.reqs[id]}
  {
    ValuesDrop(s.reqs, id);
  }

  lemma SendKeeps(file: seq<byte>, start: nat, maxPacket: nat, t: Trace, fileSize: nat)
    requires Invariant(file, start, maxPacket, t, t.halted) && maxPacket > 0
    ensures Invariant(file, start, maxPacket,
            t.(s := Send(t.s, maxPacket, fileSize), issued := t.issued + {t.s.offset}), t.halted)
  {
    hide Invariant, Written, Table, Chunks, Arrived, Sorted, Tiled;
    var s := t.s;
    var u := t.(s := Send(s, maxPacket, fileSize), issued := t.issued + {s.offset});
    Use(file, start, maxPacket, t, t.halted);
    ChunksSend(start, maxPacket, s.offset, t.issued);
    ArrivedSend(file, start, maxPacket, s.offset, s.writeOffset, t.issued, t.got, s.pending);
    SortedSend(s.offset, s.writeOffset, t.issued, t.got.Keys, s.reqs.Values, t.refused);
    TiledSend(maxPacket, s.offset, s.writeOffset, t.issued, t.got, s.pending.Keys, t.halted);
    TableSend(s, t.hungUp, maxPacket, fileSize);
    WrittenOn(file, start, s, u.s, t.halted);
    Make(file, start, maxPacket, u, t.halted);
  }

  lemma WrittenOn(file: seq<byte>, start: nat, s: Copy, s': Copy, halted: bool)
    requires Written(file, start, s, halted) && s'.written == s.written && s'.writeOffset == s.writeOffset
            && s.offset <= s'.offset
    ensures Written(file, start, s', halted)
  {
  }

  lemma ChunksSend(start: nat, maxPacket: nat, offset: nat, issued: set<nat>)
    requires Chunks(start, maxPacket, offset, issued) && maxPacket > 0 && start <= offset
    ensures Chunks(start, maxPacket, offset + maxPacket, issued + {offset}) && offset !in issued
  {
  }

  lemma ArrivedSend(file: seq<byte>, start: nat, maxPacket: nat, offset: nat, writeOffset: nat, issued: set<nat>,
                    got: map<nat, seq<byte>>, pending: map<nat, seq<byte>>)
    requires Chunks(start, maxPacket, offset, issued) && maxPacket > 0
    requires Arrived(file, maxPacket, writeOffset, issued, got, pending)
    ensures Arrived(file, maxPacket, writeOffset, issued + {offset}, got, pending) && offset !in got
  {
  }

  lemma SortedSend(offset: nat, writeOffset: nat, issued: set<nat>, got: set<nat>, out: set<nat>, refused: set<nat>)
    requires Sorted(writeOffset, issued, got, out, refused) && offset !in issued && offset !in got
            && writeOffset <= offset
    ensures Sorted(writeOffset, issued + {offset}, got, out + {offset}, refused) && offset !in out
  {
  }

  lemma TiledSend(maxPacket: nat, offset: nat, writeOffset: nat, issued: set<nat>, got: map<nat, seq<byte>>,
                  waiting: set<nat>, hole: bool)
    requires Tiled(maxPacket, offset, writeOffset, issued, got, waiting, hole) && writeOffset <= offset
    ensures Tiled(maxPacket, offset + maxPacket, writeOffset, issued + {offset}, got, waiting, hole)
  {
    if o :| o in issued && o < writeOffset < o + maxPacket {
      assert o in issued + {offset};
    }
  }

  lemma LostKeeps(file: seq<byte>, start: nat, maxPacket: nat, t: Trace, e: Error)
    requires Invariant(file, start, maxPacket, t, t.halted) && t.s.inFlight > 0
    ensures Invariant(file, start, maxPacket, t.(s := Fail(t.s, Lost(e)), hungUp := true), t.halted)
  {
    hide Prefix, Chunks, Arrived, Sorted, Tiled;
  }

  lemma StatusKeeps(file: seq<byte>, start: nat, maxPacket: nat, t: Trace, id: nat, status: Option<Error>)
    requires Invariant(file, start, maxPacket, t, t.halted) && t.s.inFlight > 0 && id in t.s.reqs
    ensures Invariant(file, start, maxPacket,
                      t.(s := Fail(t.s, Status(id, status)), refused := t.refused + {t.s.reqs[id]}), t.halted)
  {
    hide Invariant, Written, Table, Chunks, Arrived, Sorted, Tiled;
    var u := t.(s := Fail(t.s, Status(id, status)), refused := t.refused + {t.s.reqs[id]});
    Use(file, start, maxPacket, t, t.halted);
    TableDrop(t.s, t.hungUp, id, u.s);
    SortedRefuse(t.s.writeOffset, t.issued, t.got.Keys, t.s.reqs.Values, t.refused, t.s.reqs[id]);
    WrittenOn(file, start, t.s, u.s, t.halted);
    Make(file, start, maxPacket, u, t.halted);
  }

  lemma SortedRefuse(writeOffset: nat, issued: set<nat>, got: set<nat>, out: set<nat>, refused: set<nat>, o: nat)
    requires Sorted(writeOffset, issued, got, out, refused) && o in out
    ensures Sorted(writeOffset, issued, got, out - {o}, refused + {o})
  {
  }

  /** The facts about a data reply. */
  predicate Fits(file: seq<byte>, maxPacket: nat, o: nat, data: seq<byte>) {
    0 < |data| <= maxPacket && o + |data| <= |file| && data == file[o..o + |data|]
  }

  lemma SortedArrive(writeOffset: nat, issued: set<nat>, got: set<nat>, out: set<nat>, refused: set<nat>, o: nat)
    requires Sorted(writeOffset, issued, got, out, refused) && o in out
    ensures Sorted(writeOffset, issued, got + {o}, out - {o}, refused) && writeOffset <= o && o !in got && o in issued
  {
  }

  lemma ParkKeeps(file: seq<byte>, start: nat, maxPacket: nat, t: Trace, id: nat, data: seq<byte>)
    requires Invariant(file, start, maxPacket, t, t.halted) && t.s.inFlight > 0 && id in t.s.reqs
    requires Fits(file, maxPacket, t.s.reqs[id], data) && t.s.reqs[id] != t.s.writeOffset
    ensures Invariant(file, start, maxPacket, t.(s := Park(t.s, id, data), got := t.got[t.s.reqs[id] := data]),
            t.halted)
  {
    hide Invariant, Written, Table, Chunks, Arrived, Sorted, Tiled, Fits;
    var s, o: nat := t.s, t.s.reqs[id];
    var u := t.(s := Park(s, id, data), got := t.got[o := data]);
    Use(file, start, maxPacket, t, t.halted);
    TableDrop(s, t.hungUp, id, u.s);
    SortedArrive(s.writeOffset, t.issued, t.got.Keys, s.reqs.Values, t.refused, o);
    KeysPut(t.got, o, data);
    KeysPut(s.pending, o, data);
    ArrivedPark(file, maxPacket, s.writeOffset, t.issued, t.got, s.pending, o, data);
    TiledPark(maxPacket, s.offset, s.writeOffset, t.issued, t.got, s.pending.Keys, t.halted, o, data);
    WrittenOn(file, start, s, u.s, t.halted);
    Make(file, start, maxPacket, u, t.halted);
  }

  lemma ArrivedPark(file: seq<byte>, maxPacket: nat, writeOffset: nat, issued: set<nat>, got: map<nat, seq<byte>>,
                    pending: map<nat, seq<byte>>, o: nat, data: seq<byte>)
    requires Arrived(file, maxPacket, writeOffset, issued, got, pending) && o in issued && o !in got && writeOffset <= o
    requires Fits(file, maxPacket, o, data)
    ensures Arrived(file, maxPacket, writeOffset, issued, got[o := data], pending[o := data])
    ensures Arrived(file, maxPacket, writeOffset, issued, got[o := data], pending)
  {
    var g := got[o := data];
    forall p | p in g
      ensures p in issued && 0 < |g[p]| <= maxPacket && p + |g[p]| <= |file| && g[p] == file[p..p + |g[p]|]
    {
    }
  }

  lemma TiledPark(maxPacket: nat, offset: nat, writeOffset: nat, issued: set<nat>, got: map<nat, seq<byte>>,
                  waiting: set<nat>, hole: bool, o: nat, data: seq<byte>)
    requires Tiled(maxPacket, offset, writeOffset, issued, got, waiting, hole) && o !in got && writeOffset < o
    ensures Tiled(maxPacket, offset, writeOffset, issued, got[o := data], waiting + {o}, hole)
  {
  }

  lemma AcceptKeeps(file: seq<byte>, start: nat, maxPacket: nat, t: Trace, id: nat, data: seq<byte>)
    requires Invariant(file, start, maxPacket, t, false) && t.s.inFlight > 0 && id in t.s.reqs
    requires Fits(file, maxPacket, t.s.reqs[id], data) && t.s.reqs[id] == t.s.writeOffset
    ensures Invariant(file, start, maxPacket, t.(s := Accept(t.s, id), got := t.got[t.s.reqs[id] := data]), true)
  {
    hide Invariant, Written, Table, Chunks, Arrived, Sorted, Tiled, Fits;
    var s, o: nat := t.s, t.s.reqs[id];
    var u := t.(s := Accept(s, id), got := t.got[o := data]);
    Use(file, start, maxPacket, t, false);
    TableDrop(s, t.hungUp, id, u.s);
    SortedArrive(s.writeOffset, t.issued, t.got.Keys, s.reqs.Values, t.refused, o);
    KeysPut(t.got, o, data);
    ArrivedPark(file, maxPacket, s.writeOffset, t.issued, t.got, s.pending, o, data);
    TiledAccept(file, maxPacket, s.offset, s.writeOffset, t.issued, t.got, s.pending, data);
    WrittenOn(file, start, s, u.s, t.halted);
    Make(file, start, maxPacket, u, true);
  }

  lemma TiledAccept(file: seq<byte>, maxPacket: nat, offset: nat, writeOffset: nat, issued: set<nat>,
                    got: map<nat, seq<byte>>, pending: map<nat, seq<byte>>, data: seq<byte>)
    requires Tiled(maxPacket, offset, writeOffset, issued, got, pending.Keys, false)
    requires Arrived(file, maxPacket, writeOffset, issued, got, pending) && writeOffset !in got && writeOffset in issued
    ensures Tiled(maxPacket, offset, writeOffset, issued, got[writeOffset := data], pending.Keys, true)
  {
  }

  lemma UnparkKeeps(file: seq<byte>, start: nat, maxPacket: nat, t: Trace)
    requires Invariant(file, start, maxPacket, t, false) && t.s.writeOffset in t.s.pending
    ensures Invariant(file, start, maxPacket, t.(s := Unpark(t.s)), true)
    ensures t.s.writeOffset in t.got && t.s.pending[t.s.writeOffset] == t.got[t.s.writeOffset]
  {
    hide Invariant, Written, Table, Chunks, Sorted, Arrived, Tiled;
    var s, u := t.s, t.(s := Unpark(t.s));
    Use(file, start, maxPacket, t, false);
    ShapeUnpark(file, maxPacket, s.offset, s.writeOffset, t.issued, t.got, s.pending);
    WrittenOn(file, start, s, u.s, t.halted);
    TableSame(s, u.s, t.hungUp);
    Make(file, start, maxPacket, u, true);
  }

  lemma ShapeUnpark(file: seq<byte>, maxPacket: nat, offset: nat, writeOffset: nat, issued: set<nat>,
                    got: map<nat, seq<byte>>, pending: map<nat, seq<byte>>)
    requires Arrived(file, maxPacket, writeOffset, issued, got, pending) && writeOffset in pending
    requires Tiled(maxPacket, offset, writeOffset, issued, got, pending.Keys, false)
    ensures writeOffset in got && pending[writeOffset] == got[writeOffset]
    ensures Arrived(file, maxPacket, writeOffset, issued, got, pending - {writeOffset})
    ensures Tiled(maxPacket, offset, writeOffset, issued, got, (pending - {writeOffset}).Keys, true)
  {
    assert (pending - {writeOffset}).Keys == pending.Keys - {writeOffset};
  }

  lemma TableSame(s: Copy, s': Copy, hungUp: bool)
    requires Table(s, hungUp) && s'.reqs == s.reqs && s'.nextId == s.nextId && s'.inFlight == s.inFlight
    requires s'.desiredInFlight >= 1
    ensures Table(s', hungUp)
  {
  }

  /** Writing the chunk that is due: the prefix grows, or a write goes wrong and nothing is
      written any more. */
  lemma EmitKeeps(file: seq<byte>, start: nat, maxPacket: nat, t: Trace, took: Took)
    requires Invariant(file, start, maxPacket, t, true) && !t.halted && maxPacket > 0
    requires t.s.writeOffset in t.got && took.n <= |t.got[t.s.writeOffset]|
    ensures var data := t.got[t.s.writeOffset];
            Invariant(file, start, maxPacket, t.(s := Emit(t.s, data, took), fault := Fault(took, data)),
                Bad(took, data))
  {
    hide Invariant, Written, Table, Chunks, Arrived, Sorted, Tiled, Emit, Fault;
    var s, o: nat := t.s, t.s.writeOffset;
    var data := t.got[o];
    EmitFacts(s, data, took);
    Use(file, start, maxPacket, t, true);
    ArrivedAt(file, maxPacket, o, t.issued, t.got, s.pending);
    EmitShape(file, start, maxPacket, s.offset, o, t.issued, t.got, s.pending, s.reqs.Values, t.refused);
    WrittenMore(file, start, s, data, took);
    var u := t.(s := Emit(s, data, took), fault := Fault(took, data));
    if Bad(took, data) {
      EmitHalts(file, start, maxPacket, t, u);
    } else {
      EmitGoes(file, start, maxPacket, t, u, o + |data|);
    }
  }

  /** Only what concerns the writer changed. */
  predicate SameButWriter(t: Trace, u: Trace) {
    && u.issued == t.issued && u.got == t.got && u.refused == t.refused && u.hungUp == t.hungUp
    && u.s.reqs == t.s.reqs && u.s.nextId == t.s.nextId && u.s.inFlight == t.s.inFlight
    && u.s.desiredInFlight == t.s.desiredInFlight && u.s.pending == t.s.pending && u.s.offset == t.s.offset
  }

  lemma EmitHalts(file: seq<byte>, start: nat, maxPacket: nat, t: Trace, u: Trace)
    requires Invariant(file, start, maxPacket, t, true) && SameButWriter(t, u) && u.halted
    requires u.s.writeOffset == t.s.writeOffset && Written(file, start, u.s, true)
    ensures Invariant(file, start, maxPacket, u, true)
  {
    hide Written, Chunks, Arrived, Sorted, Tiled;
  }

  lemma EmitGoes(file: seq<byte>, start: nat, maxPacket: nat, t: Trace, u: Trace, next: nat)
    requires Invariant(file, start, maxPacket, t, true) && SameButWriter(t, u) && !u.halted
    requires u.s.writeOffset == next && Written(file, start, u.s, false)
    requires Arrived(file, maxPacket, next, t.issued, t.got, t.s.pending)
    requires Sorted(next, t.issued, t.got.Keys, t.s.reqs.Values, t.refused)
    requires Tiled(maxPacket, t.s.offset, next, t.issued, t.got, t.s.pending.Keys, false)
    ensures Invariant(file, start, maxPacket, u, false)
  {
    hide Written, Chunks, Arrived, Sorted, Tiled;
  }

  lemma EmitFacts(s: Copy, data: seq<byte>, took: Took)
    requires took.n <= |data|
    ensures var u := Emit(s, data, took);
            u.reqs == s.reqs && u.nextId == s.nextId && u.inFlight == s.inFlight
                && u.desiredInFlight == s.desiredInFlight
            && u.pending == s.pending && u.offset == s.offset
            && u.writeOffset == s.writeOffset + (if Bad(took, data) then 0 else |data|)
            && (Bad(took, data) ==> u.firstErr.err.Some?) && (!Bad(took, data) ==> u.firstErr == s.firstErr)
  {
  }

  lemma WrittenMore(file: seq<byte>, start: nat, s: Copy, data: seq<byte>, took: Took)
    requires Written(file, start, s, false) && took.n <= |data| && s.writeOffset + |data| <= |file|
    requires data == file[s.writeOffset..s.writeOffset + |data|] && s.writeOffset + |data| <= s.offset
    ensures Written(file, start, Emit(s, data, took), Bad(took, data))
  {
    hide Prefix;
    PrefixMore(file, start, s.written, data, took.n);
  }

  lemma ArrivedAt(file: seq<byte>, maxPacket: nat, writeOffset: nat, issued: set<nat>, got: map<nat, seq<byte>>,
                  pending: map<nat, seq<byte>>)
    requires Arrived(file, maxPacket, writeOffset, issued, got, pending) && writeOffset in got
    ensures var data := got[writeOffset];
            writeOffset + |data| <= |file| && data == file[writeOffset..writeOffset + |data|] && 0 < |data| <= maxPacket
            && writeOffset in issued
  {
  }

  lemma PrefixMore(file: seq<byte>, start: nat, written: seq<byte>, data: seq<byte>, n: nat)
    requires Prefix(file, start, written) && n <= |data| && start + |written| + |data| <= |file|
    requires data == file[start + |written|..start + |written| + |data|]
    ensures Prefix(file, start, written + data[..n])
  {
    assert written + data[..n] == file[start..start + |written| + n];
  }

  /** Every offset asked for after `o` lies beyond the chunk at `o`. */
  lemma AfterChunk(start: nat, maxPacket: nat, offset: nat, o: nat, issued: set<nat>, len: nat)
    requires Chunks(start, maxPacket, offset, issued) && o in issued && 0 < len <= maxPacket
    ensures o + len <= offset && forall p :: p in issued && o < p ==> o + len <= p
  {
  }

  lemma HoleFilled(maxPacket: nat, offset: nat, o: nat, issued: set<nat>, got: map<nat, seq<byte>>, waiting: set<nat>)
    requires Tiled(maxPacket, offset, o, issued, got, waiting, true)
    ensures o in issued && o in got && o !in waiting
  {
  }

  lemma EmitTiles(start: nat, maxPacket: nat, offset: nat, o: nat, issued: set<nat>, got: map<nat, seq<byte>>,
                  waiting: set<nat>)
    requires Chunks(start, maxPacket, offset, issued) && o in issued && o in got && 0 < |got[o]| <= maxPacket
    requires Tiled(maxPacket, offset, o, issued, got, waiting, true)
    ensures Tiled(maxPacket, offset, o + |got[o]|, issued, got, waiting, false)
  {
    var next := o + |got[o]|;
    forall p: nat | p in issued && p < next
      ensures p in got && if p + maxPacket <= next then |got[p]| == maxPacket else p + |got[p]| == next
    {
      if p < o {
        assert p + maxPacket <= o;
      }
    }
    if |got[o]| < maxPacket {
      assert o in issued && o < next < o + maxPacket;
    }
  }

  lemma EmitShape(file: seq<byte>, start: nat, maxPacket: nat, offset: nat, o: nat, issued: set<nat>,
                  got: map<nat, seq<byte>>, pending: map<nat, seq<byte>>, out: set<nat>, refused: set<nat>)
    requires Chunks(start, maxPacket, offset, issued) && Arrived(file, maxPacket, o, issued, got, pending)
            && maxPacket > 0
    requires Sorted(o, issued, got.Keys, out, refused) && Tiled(maxPacket, offset, o, issued, got, pending.Keys, true)
    ensures o in got && var next := o + |got[o]|;
            && Arrived(file, maxPacket, next, issued, got, pending) && Sorted(next, issued, got.Keys, out, refused)
            && Tiled(maxPacket, offset, next, issued, got, pending.Keys, false) && next <= offset
  {
    hide Chunks, Tiled;
    HoleFilled(maxPacket, offset, o, issued, got, pending.Keys);
    AfterChunk(start, maxPacket, offset, o, issued, |got[o]|);
    EmitTiles(start, maxPacket, offset, o, issued, got, pending.Keys);
  }

  // ---------- runs ----------

  function Start(start: nat): Copy { Copy(0, 1, start, start, map[], 0, map[], NO_ERROR, [], 0) }

  /** Requests go out while the window allows. */
  ghost function Issue(t: Trace, maxPacket: nat, fileSize: nat): Trace
    decreases t.s.desiredInFlight - t.s.inFlight - |t.s.pending|
  {
    if MaySend(t.s) then
      Issue(t.(s := Send(t.s, maxPacket, fileSize), issued := t.issued + {t.s.offset}), maxPacket, fileSize)
    else t
  }

  ghost function EmitT(t: Trace, data: seq<byte>, w: Writer): Trace {
    var took := Taken(w, t.s.written, data);
    t.(s := Emit(t.s, data, took), fault := Fault(took, data))
  }

  /** A waiting chunk whose turn has come. */
  ghost function EmitLate(t: Trace, w: Writer): Trace
    requires t.s.writeOffset in t.s.pending
  {
    var data := t.s.pending[t.s.writeOffset];
    EmitT(t.(s := Unpark(t.s)), data, w).(late := t.late + Taken(w, t.s.written, data).n)
  }

  /** A chunk written as it arrives. */
  ghost function EmitNow(t: Trace, w: Writer, id: nat, data: seq<byte>): Trace
    requires t.s.inFlight > 0
  {
    var u := EmitT(t.(s := Accept(t.s, id), got := t.got[t.s.writeOffset := data]), data, w);
    u.(s := Tally(u.s, Taken(w, t.s.written, data).n))
  }

  /** The waiting chunks whose turn has come. */
  ghost function Flush(t: Trace, w: Writer): Trace
    decreases |t.s.pending|
  {
    if t.s.writeOffset in t.s.pending then
      var u := EmitLate(t, w);
      EmitFacts(Unpark(t.s), t.s.pending[t.s.writeOffset], Taken(w, t.s.written, t.s.pending[t.s.writeOffset]));
      assert t.s.pending.Keys == (t.s.pending - {t.s.writeOffset}).Keys + {t.s.writeOffset};
      if u.halted then u else Flush(u, w)
    else t
  }

  /** A chunk that is due, and the waiting ones that follow it. */
  ghost function Due(t: Trace, w: Writer, fileSize: nat, id: nat, data: seq<byte>): Trace
    requires t.s.inFlight > 0
  {
    var u := EmitNow(t, w, id, data);
    if u.halted then u else Flush(u.(s := Widen(u.s, fileSize)), w)
  }

  ghost function Take(t: Trace, w: Writer, fileSize: nat, r: Reply): Trace
    requires t.s.inFlight > 0
  {
    if r.Lost? || r.id !in t.s.reqs then
      t.(s := Fail(t.s, if r.Lost? then r else Lost(Other(-1))), hungUp := true)
    else
      var o := t.s.reqs[r.id];
      match r
      case Status(_, _) => t.(s := Fail(t.s, r), refused := t.refused + {o})
      case Data(id, data) =>
        if o == t.s.writeOffset then Due(t, w, fileSize, id, data)
        else t.(s := Park(t.s, id, data), got := t.got[o := data])
  }

  /** A run: what `WriteTo` from `start` to writer `w` has done once it received `replies`
      and issued what it could. */
  ghost function Run(start: nat, fileSize: nat, maxPacket: nat, w: Writer, replies: seq<Reply>): Trace {
    if replies == [] then Issue(Begin(start), maxPacket, fileSize)
    else
      var t := Run(start, fileSize, maxPacket, w, replies[..|replies| - 1]);
      if t.s.inFlight == 0 then t else Issue(Take(t, w, fileSize, replies[|replies| - 1]), maxPacket, fileSize)
  }

  /** Replies that may come, in this order, about `file`. */
  ghost predicate Admissible(file: seq<byte>, start: nat, maxPacket: nat, w: Writer, truthful: bool,
                             replies: seq<Reply>)
  {
    replies != [] ==>
      var before, r := replies[..|replies| - 1], replies[|replies| - 1];
      var t := Run(start, |file|, maxPacket, w, before);
      Admissible(file, start, maxPacket, w, truthful, before) && t.s.inFlight > 0
      && Allowed(file, maxPacket, truthful, t.s.reqs, r)
  }

  /** With a truthful server: only the end of the file is refused, chunks are whole, and the
      error kept is the end of the file or what went wrong with a write. */
  ghost predicate Honest(file: seq<byte>, maxPacket: nat, t: Trace) {
    && !t.hungUp && (forall o :: o in t.refused ==> |file| <= o)
    && (forall o :: o in t.got ==> o < |file| && |t.got[o]| == Lesser(maxPacket, |file| - o))
    && (if t.halted then t.s.firstErr.err == t.fault && t.s.firstErr.offset <= |file|
        else t.s.firstErr.err.Some? ==> t.s.firstErr.err == Some(Eof) && |file| <= t.s.firstErr.offset < t.s.offset)
  }

  lemma Started(file: seq<byte>, start: nat, maxPacket: nat)
    ensures var t := Begin(start);
            Invariant(file, start, maxPacket, t, false) && Honest(file, maxPacket, t) && t.s.writeOffset !in t.s.pending
  {
  }

  /** An error is kept that lies before everything outstanding behind a chunk at the write
      offset. */
  predicate Pinned(maxPacket: nat, s: Copy) {
    s.firstErr.err.Some? && s.firstErr.offset <= s.writeOffset + maxPacket
  }

  /** At rest, no waiting chunk is due, and once a write went wrong an error is pinned. */
  ghost predicate AtRest(file: seq<byte>, start: nat, maxPacket: nat, t: Trace) {
    && Invariant(file, start, maxPacket, t, t.halted) && t.s.writeOffset !in t.s.pending
    && (t.halted ==> Pinned(maxPacket, t.s))
  }

  lemma HaltedRests(file: seq<byte>, start: nat, maxPacket: nat, t: Trace)
    requires Invariant(file, start, maxPacket, t, true)
    ensures t.s.writeOffset !in t.s.pending
  {
  }

  /** Trying to write the chunk that is due. */
  lemma EmitStep(file: seq<byte>, start: nat, maxPacket: nat, t: Trace, w: Writer)
    requires Invariant(file, start, maxPacket, t, true) && !t.halted && maxPacket > 0 && t.s.writeOffset in t.got
    ensures var u := EmitT(t, t.got[t.s.writeOffset], w);
            && Invariant(file, start, maxPacket, u, u.halted)
            && u == t.(s := u.s, fault := u.fault) && u.s.reqs == t.s.reqs && u.s.inFlight == t.s.inFlight
            && u.s.offset == t.s.offset && u.s.pending == t.s.pending
            && (u.halted ==> u.s.firstErr.err == u.fault && Pinned(maxPacket, u.s))
            && (!u.halted ==> u.s.firstErr == t.s.firstErr)
            && (Honest(file, maxPacket, t) ==> Honest(file, maxPacket, u)) && (Reliable(w) ==> !u.halted)
  {
    hide Invariant, Honest;
    var data := t.got[t.s.writeOffset];
    var took := Taken(w, t.s.written, data);
    EmitKeeps(file, start, maxPacket, t, took);
    EmitFacts(t.s, data, took);
    Use(file, start, maxPacket, t, true);
    ArrivedAt(file, maxPacket, t.s.writeOffset, t.issued, t.got, t.s.pending);
    if Honest(file, maxPacket, t) {
      HonestEmit(file, maxPacket, t, data, took);
    }
  }

  lemma HonestEmit(file: seq<byte>, maxPacket: nat, t: Trace, data: seq<byte>, took: Took)
    requires Honest(file, maxPacket, t) && !t.halted && took.n <= |data| && t.s.writeOffset + |data| <= |file|
    ensures Honest(file, maxPacket, t.(s := Emit(t.s, data, took), fault := Fault(took, data)))
  {
  }

  /** Writing waiting chunks ends at rest. */
  lemma {:induction false} FlushKeeps(file: seq<byte>, start: nat, maxPacket: nat, t: Trace, w: Writer)
    requires Invariant(file, start, maxPacket, t, false) && !t.halted && maxPacket > 0
    ensures var u := Flush(t, w);
            && AtRest(file, start, maxPacket, u) && u == t.(s := u.s, fault := u.fault, late := u.late)
            && (if u.halted then u.s.firstErr.err == u.fault else u.s.firstErr == t.s.firstErr)
            && u.s.reqs == t.s.reqs && u.s.inFlight == t.s.inFlight && u.s.offset == t.s.offset
            && (t.s.firstErr.err.Some? ==> u.s.firstErr.err.Some?)
            && (Honest(file, maxPacket, t) ==> Honest(file, maxPacket, u)) && (Reliable(w) ==> !u.halted)
    decreases |t.s.pending|
  {
    hide Invariant, Honest, EmitT, Reliable, Pinned;
    if t.s.writeOffset in t.s.pending {
      var v := t.(s := Unpark(t.s));
      UnparkKeeps(file, start, maxPacket, t);
      HonestUnpark(file, maxPacket, t);
      EmitStep(file, start, maxPacket, v, w);
      var e, u := EmitT(v, t.s.pending[t.s.writeOffset], w), EmitLate(t, w);
      Recounted(file, start, maxPacket, e, u);
      Fewer(t.s.pending, t.s.writeOffset);
      if u.halted {
        HaltedRests(file, start, maxPacket, u);
      } else {
        FlushKeeps(file, start, maxPacket, u, w);
      }
    }
  }

  /** The counts do not matter to anything else. */
  lemma Recounted(file: seq<byte>, start: nat, maxPacket: nat, t: Trace, u: Trace)
    requires u == t.(s := t.s.(copied := u.s.copied), late := u.late)
    ensures Invariant(file, start, maxPacket, t, t.halted) ==> Invariant(file, start, maxPacket, u, u.halted)
    ensures Honest(file, maxPacket, t) ==> Honest(file, maxPacket, u)
  {
    hide Prefix, Chunks, Arrived, Sorted, Tiled, Once;
  }

  lemma HonestUnpark(file: seq<byte>, maxPacket: nat, t: Trace)
    ensures Honest(file, maxPacket, t) ==> Honest(file, maxPacket, t.(s := Unpark(t.s)))
  {
  }

  lemma DueKeeps(file: seq<byte>, start: nat, maxPacket: nat, t: Trace, w: Writer, id: nat, data: seq<byte>)
    requires Invariant(file, start, maxPacket, t, false) && !t.halted && t.s.inFlight > 0 && id in t.s.reqs
            && maxPacket > 0
    requires Fits(file, maxPacket, t.s.reqs[id], data) && t.s.reqs[id] == t.s.writeOffset
    ensures var u := Due(t, w, |file|, id, data);
            && AtRest(file, start, maxPacket, u) && u.s.reqs == t.s.reqs - {id} && u.s.inFlight == t.s.inFlight - 1
            && u.s.offset == t.s.offset && (t.s.firstErr.err.Some? ==> u.s.firstErr.err.Some?)
            && (u.halted ==> u.s.firstErr.err == u.fault)
            && u.refused == t.refused && (!u.halted ==> u.s.firstErr == t.s.firstErr)
            && (Honest(file, maxPacket, t) && |data| == Lesser(maxPacket, |file| - t.s.reqs[id]) ==>
                Honest(file, maxPacket, u))
            && (Reliable(w) ==> !u.halted)
  {
    hide Invariant, Honest, EmitT, Flush, Fits, Reliable;
    var o: nat := t.s.writeOffset;
    var v := t.(s := Accept(t.s, id), got := t.got[o := data]);
    AcceptKeeps(file, start, maxPacket, t, id, data);
    FitsUse(file, maxPacket, o, data);
    HonestGot(file, maxPacket, t, v, o, data);
    EmitStep(file, start, maxPacket, v, w);
    var e, u := EmitT(v, data, w), EmitNow(t, w, id, data);
    Recounted(file, start, maxPacket, e, u);
    if u.halted {
      HaltedRests(file, start, maxPacket, u);
    } else {
      var x := u.(s := Widen(u.s, |file|));
      WidenKeeps(file, start, maxPacket, u);
      FlushKeeps(file, start, maxPacket, x, w);
    }
  }

  lemma FitsUse(file: seq<byte>, maxPacket: nat, o: nat, data: seq<byte>)
    requires Fits(file, maxPacket, o, data)
    ensures o + |data| <= |file| && |data| > 0
  {
  }

  lemma HonestGot(file: seq<byte>, maxPacket: nat, t: Trace, v: Trace, o: nat, data: seq<byte>)
    requires o < |file| && v == t.(s := v.s, got := t.got[o := data])
    requires v.s.firstErr == t.s.firstErr && v.s.offset == t.s.offset
    ensures Honest(file, maxPacket, t) && |data| == Lesser(maxPacket, |file| - o) ==> Honest(file, maxPacket, v)
  {
  }

  lemma WidenKeeps(file: seq<byte>, start: nat, maxPacket: nat, t: Trace)
    requires Invariant(file, start, maxPacket, t, false)
    ensures Invariant(file, start, maxPacket, t.(s := Widen(t.s, |file|)), false)
    ensures Honest(file, maxPacket, t) ==> Honest(file, maxPacket, t.(s := Widen(t.s, |file|)))
  {
    hide Prefix, Chunks, Arrived, Sorted, Tiled;
  }

  /** Every reply, in any order, keeps the invariant. */
  lemma Received(file: seq<byte>, start: nat, maxPacket: nat, t: Trace, w: Writer, truthful: bool, r: Reply)
    requires AtRest(file, start, maxPacket, t) && t.s.inFlight > 0 && maxPacket > 0
    requires Allowed(file, maxPacket, truthful, t.s.reqs, r)
    ensures var u := Take(t, w, |file|, r);
            && AtRest(file, start, maxPacket, u) && u.s.inFlight == t.s.inFlight - 1 && u.s.offset == t.s.offset
            && (truthful && Honest(file, maxPacket, t) ==> Honest(file, maxPacket, u))
            && (!r.Lost? ==> r.id in t.s.reqs && u.s.reqs == t.s.reqs - {r.id})
            && (t.s.firstErr.err.Some? && !(r.Status? && r.status.None?) ==> u.s.firstErr.err.Some?)
            && (r.Lost? || (r.Status? && r.status.Some? && t.s.firstErr.err.None?) ==> u.s.firstErr.err.Some?)
            && (Reliable(w) && !t.halted ==> !u.halted)
            && (t.halted ==> u.fault == t.fault && u.s.written == t.s.written
                             && u.s.firstErr == if r.Lost? then OffsetError(0, Some(r.err)) else t.s.firstErr)
            && (!t.halted && u.halted ==> u.s.firstErr.err == u.fault)
  {
    hide Invariant, Honest, Due, Fits, Reliable;
    if t.halted && !r.Lost? {
      Behind(file, start, maxPacket, t, r.id);
    }
    match r {
      case Lost(e) => LostKeeps(file, start, maxPacket, t, e);
      case Status(id, status) =>
        StatusKeeps(file, start, maxPacket, t, id, status);
        if truthful && Honest(file, maxPacket, t) {
          HonestStatus(file, start, maxPacket, t, id);
        }
      case Data(id, data) =>
        var o: nat := t.s.reqs[id];
        FitsMake(file, maxPacket, o, data);
        if o == t.s.writeOffset {
          NotHalted(file, start, maxPacket, t, id);
          DueKeeps(file, start, maxPacket, t, w, id, data);
        } else {
          ParkKeeps(file, start, maxPacket, t, id, data);
          HonestGot(file, maxPacket, t, t.(s := Park(t.s, id, data), got := t.got[o := data]), o, data);
        }
    }
  }

  /** Once a write went wrong, everything outstanding lies a packet or more behind the write
      offset, so no status replaces the error that is kept. */
  lemma Behind(file: seq<byte>, start: nat, maxPacket: nat, t: Trace, id: nat)
    requires Invariant(file, start, maxPacket, t, true) && id in t.s.reqs
    ensures t.s.writeOffset + maxPacket <= t.s.reqs[id]
  {
    hide Prefix, Arrived;
    assert t.s.reqs[id] in t.s.reqs.Values;
  }

  lemma FitsMake(file: seq<byte>, maxPacket: nat, o: nat, data: seq<byte>)
    requires 0 < |data| <= maxPacket && o + |data| <= |file| && data == file[o..o + |data|]
    ensures Fits(file, maxPacket, o, data)
  {
  }

  /** Once a write went wrong, no request at the write offset is outstanding. */
  lemma NotHalted(file: seq<byte>, start: nat, maxPacket: nat, t: Trace, id: nat)
    requires Invariant(file, start, maxPacket, t, t.halted) && id in t.s.reqs && t.s.reqs[id] == t.s.writeOffset
    ensures !t.halted
  {
    assert t.s.reqs[id] in t.s.reqs.Values;
  }

  lemma HonestStatus(file: seq<byte>, start: nat, maxPacket: nat, t: Trace, id: nat)
    requires Invariant(file, start, maxPacket, t, t.halted) && Honest(file, maxPacket, t) && maxPacket > 0
    requires t.s.inFlight > 0 && id in t.s.reqs && |file| <= t.s.reqs[id]
    ensures Honest(file, maxPacket, t.(s := Fail(t.s, Status(id, Some(Eof))), refused := t.refused + {t.s.reqs[id]}))
  {
    hide Prefix, Arrived, Tiled;
    assert t.s.reqs[id] in t.s.reqs.Values;
  }

  /** The outstanding requests inside the file. */
  ghost function Inside(file: seq<byte>, reqs: map<nat, nat>): set<nat> {
    set i | i in reqs && reqs[i] < |file|
  }

  lemma InsideDrop(file: seq<byte>, reqs: map<nat, nat>, id: nat)
    requires id in reqs && reqs[id] < |file|
    ensures |Inside(file, reqs - {id})| == |Inside(file, reqs)| - 1
  {
    assert Inside(file, reqs) == Inside(file, reqs - {id}) + {id};
  }

  lemma InsideSend(file: seq<byte>, reqs: map<nat, nat>, id: nat, o: nat)
    requires id !in reqs && |file| <= o
    ensures Inside(file, reqs[id := o]) == Inside(file, reqs)
  {
  }

  /** Issuing requests keeps the invariant. */
  lemma {:induction false} Sent(file: seq<byte>, start: nat, maxPacket: nat, t: Trace)
    requires AtRest(file, start, maxPacket, t) && maxPacket > 0
    ensures var u := Issue(t, maxPacket, |file|);
            && AtRest(file, start, maxPacket, u) && !MaySend(u.s) && u.s.firstErr == t.s.firstErr
            && (t.s.firstErr.err.Some? ==> u == t) && (Honest(file, maxPacket, t) ==> Honest(file, maxPacket, u))
            && u.halted == t.halted && t.s.offset <= u.s.offset && (u.s.offset == t.s.offset ==> u == t)
            && (|file| <= t.s.offset ==> Inside(file, u.s.reqs) == Inside(file, t.s.reqs))
    decreases t.s.desiredInFlight - t.s.inFlight - |t.s.pending|
  {
    hide Invariant, Honest, Inside;
    if MaySend(t.s) {
      SendKeeps(file, start, maxPacket, t, |file|);
      HonestSend(file, maxPacket, t);
      Use(file, start, maxPacket, t, t.halted);
      if |file| <= t.s.offset {
        InsideSend(file, t.s.reqs, t.s.nextId, t.s.offset);
      }
      Sent(file, start, maxPacket, t.(s := Send(t.s, maxPacket, |file|), issued := t.issued + {t.s.offset}));
    }
  }

  lemma HonestSend(file: seq<byte>, maxPacket: nat, t: Trace)
    ensures Honest(file, maxPacket, t) ==>
              Honest(file, maxPacket, t.(s := Send(t.s, maxPacket, |file|), issued := t.issued + {t.s.offset}))
  {
  }

  /** Every admissible run keeps the invariant. */
  lemma {:induction false} Sound(file: seq<byte>, start: nat, maxPacket: nat, w: Writer, truthful: bool,
                                 replies: seq<Reply>)
    requires maxPacket > 0 && Admissible(file, start, maxPacket, w, truthful, replies)
    ensures var t := Run(start, |file|, maxPacket, w, replies);
            AtRest(file, start, maxPacket, t) && !MaySend(t.s) && (truthful ==> Honest(file, maxPacket, t))
            && (Reliable(w) ==> !t.halted)
    decreases |replies|
  {
    hide AtRest, Honest, Take, Issue, MaySend, Allowed, Reliable;
    if replies == [] {
      Started(file, start, maxPacket);
      StartRests(file, start, maxPacket);
      Sent(file, start, maxPacket, Begin(start));
    } else {
      var before, r := replies[..|replies| - 1], replies[|replies| - 1];
      var t := Run(start, |file|, maxPacket, w, before);
      Sound(file, start, maxPacket, w, truthful, before);
      Received(file, start, maxPacket, t, w, truthful, r);
      Sent(file, start, maxPacket, Take(t, w, |file|, r));
    }
  }

  lemma StartRests(file: seq<byte>, start: nat, maxPacket: nat)
    ensures AtRest(file, start, maxPacket, Begin(start))
  {
  }

  // ---------- what the end of a run means ----------

  /** All of the file from `start` on. */
  function Rest(file: seq<byte>, start: nat): seq<byte> { if start <= |file| then file[start..] else [] }

  /** What `WriteTo` returns when nothing is in flight any more. */
  function Returned(s: Copy): Option<Error> {
    if s.firstErr.err.None? && |s.pending| > 0 then Some(InternalInconsistency) else Reported(s.firstErr.err)
  }

  /** The end of the file is no error to the caller. */
  function Reported(e: Option<Error>): Option<Error> { if e == Some(Eof) then None else e }

  /** All chunks of the file were asked for and answered with all the file has there. */
  ghost predicate Delivered(file: seq<byte>, maxPacket: nat, t: Trace) {
    && |file| <= t.s.offset
    && forall o :: o in t.issued && o < |file| ==> o in t.got && |t.got[o]| == Lesser(maxPacket, |file| - o)
  }

  /** If no write went wrong, everything is written if and only if everything was delivered. */
  lemma WrittenIffDelivered(file: seq<byte>, start: nat, maxPacket: nat, t: Trace)
    requires AtRest(file, start, maxPacket, t) && !t.halted && maxPacket > 0
    ensures t.s.written == Rest(file, start) <==> Delivered(file, maxPacket, t)
  {
    hide Sorted, Table;
    assert start <= |file| && t.s.writeOffset == |file| ==> t.s.written == file[start..];
    if t.s.written == Rest(file, start) {
      assert start <= |file| ==> t.s.writeOffset == |file|;
    }
  }

  /** With a truthful server, whatever the writer does: what is returned is what went wrong
      with a write, and if nothing did, all is written. */
  lemma TruthfulEnd(file: seq<byte>, start: nat, maxPacket: nat, t: Trace)
    requires AtRest(file, start, maxPacket, t) && Honest(file, maxPacket, t) && maxPacket > 0
    requires t.s.inFlight == 0 && !MaySend(t.s)
    ensures Returned(t.s) == Reported(t.fault)
    ensures t.fault.None? ==> t.s.written == Rest(file, start)
  {
    hide Prefix;
    assert t.s.reqs == map[];
    if t.s.firstErr.err.None? {
      NothingParked(file, start, maxPacket, t);
    } else if !t.halted {
      assert Delivered(file, maxPacket, t);
      WrittenIffDelivered(file, start, maxPacket, t);
    }
  }

  /** With every request answered, writing has reached the end of the file or of what was asked for. */
  lemma CaughtUp(file: seq<byte>, maxPacket: nat, offset: nat, writeOffset: nat, issued: set<nat>,
                 got: map<nat, seq<byte>>, waiting: set<nat>, refused: set<nat>)
    requires Tiled(maxPacket, offset, writeOffset, issued, got, waiting, false) && writeOffset !in waiting
    requires Sorted(writeOffset, issued, got.Keys, {}, refused)
    requires forall o :: o in refused ==> |file| <= o
    requires forall o :: o in got ==> o < |file| && |got[o]| == Lesser(maxPacket, |file| - o)
    ensures |file| <= writeOffset || writeOffset == offset
  {
    if writeOffset in issued {
      assert writeOffset in refused;
    } else if writeOffset != offset {
      var o: nat :| o in issued && o < writeOffset < o + maxPacket;
      assert o in got && o + |got[o]| == writeOffset;
    }
  }

  /** With nothing outstanding, a waiting chunk would need an earlier one that is neither
      written nor waiting: there is none. */
  lemma NothingParked(file: seq<byte>, start: nat, maxPacket: nat, t: Trace)
    requires AtRest(file, start, maxPacket, t) && Honest(file, maxPacket, t) && maxPacket > 0
    requires t.s.reqs == map[] && !t.halted
    ensures t.s.pending == map[]
  {
    hide Written, Table, Tiled, Sorted;
    var s := t.s;
    assert s.reqs.Values == {};
    CaughtUp(file, maxPacket, s.offset, s.writeOffset, t.issued, t.got, s.pending.Keys, t.refused);
    assert forall o :: o in s.pending ==> s.writeOffset < o < |file| && o < s.offset;
    assert s.pending.Keys == {};
  }

  /** The last error of the connection after a write went wrong, if there was one. */
  ghost function Afterwards(start: nat, fileSize: nat, maxPacket: nat, w: Writer, replies: seq<Reply>): Option<Error> {
    if replies == [] then None
    else
      var before, r := replies[..|replies| - 1], replies[|replies| - 1];
      if !Run(start, fileSize, maxPacket, w, before).halted then None
      else if r.Lost? then Some(r.err)
      else Afterwards(start, fileSize, maxPacket, w, before)
  }

  /** Once a write went wrong, only the connection can still have a word: no reply of the
      server replaces the error that is kept. */
  lemma {:induction false} FaultStays(file: seq<byte>, start: nat, maxPacket: nat, w: Writer, truthful: bool,
                                      replies: seq<Reply>)
    requires maxPacket > 0 && Admissible(file, start, maxPacket, w, truthful, replies)
    ensures var t, after := Run(start, |file|, maxPacket, w, replies), Afterwards(start, |file|, maxPacket, w, replies);
            t.halted ==> t.s.firstErr.err == if after.Some? then after else t.fault
    decreases |replies|
  {
    hide AtRest, Honest, Take, Issue, MaySend, Allowed, Reliable;
    if replies == [] {
      StartRests(file, start, maxPacket);
      Sent(file, start, maxPacket, Begin(start));
    } else {
      var before, r := replies[..|replies| - 1], replies[|replies| - 1];
      var t := Run(start, |file|, maxPacket, w, before);
      Sound(file, start, maxPacket, w, truthful, before);
      FaultStays(file, start, maxPacket, w, truthful, before);
      Received(file, start, maxPacket, t, w, truthful, r);
      Sent(file, start, maxPacket, Take(t, w, |file|, r));
    }
  }

  /** The refusals of a run, by the offsets refused, that no confirmation made forgotten. */
  ghost function Standing(start: nat, fileSize: nat, maxPacket: nat, w: Writer, replies: seq<Reply>)
    : map<nat, Option<Error>>
  {
    if replies == [] then map[]
    else
      var before, r := replies[..|replies| - 1], replies[|replies| - 1];
      var m, reqs := Standing(start, fileSize, maxPacket, w, before), Run(start, fileSize, maxPacket, w, before).s.reqs;
      if r.Status? && r.id in reqs then Noted(m, reqs[r.id], r.status) else m
  }

  /** While no write went wrong and the connection had no error, the error kept is that of the
      refusal nearest the start, of those that still count. */
  lemma {:induction false} NearestKept(file: seq<byte>, start: nat, maxPacket: nat, w: Writer, truthful: bool,
                                       replies: seq<Reply>)
    requires maxPacket > 0 && Admissible(file, start, maxPacket, w, truthful, replies) && LastLost(replies).None?
    ensures var t, m := Run(start, |file|, maxPacket, w, replies), Standing(start, |file|, maxPacket, w, replies);
            m.Keys <= t.refused && (!t.halted ==> KeptNearest(m, 0, t.s.firstErr))
    decreases |replies|
  {
    hide AtRest, Honest, Take, Issue, MaySend, Allowed, Reliable, KeptNearest;
    if replies == [] {
      StartRests(file, start, maxPacket);
      Sent(file, start, maxPacket, Begin(start));
      SentRefuses(Begin(start), maxPacket, |file|);
      NothingKept();
    } else {
      var before, r := replies[..|replies| - 1], replies[|replies| - 1];
      var t := Run(start, |file|, maxPacket, w, before);
      Sound(file, start, maxPacket, w, truthful, before);
      NearestKept(file, start, maxPacket, w, truthful, before);
      Received(file, start, maxPacket, t, w, truthful, r);
      NearestStep(file, start, maxPacket, t, w, truthful, r, Standing(start, |file|, maxPacket, w, before));
      Sent(file, start, maxPacket, Take(t, w, |file|, r));
      SentRefuses(Take(t, w, |file|, r), maxPacket, |file|);
    }
  }

  /** While no write went wrong, an error of the connection is kept until the next one. */
  lemma {:induction false} LostKept(file: seq<byte>, start: nat, maxPacket: nat, w: Writer, truthful: bool,
                                    replies: seq<Reply>)
    requires maxPacket > 0 && Admissible(file, start, maxPacket, w, truthful, replies)
    ensures var t := Run(start, |file|, maxPacket, w, replies);
            !t.halted && LastLost(replies).Some? ==> t.s.firstErr == OffsetError(0, LastLost(replies))
    decreases |replies|
  {
    hide AtRest, Honest, Take, Issue, MaySend, Allowed, Reliable;
    if replies == [] {
    } else {
      var before, r := replies[..|replies| - 1], replies[|replies| - 1];
      var t := Run(start, |file|, maxPacket, w, before);
      Sound(file, start, maxPacket, w, truthful, before);
      LostKept(file, start, maxPacket, w, truthful, before);
      Received(file, start, maxPacket, t, w, truthful, r);
      LostStep(file, start, maxPacket, t, w, truthful, r);
      Sent(file, start, maxPacket, Take(t, w, |file|, r));
    }
  }

  lemma LostStep(file: seq<byte>, start: nat, maxPacket: nat, t: Trace, w: Writer, truthful: bool, r: Reply)
    requires AtRest(file, start, maxPacket, t) && t.s.inFlight > 0 && maxPacket > 0
    requires Allowed(file, maxPacket, truthful, t.s.reqs, r)
    ensures var u := Take(t, w, |file|, r);
            && (t.halted ==> u.halted) && (r.Lost? ==> u.s.firstErr == OffsetError(0, Some(r.err)))
            && (!u.halted && !r.Lost? && t.s.firstErr.err.Some? && t.s.firstErr.offset == 0 ==>
                  u.s.firstErr == t.s.firstErr)
  {
    hide Keep, Invariant, Due, Honest, Pinned;
    Received(file, start, maxPacket, t, w, truthful, r);
    match r {
      case Lost(e) =>
      case Status(id, status) => KeepFirst(t.s.firstErr, t.s.reqs[id], status);
      case Data(id, data) =>
        if t.s.reqs[id] == t.s.writeOffset {
          NotHalted(file, start, maxPacket, t, id);
          FitsMake(file, maxPacket, t.s.reqs[id], data);
          DueKeeps(file, start, maxPacket, t, w, id, data);
        }
    }
  }

  /** What is returned without an error of the connection: the refusal nearest the start, and
      with none, which leaves chunks waiting for one that came short, the internal
      inconsistency. */
  ghost predicate Answered(refusals: map<nat, Option<Error>>, s: Copy) {
    if refusals != map[] then exists e :: Nearest(refusals, e) && Returned(s) == Reported(e)
    else s.inFlight == 0 ==> Returned(s) == Some(InternalInconsistency)
  }

  lemma NothingKept()
    ensures KeptNearest(map[], 0, NO_ERROR)
  {
  }

  lemma {:induction false} SentRefuses(t: Trace, maxPacket: nat, fileSize: nat)
    ensures Issue(t, maxPacket, fileSize).refused == t.refused
    decreases t.s.desiredInFlight - t.s.inFlight - |t.s.pending|
  {
    if MaySend(t.s) {
      SentRefuses(t.(s := Send(t.s, maxPacket, fileSize), issued := t.issued + {t.s.offset}), maxPacket, fileSize);
    }
  }

  lemma NearestStep(file: seq<byte>, start: nat, maxPacket: nat, t: Trace, w: Writer, truthful: bool, r: Reply,
                    m: map<nat, Option<Error>>)
    requires AtRest(file, start, maxPacket, t) && t.s.inFlight > 0 && maxPacket > 0
    requires Allowed(file, maxPacket, truthful, t.s.reqs, r) && !r.Lost?
    requires m.Keys <= t.refused && (!t.halted ==> KeptNearest(m, 0, t.s.firstErr))
    ensures var u, n := Take(t, w, |file|, r), if r.Status? then Noted(m, t.s.reqs[r.id], r.status) else m;
            && n.Keys <= u.refused && (t.halted ==> u.halted)
            && (!u.halted ==> KeptNearest(n, 0, u.s.firstErr))
  {
    hide KeptNearest, Keep, Invariant, Due, Honest, Pinned;
    Received(file, start, maxPacket, t, w, truthful, r);
    match r {
      case Status(id, status) =>
        NotRefused(file, start, maxPacket, t, id);
        if !t.halted {
          KeepsNearest(m, 0, t.s.firstErr, t.s.reqs[id], status);
        }
      case Data(id, data) =>
        if t.s.reqs[id] == t.s.writeOffset {
          NotHalted(file, start, maxPacket, t, id);
          FitsMake(file, maxPacket, t.s.reqs[id], data);
          DueKeeps(file, start, maxPacket, t, w, id, data);
        }
    }
  }

  lemma NotRefused(file: seq<byte>, start: nat, maxPacket: nat, t: Trace, id: nat)
    requires Invariant(file, start, maxPacket, t, t.halted) && id in t.s.reqs
    ensures t.s.reqs[id] !in t.refused
  {
    assert t.s.reqs[id] in t.s.reqs.Values;
  }

  /** The count misses what had to wait. */
  ghost predicate Counted(t: Trace) { t.s.copied + t.late == |t.s.written| }

  lemma {:induction false} FlushCounts(t: Trace, w: Writer)
    requires Counted(t)
    ensures Counted(Flush(t, w))
    decreases |t.s.pending|
  {
    if t.s.writeOffset in t.s.pending {
      var u := EmitLate(t, w);
      FlushStep(t, w);
      Fewer(t.s.pending, t.s.writeOffset);
      if !u.halted {
        FlushCounts(u, w);
      }
    }
  }

  lemma TakeCounts(t: Trace, w: Writer, fileSize: nat, r: Reply)
    requires Counted(t) && t.s.inFlight > 0
    ensures Counted(Take(t, w, fileSize, r))
  {
    hide Flush;
    if r.Data? && r.id in t.s.reqs && t.s.reqs[r.id] == t.s.writeOffset {
      var u := EmitNow(t, w, r.id, r.data);
      FlushCounts(u.(s := Widen(u.s, fileSize)), w);
    }
  }

  lemma {:induction false} IssueCounts(t: Trace, maxPacket: nat, fileSize: nat)
    requires Counted(t)
    ensures Counted(Issue(t, maxPacket, fileSize))
    decreases t.s.desiredInFlight - t.s.inFlight - |t.s.pending|
  {
    if MaySend(t.s) {
      IssueCounts(t.(s := Send(t.s, maxPacket, fileSize), issued := t.issued + {t.s.offset}), maxPacket, fileSize);
    }
  }

  /** The count returned is right just when no byte written had to wait. */
  lemma {:induction false} RunCounts(start: nat, fileSize: nat, maxPacket: nat, w: Writer, replies: seq<Reply>)
    ensures Counted(Run(start, fileSize, maxPacket, w, replies))
    decreases |replies|
  {
    hide Take, Issue;
    if replies == [] {
      IssueCounts(Begin(start), maxPacket, fileSize);
    } else {
      var before, r := replies[..|replies| - 1], replies[|replies| - 1];
      RunCounts(start, fileSize, maxPacket, w, before);
      var t := Run(start, fileSize, maxPacket, w, before);
      if t.s.inFlight > 0 {
        TakeCounts(t, w, fileSize, r);
        IssueCounts(Take(t, w, fileSize, r), maxPacket, fileSize);
      }
    }
  }

  // ---------- the window ----------

  /** The chunks written as they arrived, with nothing going wrong. */
  ghost function Direct(start: nat, fileSize: nat, maxPacket: nat, w: Writer, replies: seq<Reply>): nat {
    if replies == [] then 0
    else
      var before, r := replies[..|replies| - 1], replies[|replies| - 1];
      var t := Run(start, fileSize, maxPacket, w, before);
      Direct(start, fileSize, maxPacket, w, before) + if t.s.inFlight > 0 && Timely(t, w, r) then 1 else 0
  }

  ghost predicate Timely(t: Trace, w: Writer, r: Reply)
    requires t.s.inFlight > 0
  {
    && r.Data?
    && r.id in t.s.reqs
    && t.s.reqs[r.id] == t.s.writeOffset
    && !EmitNow(t, w, r.id, r.data).halted
  }

  ghost predicate Window(s: Copy, fileSize: nat, received: nat, direct: nat) {
    && s.nextId == received + s.inFlight
    && s.desiredInFlight == (if s.offset > fileSize then 1 else Lesser(MAX_CONCURRENT_REQUESTS, direct + 1))
    && s.inFlight + |s.pending| <= MAX_CONCURRENT_REQUESTS
  }

  lemma {:induction false} IssueWindow(t: Trace, maxPacket: nat, fileSize: nat, received: nat, direct: nat)
    requires Window(t.s, fileSize, received, direct)
    ensures Window(Issue(t, maxPacket, fileSize).s, fileSize, received, direct)
    decreases t.s.desiredInFlight - t.s.inFlight - |t.s.pending|
  {
    if MaySend(t.s) {
      IssueWindow(t.(s := Send(t.s, maxPacket, fileSize), issued := t.issued + {t.s.offset}), maxPacket, fileSize,
                  received, direct);
    }
  }

  lemma {:induction false} FlushWindow(t: Trace, w: Writer, fileSize: nat, received: nat, direct: nat)
    requires Window(t.s, fileSize, received, direct)
    ensures Window(Flush(t, w).s, fileSize, received, direct)
    decreases |t.s.pending|
  {
    if t.s.writeOffset in t.s.pending {
      var u := EmitLate(t, w);
      Fewer(t.s.pending, t.s.writeOffset);
      if !u.halted {
        FlushWindow(u, w, fileSize, received, direct);
      }
    }
  }

  lemma More(m: map<nat, seq<byte>>, o: nat, data: seq<byte>)
    ensures |m[o := data]| <= |m| + 1
  {
    assert m[o := data].Keys == m.Keys + {o};
  }

  lemma TakeWindow(t: Trace, w: Writer, fileSize: nat, r: Reply, received: nat, direct: nat)
    requires t.s.inFlight > 0 && Window(t.s, fileSize, received, direct)
    ensures Window(Take(t, w, fileSize, r).s, fileSize, received + 1, direct + if Timely(t, w, r) then 1 else 0)
  {
    hide Flush, EmitNow, Widen;
    if r.Data? && r.id in t.s.reqs {
      if t.s.reqs[r.id] == t.s.writeOffset {
        var u := EmitNow(t, w, r.id, r.data);
        NowWindow(t, w, fileSize, r.id, r.data, received, direct);
        if !u.halted {
          FlushWindow(u.(s := Widen(u.s, fileSize)), w, fileSize, received + 1, direct + 1);
        }
      } else {
        More(t.s.pending, t.s.reqs[r.id], r.data);
      }
    }
  }

  lemma NowWindow(t: Trace, w: Writer, fileSize: nat, id: nat, data: seq<byte>, received: nat, direct: nat)
    requires t.s.inFlight > 0 && Window(t.s, fileSize, received, direct)
    ensures var u := EmitNow(t, w, id, data).s;
            Window(u, fileSize, received + 1, direct) && Window(Widen(u, fileSize), fileSize, received + 1, direct + 1)
  {
    hide Emit;
    EmitFacts(Accept(t.s, id), data, Taken(w, t.s.written, data));
  }

  /** In every run the window is one request wide at first and once the end of the file was asked
      for, and else one wider with each chunk written as it arrived, up to 64; no more chunks
      than that are awaited or waiting. */
  lemma {:induction false} RunWindow(file: seq<byte>, start: nat, maxPacket: nat, w: Writer, truthful: bool,
                                     replies: seq<Reply>)
    requires Admissible(file, start, maxPacket, w, truthful, replies)
    ensures var s := Run(start, |file|, maxPacket, w, replies).s;
            && s.nextId == |replies| + s.inFlight && s.inFlight + |s.pending| <= 64
            && s.desiredInFlight == if s.offset > |file| then 1
                                    else Lesser(64, Direct(start, |file|, maxPacket, w, replies) + 1)
    decreases |replies|
  {
    hide Take, Issue, Timely, Allowed;
    if replies == [] {
      IssueWindow(Begin(start), maxPacket, |file|, 0, 0);
    } else {
      var before, r := replies[..|replies| - 1], replies[|replies| - 1];
      RunWindow(file, start, maxPacket, w, truthful, before);
      var t := Run(start, |file|, maxPacket, w, before);
      var n := Direct(start, |file|, maxPacket, w, before);
      TakeWindow(t, w, |file|, r, |before|, n);
      IssueWindow(Take(t, w, |file|, r), maxPacket, |file|, |replies|, n + if Timely(t, w, r) then 1 else 0);
    }
  }

  /** The main result over whole runs.  In any case the writer has a contiguous prefix.  With
      any server and no write gone wrong, it is the whole rest if and only if all of it was
      delivered, and what is returned is the last error of the connection, or else the refusal
      nearest the start, of those that no confirmation made forgotten.  Once a write went wrong,
      what is returned is the last error of the connection since, or else what went wrong.  With
      a truthful server it is what went wrong, and the whole rest is there if nothing did. */
  lemma EveryRun(file: seq<byte>, start: nat, maxPacket: nat, w: Writer, truthful: bool, replies: seq<Reply>)
    requires maxPacket > 0 && Admissible(file, start, maxPacket, w, truthful, replies)
    ensures var t, after := Run(start, |file|, maxPacket, w, replies), Afterwards(start, |file|, maxPacket, w, replies);
            && Prefix(file, start, t.s.written) && Counted(t) && (Reliable(w) ==> !t.halted)
            && (!t.halted ==> (t.s.written == Rest(file, start) <==> Delivered(file, maxPacket, t)))
            && (t.halted ==> Returned(t.s) == Reported(if after.Some? then after else t.fault))
            && (!t.halted ==> if LastLost(replies).Some? then Returned(t.s) == Reported(LastLost(replies))
                              else Answered(Standing(start, |file|, maxPacket, w, replies), t.s))
            && (truthful && t.s.inFlight == 0 ==>
                  Returned(t.s) == Reported(t.fault) && (!t.halted ==> t.s.written == Rest(file, start)))
  {
    hide Honest, MaySend, Reliable, Delivered, Run, Invariant, Prefix, Afterwards, Counted, Pinned, Admissible,
      Standing, KeptNearest, Answered, LastLost;
    Sound(file, start, maxPacket, w, truthful, replies);
    FaultStays(file, start, maxPacket, w, truthful, replies);
    RunCounts(start, |file|, maxPacket, w, replies);
    var t := Run(start, |file|, maxPacket, w, replies);
    RestPrefix(file, start, maxPacket, t);
    LostKept(file, start, maxPacket, w, truthful, replies);
    if LastLost(replies).None? {
      NearestKept(file, start, maxPacket, w, truthful, replies);
      if !t.halted {
        AnsweredBy(file, start, maxPacket, t, Standing(start, |file|, maxPacket, w, replies));
      }
    }
    if !t.halted {
      WrittenIffDelivered(file, start, maxPacket, t);
    }
    if truthful && t.s.inFlight == 0 {
      TruthfulEnd(file, start, maxPacket, t);
    }
  }

  lemma AnsweredBy(file: seq<byte>, start: nat, maxPacket: nat, t: Trace, m: map<nat, Option<Error>>)
    requires AtRest(file, start, maxPacket, t) && !MaySend(t.s) && KeptNearest(m, 0, t.s.firstErr)
    ensures Answered(m, t.s)
  {
    hide KeptNearest, Nearest, Invariant;
    KeptErr(m, 0, t.s.firstErr);
    Use(file, start, maxPacket, t, t.halted);
  }

  lemma RestPrefix(file: seq<byte>, start: nat, maxPacket: nat, t: Trace)
    requires AtRest(file, start, maxPacket, t)
    ensures Prefix(file, start, t.s.written) && (t.halted ==> t.s.firstErr.err.Some?)
  {
  }

  // ---------- results that mislead ----------

  function TakesAll(): Writer { (written, data) => Took(|data|, None) }

  /** A writer that takes its first chunk and then fails. */
  function TakesOne(err: Error): Writer {
    (written, data) => if written == [] then Took(|data|, None) else Took(0, Some(err))
  }

  function SaysEof(): Writer { (written, data) => Took(0, Some(Eof)) }

  /** A server that answers in part: the chunk is one byte short, the next one is past the
      end, and `WriteTo` returns without error though the last byte is missing. */
  lemma ShortReplyIsNotNoticed(file: seq<byte>, maxPacket: nat)
    requires maxPacket > 1 && |file| == maxPacket
    ensures var replies := [Data(0, file[..maxPacket - 1]), Status(1, Some(Eof))];
            var t := Run(0, |file|, maxPacket, TakesAll(), replies);
            && Admissible(file, 0, maxPacket, TakesAll(), false, replies) && t.s.inFlight == 0
            && Returned(t.s).None? && t.s.written == file[..maxPacket - 1] != file
  {
    hide Run, Issue, Take, Admissible, Allowed;
    var n, w := maxPacket, TakesAll();
    var a, b := Data(0, file[..n - 1]), Status(1, Some(Eof));
    assert [] + [a] == [a] && [a] + [b] == [a, b];
    RunStarts(file, 0, n, w, false);
    FirstOut(n, n);
    AllowedHere(file, n, Run(0, n, n, w, []).s.reqs, a);
    RunGoesOn(file, 0, n, w, false, [], a);
    SecondOut(n, Run(0, n, n, w, []), file[..n - 1]);
    AllowedHere(file, n, Run(0, n, n, w, [a]).s.reqs, b);
    RunGoesOn(file, 0, n, w, false, [a], b);
    LastIn(n, Run(0, n, n, w, [a]), w, n, 1, n);
  }

  /** Two packets; the write of the second fails while a request is in flight, and then the
      peer closes the connection: no error, though half of the file is missing. */
  lemma HangupHidesFailure(file: seq<byte>, maxPacket: nat, err: Error)
    requires maxPacket > 0 && |file| == 2 * maxPacket
    ensures var replies := [Data(0, file[..maxPacket]), Data(1, file[maxPacket..]), Lost(Eof)];
            var t := Run(0, |file|, maxPacket, TakesOne(err), replies);
            && Admissible(file, 0, maxPacket, TakesOne(err), false, replies) && t.s.inFlight == 0
            && t.fault == Some(err) && Returned(t.s).None? && t.s.written == file[..maxPacket] != file
  {
    hide Run, Issue, Take, Admissible, Allowed;
    var n, w := maxPacket, TakesOne(err);
    var a, b, c := Data(0, file[..n]), Data(1, file[n..]), Lost(Eof);
    assert [] + [a] == [a] && [a] + [b] == [a, b] && [a, b] + [c] == [a, b, c];
    RunStarts(file, 0, n, w, false);
    FirstOut(n, 2 * n);
    AllowedHere(file, n, Run(0, 2 * n, n, w, []).s.reqs, a);
    RunGoesOn(file, 0, n, w, false, [], a);
    TwoOut(n, 2 * n, Run(0, 2 * n, n, w, []), w, file[..n]);
    AllowedHere(file, n, Run(0, 2 * n, n, w, [a]).s.reqs, b);
    RunGoesOn(file, 0, n, w, false, [a], b);
    SecondFails(n, Run(0, 2 * n, n, w, [a]), err, file[n..]);
    AllowedLost(file, n, Run(0, 2 * n, n, w, [a, b]).s.reqs, Eof);
    RunGoesOn(file, 0, n, w, false, [a, b], c);
    LostLast(n, 2 * n, Run(0, 2 * n, n, w, [a, b]), w);
  }

  /** A writer whose error is `io.EOF`: no error, and nothing is written, with a server that
      did all it should. */
  lemma WriterSaysEof(file: seq<byte>, maxPacket: nat)
    requires maxPacket > 0 && |file| == maxPacket
    ensures var t := Run(0, |file|, maxPacket, SaysEof(), [Data(0, file)]);
            && Admissible(file, 0, maxPacket, SaysEof(), true, [Data(0, file)]) && t.s.inFlight == 0
            && Returned(t.s).None? && t.s.written == [] != file
  {
    hide Run, Issue, Take, Admissible, Allowed;
    var n, w := maxPacket, SaysEof();
    var a := Data(0, file);
    assert [] + [a] == [a] && file[0..n] == file;
    RunStarts(file, 0, n, w, true);
    FirstOut(n, n);
    AllowedWell(file, n, Run(0, n, n, w, []).s.reqs, a);
    RunGoesOn(file, 0, n, w, true, [], a);
    EofAtOnce(n, Run(0, n, n, w, []), file);
  }

  lemma LastBeforeSecond(file: seq<byte>, n: nat)
    requires n > 0 && |file| == 3 * n
    ensures var w, replies := TakesAll(), [Data(0, file[..n]), Data(2, file[2 * n..])];
            && Admissible(file, 0, n, w, true, replies)
            && Run(0, 3 * n, n, w, replies).s
               == Copy(1, 2, 3 * n, n, map[1 := n], 3, map[2 * n := file[2 * n..]], NO_ERROR, file[..n], n)
  {
    hide Run, Issue, Take, Admissible, Allowed;
    var size, w := 3 * n, TakesAll();
    var a, b := Data(0, file[..n]), Data(2, file[2 * n..]);
    assert [] + [a] == [a] && [a] + [b] == [a, b];
    RunStarts(file, 0, n, w, true);
    FirstOut(n, size);
    AllowedWell(file, n, Run(0, size, n, w, []).s.reqs, a);
    RunGoesOn(file, 0, n, w, true, [], a);
    TwoOut(n, size, Run(0, size, n, w, []), w, file[..n]);
    AllowedWell(file, n, Run(0, size, n, w, [a]).s.reqs, b);
    RunGoesOn(file, 0, n, w, true, [a], b);
    ThirdWaits(n, Run(0, size, n, w, [a]), file[2 * n..]);
  }

  lemma SecondThenEnd(file: seq<byte>, n: nat, before: seq<Reply>)
    requires n > 0 && |file| == 3 * n && Admissible(file, 0, n, TakesAll(), true, before)
    requires Run(0, 3 * n, n, TakesAll(), before).s
          == Copy(1, 2, 3 * n, n, map[1 := n], 3, map[2 * n := file[2 * n..]], NO_ERROR, file[..n], n)
    ensures var w, replies := TakesAll(), before + [Data(1, file[n..2 * n])] + [Status(3, Some(Eof))];
            var t := Run(0, 3 * n, n, w, replies);
            && Admissible(file, 0, n, w, true, replies) && t.s.inFlight == 0
            && Returned(t.s).None? && t.s.written == file && t.s.copied == 2 * n
  {
    hide Run, Issue, Take, Admissible, Allowed, TakesAll, Returned;
    var size, w, c, d := 3 * n, TakesAll(), Data(1, file[n..2 * n]), Status(3, Some(Eof));
    AllowedWell(file, n, Run(0, size, n, w, before).s.reqs, c);
    RunGoesOn(file, 0, n, w, true, before, c);
    BothWritten(n, Run(0, size, n, w, before), file[..n], file[n..2 * n], file[2 * n..]);
    var replies := before + [c];
    AllowedWell(file, n, Run(0, size, n, w, replies).s.reqs, d);
    RunGoesOn(file, 0, n, w, true, replies, d);
    LastIn(n, Run(0, size, n, w, replies), w, size, 3, size);
    assert file == file[..n] + file[n..2 * n] + file[2 * n..];
  }

  /** Three packets, of which the last arrives before the second: all is written, and the
      count returned lacks the packet that had to wait. */
  lemma WaitingIsNotCounted(file: seq<byte>, maxPacket: nat)
    requires maxPacket > 0 && |file| == 3 * maxPacket
    ensures var n := maxPacket;
            var replies := [Data(0, file[..n]), Data(2, file[2 * n..]), Data(1, file[n..2 * n]), Status(3, Some(Eof))];
            var t := Run(0, |file|, n, TakesAll(), replies);
            && Admissible(file, 0, n, TakesAll(), true, replies) && t.s.inFlight == 0
            && Returned(t.s).None? && t.s.written == file && t.s.copied == 2 * n < |file|
  {
    hide Run, Admissible, TakesAll, Returned;
    var n := maxPacket;
    var a, b, c, d := Data(0, file[..n]), Data(2, file[2 * n..]), Data(1, file[n..2 * n]), Status(3, Some(Eof));
    LastBeforeSecond(file, n);
    SecondThenEnd(file, n, [a, b]);
    assert [a, b] + [c] + [d] == [a, b, c, d];
  }

  /** `n` confirmations without data, one for each request. */
  function Confirmed(n: nat): seq<Reply> { seq(n, i requires 0 <= i < n => Status(i, None)) }

  /** A server that only confirms keeps the loop going: after any number of confirmations the
      next request is in flight and nothing was written. */
  lemma {:induction false} ConfirmationsGoOn(file: seq<byte>, maxPacket: nat, w: Writer, n: nat)
    requires maxPacket > 0
    ensures var t := Run(0, |file|, maxPacket, w, Confirmed(n));
            && Admissible(file, 0, maxPacket, w, false, Confirmed(n))
            && t.s.inFlight == 1 && t.s.desiredInFlight == 1 && t.s.reqs == map[n := n * maxPacket]
            && t.s.nextId == n + 1 && t.s.offset == (n + 1) * maxPacket
            && t.s.firstErr.err.None? && t.s.pending == map[] && t.s.written == []
    decreases n
  {
    hide Run, Issue, Take, Admissible, Allowed;
    if n == 0 {
      RunStarts(file, 0, maxPacket, w, false);
      FirstOut(maxPacket, |file|);
      assert Confirmed(0) == [];
    } else {
      var r := Status(n - 1, None);
      ConfirmationsGoOn(file, maxPacket, w, n - 1);
      var t := Run(0, |file|, maxPacket, w, Confirmed(n - 1));
      AllowedHere(file, maxPacket, t.s.reqs, r);
      RunGoesOn(file, 0, maxPacket, w, false, Confirmed(n - 1), r);
      assert Confirmed(n) == Confirmed(n - 1) + [r];
      Confirm(maxPacket, |file|, t, w, n - 1);
    }
  }

  lemma Confirm(maxPacket: nat, fileSize: nat, t: Trace, w: Writer, k: nat)
    requires t.s.inFlight == 1 && t.s.desiredInFlight == 1 && t.s.reqs == map[k := k * maxPacket]
    requires t.s.nextId == k + 1 && t.s.firstErr.err.None? && t.s.pending == map[]
    ensures var u := Issue(Take(t, w, fileSize, Status(k, None)), maxPacket, fileSize);
            && u.s.inFlight == 1 && u.s.desiredInFlight == 1 && u.s.reqs == map[k + 1 := t.s.offset]
            && u.s.nextId == k + 2 && u.s.offset == t.s.offset + maxPacket
            && u.s.firstErr.err.None? && u.s.pending == map[] && u.s.written == t.s.written
  {
    var u := Take(t, w, fileSize, Status(k, None));
    assert t.s.reqs - {k} == map[];
    var v := u.(s := Send(u.s, maxPacket, fileSize), issued := u.issued + {u.s.offset});
    assert Issue(u, maxPacket, fileSize) == Issue(v, maxPacket, fileSize) == v;
  }

  lemma AllowedHere(file: seq<byte>, maxPacket: nat, reqs: map<nat, nat>, r: Reply)
    requires !r.Lost? && r.id in reqs
    requires r.Data? ==> (0 < |r.data| <= maxPacket && reqs[r.id] + |r.data| <= |file|
                          && r.data == file[reqs[r.id]..reqs[r.id] + |r.data|])
    ensures Allowed(file, maxPacket, false, reqs, r)
  {
  }

  lemma AllowedLost(file: seq<byte>, maxPacket: nat, reqs: map<nat, nat>, e: Error)
    ensures Allowed(file, maxPacket, false, reqs, Lost(e))
  {
  }

  lemma AllowedWell(file: seq<byte>, maxPacket: nat, reqs: map<nat, nat>, r: Reply)
    requires maxPacket > 0 && Good(file, maxPacket, reqs, r)
    requires r.Data? ==> r.data == file[reqs[r.id]..reqs[r.id] + |r.data|]
    ensures Allowed(file, maxPacket, true, reqs, r)
  {
  }

  lemma FirstOut(n: nat, size: nat)
    requires n > 0
    ensures Issue(Begin(0), n, size).s == Copy(1, 1, n, 0, map[0 := 0], 1, map[], NO_ERROR, [], 0)
  {
    var t := Begin(0);
    var u := t.(s := Send(t.s, n, size), issued := t.issued + {t.s.offset});
    assert Issue(t, n, size) == Issue(u, n, size) == u;
  }

  lemma SecondOut(n: nat, t: Trace, data: seq<byte>)
    requires n > 1 && |data| == n - 1 && t.s == Copy(1, 1, n, 0, map[0 := 0], 1, map[], NO_ERROR, [], 0)
    ensures Issue(Take(t, TakesAll(), n, Data(0, data)), n, n).s
         == Copy(1, 1, 2 * n, n - 1, map[1 := n], 2, map[], NO_ERROR, data, n - 1)
  {
    var u := Take(t, TakesAll(), n, Data(0, data));
    assert t.s.reqs - {0} == map[] && [] + data[..|data|] == data;
    assert u.s == Copy(0, 2, n, n - 1, map[], 1, map[], NO_ERROR, data, n - 1);
    var v := u.(s := Send(u.s, n, n), issued := u.issued + {u.s.offset});
    assert Issue(u, n, n) == Issue(v, n, n) == v;
  }

  /** The first packet is written. */
  lemma FirstIn(n: nat, size: nat, t: Trace, w: Writer, data: seq<byte>)
    requires 0 < n <= size && |data| == n && w([], data) == Took(n, None)
    requires t.s == Copy(1, 1, n, 0, map[0 := 0], 1, map[], NO_ERROR, [], 0)
    ensures var u := Take(t, w, size, Data(0, data));
            u.s == Copy(0, 2, n, n, map[], 1, map[], NO_ERROR, data, n) && u.fault.None?
  {
    hide Flush;
    var u := EmitNow(t, w, 0, data);
    assert t.s.reqs - {0} == map[] && [] + data[..|data|] == data;
    assert u.s == Copy(0, 1, n, n, map[], 1, map[], NO_ERROR, data, n) && u.fault.None?;
    FlushStep(u.(s := Widen(u.s, size)), w);
  }

  /** Then two requests go out. */
  lemma TwoOut(n: nat, size: nat, t: Trace, w: Writer, data: seq<byte>)
    requires 0 < n && 2 * n <= size && |data| == n && w([], data) == Took(n, None)
    requires t.s == Copy(1, 1, n, 0, map[0 := 0], 1, map[], NO_ERROR, [], 0)
    ensures var u := Issue(Take(t, w, size, Data(0, data)), n, size);
            && u.s == Copy(2, if 3 * n > size then 1 else 2, 3 * n, n, map[1 := n, 2 := 2 * n], 3, map[], NO_ERROR,
                           data, n)
            && u.fault.None?
  {
    hide Issue, Take;
    FirstIn(n, size, t, w, data);
    var u := Take(t, w, size, Data(0, data));
    var v := u.(s := Send(u.s, n, size), issued := u.issued + {u.s.offset});
    assert v.s == Copy(1, 2, 2 * n, n, map[1 := n], 2, map[], NO_ERROR, data, n);
    var x := v.(s := Send(v.s, n, size), issued := v.issued + {v.s.offset});
    IssueStep(u, n, size);
    IssueStep(v, n, size);
    IssueStep(x, n, size);
  }

  lemma SecondFails(n: nat, t: Trace, err: Error, data: seq<byte>)
    requires 0 < n && |data| == n && |t.s.written| == n && t.s.inFlight == 2 && t.s.writeOffset == n
    requires t.s.reqs == map[1 := n, 2 := 2 * n] && t.s.firstErr == NO_ERROR && t.s.pending == map[] && t.fault.None?
    ensures var u := Issue(Take(t, TakesOne(err), 2 * n, Data(1, data)), n, 2 * n);
            && u.s.inFlight == 1 && u.s.reqs == map[2 := 2 * n] && u.fault == Some(err)
            && u.s.written == t.s.written && u.s.pending == map[]
  {
    var u := Take(t, TakesOne(err), 2 * n, Data(1, data));
    assert t.s.reqs - {1} == map[2 := 2 * n] && t.s.written + data[..0] == t.s.written;
    assert u.s.firstErr.err == Some(err);
  }

  lemma LostLast(n: nat, size: nat, t: Trace, w: Writer)
    requires t.s.inFlight == 1 && t.s.pending == map[]
    ensures var u := Issue(Take(t, w, size, Lost(Eof)), n, size);
            u.s.inFlight == 0 && Returned(u.s).None? && u.s.written == t.s.written && u.fault == t.fault
  {
  }

  lemma EofAtOnce(n: nat, t: Trace, data: seq<byte>)
    requires 0 < n == |data| && t.s == Copy(1, 1, n, 0, map[0 := 0], 1, map[], NO_ERROR, [], 0)
    ensures var u := Issue(Take(t, SaysEof(), n, Data(0, data)), n, n);
            u.s.inFlight == 0 && Returned(u.s).None? && u.s.written == []
  {
    var u := Take(t, SaysEof(), n, Data(0, data));
    assert u.s.firstErr == OffsetError(0, Some(Eof)) && u.s.written == [] && u.s.inFlight == 0;
  }

  lemma ThirdWaits(n: nat, t: Trace, data: seq<byte>)
    requires 0 < n && t.s.inFlight == 2 && t.s.desiredInFlight == 2 && t.s.writeOffset == n && t.s.pending == map[]
    requires t.s.reqs == map[1 := n, 2 := 2 * n]
    ensures var u := Issue(Take(t, TakesAll(), 3 * n, Data(2, data)), n, 3 * n);
            u.s == t.s.(inFlight := 1, reqs := map[1 := n], pending := map[2 * n := data])
  {
    var u := Take(t, TakesAll(), 3 * n, Data(2, data));
    assert t.s.reqs - {2} == map[1 := n];
    assert u.s == t.s.(inFlight := 1, reqs := map[1 := n], pending := map[2 * n := data]);
    assert |u.s.pending| == 1;
  }

  lemma SecondNow(n: nat, t: Trace, a: seq<byte>, b: seq<byte>, c: seq<byte>)
    requires 0 < n == |b| && t.s == Copy(1, 2, 3 * n, n, map[1 := n], 3, map[2 * n := c], NO_ERROR, a, n)
    ensures var u := EmitNow(t, TakesAll(), 1, b);
            u.s == Copy(0, 2, 3 * n, 2 * n, map[], 3, map[2 * n := c], NO_ERROR, a + b, 2 * n) && !u.halted
  {
    assert t.s.reqs - {1} == map[] && b[..n] == b;
  }

  lemma ThirdLate(n: nat, t: Trace, a: seq<byte>, c: seq<byte>)
    requires 0 < n == |c| && t.s == Copy(0, 3, 3 * n, 2 * n, map[], 3, map[2 * n := c], NO_ERROR, a, 2 * n)
    ensures Flush(t, TakesAll()).s == Copy(0, 3, 3 * n, 3 * n, map[], 3, map[], NO_ERROR, a + c, 2 * n)
  {
    hide Flush;
    var x := EmitLate(t, TakesAll());
    assert t.s.pending - {2 * n} == map[] && c[..n] == c;
    assert x.s == Copy(0, 3, 3 * n, 3 * n, map[], 3, map[], NO_ERROR, a + c, 2 * n) && !x.halted;
    FlushStep(t, TakesAll());
    FlushStep(x, TakesAll());
  }

  lemma BothWritten(n: nat, t: Trace, a: seq<byte>, b: seq<byte>, c: seq<byte>)
    requires 0 < n == |b| == |c|
    requires t.s == Copy(1, 2, 3 * n, n, map[1 := n], 3, map[2 * n := c], NO_ERROR, a, n)
    ensures var u := Issue(Take(t, TakesAll(), 3 * n, Data(1, b)), n, 3 * n);
            && u.s.inFlight == 1 && u.s.reqs == map[3 := 3 * n] && u.s.firstErr == NO_ERROR && u.s.pending == map[]
            && u.s.written == a + b + c && u.s.copied == 2 * n
  {
    hide Flush, Issue, EmitNow;
    var w, size := TakesAll(), 3 * n;
    SecondNow(n, t, a, b, c);
    var u := EmitNow(t, w, 1, b);
    ThirdLate(n, u.(s := Widen(u.s, size)), a + b, c);
    var x := Take(t, w, size, Data(1, b));
    IssueStep(x, n, size);
    IssueStep(x.(s := Send(x.s, n, size), issued := x.issued + {x.s.offset}), n, size);
  }

  lemma LastIn(n: nat, t: Trace, w: Writer, size: nat, id: nat, o: nat)
    requires t.s.inFlight == 1 && t.s.reqs == map[id := o] && t.s.firstErr == NO_ERROR && t.s.pending == map[]
    ensures var u := Issue(Take(t, w, size, Status(id, Some(Eof))), n, size);
            u.s.inFlight == 0 && Returned(u.s).None? && u.s.written == t.s.written && u.s.copied == t.s.copied
  {
  }

  // ---------- the code ----------

  lemma RunStarts(file: seq<byte>, start: nat, maxPacket: nat, w: Writer, truthful: bool)
    ensures Run(start, |file|, maxPacket, w, [])
            == Issue(Begin(start), maxPacket, |file|)
    ensures Admissible(file, start, maxPacket, w, truthful, [])
  {
    hide Issue;
  }

  lemma RunGoesOn(file: seq<byte>, start: nat, maxPacket: nat, w: Writer, truthful: bool, replies: seq<Reply>, r: Reply)
    requires Admissible(file, start, maxPacket, w, truthful, replies)
    requires var t := Run(start, |file|, maxPacket, w, replies);
             t.s.inFlight > 0 && Allowed(file, maxPacket, truthful, t.s.reqs, r)
    ensures Admissible(file, start, maxPacket, w, truthful, replies + [r])
    ensures Run(start, |file|, maxPacket, w, replies + [r])
         == Issue(Take(Run(start, |file|, maxPacket, w, replies), w, |file|, r), maxPacket, |file|)
  {
    hide Issue, Take, Allowed;
    assert (replies + [r])[..|replies + [r]| - 1] == replies;
  }

  lemma IssueStep(t: Trace, maxPacket: nat, fileSize: nat)
    ensures Issue(t, maxPacket, fileSize)
         == if MaySend(t.s) then
              Issue(t.(s := Send(t.s, maxPacket, fileSize), issued := t.issued + {t.s.offset}), maxPacket, fileSize)
            else t
  {
  }

  lemma FlushStep(t: Trace, w: Writer)
    ensures if t.s.writeOffset in t.s.pending then
              var u := EmitLate(t, w);
              Flush(t, w) == if u.halted then u else Flush(u, w)
            else Flush(t, w) == t
  {
    hide EmitLate;
  }

  /** While something is outstanding, the server has an answer. */
  lemma CanAnswer(file: seq<byte>, maxPacket: nat, truthful: bool, reqs: map<nat, nat>)
    requires |reqs| > 0 && maxPacket > 0
    ensures exists r :: Allowed(file, maxPacket, truthful, reqs, r) && !(r.Status? && r.status.None?)
  {
    assert reqs.Keys != {};
    var id :| id in reqs;
    var o := reqs[id];
    if o < |file| {
      var r := Data(id, file[o..o + Lesser(maxPacket, |file| - o)]);
      assert Allowed(file, maxPacket, truthful, reqs, r);
    } else {
      var r := Status(id, Some(Eof));
      assert Allowed(file, maxPacket, truthful, reqs, r);
    }
  }

  /** The server's next move; it confirms without data no more than `patience` times. */
  method NextReply(file: seq<byte>, maxPacket: nat, truthful: bool, reqs: map<nat, nat>, patience: nat)
    returns (r: Reply)
    requires |reqs| > 0 && maxPacket > 0
    ensures Allowed(file, maxPacket, truthful, reqs, r) && (r.Status? && r.status.None? ==> patience > 0)
    ensures !r.Lost? ==> r.id in reqs
    ensures r.Data? ==> reqs[r.id] < |file| && |Inside(file, reqs - {r.id})| < |Inside(file, reqs)|
  {
    hide Inside;
    CanAnswer(file, maxPacket, truthful, reqs);
    r :| Allowed(file, maxPacket, truthful, reqs, r) && (r.Status? && r.status.None? ==> patience > 0);
    if r.Data? {
      InsideDrop(file, reqs, r.id);
    }
  }

  /** Writing a chunk whose turn has come, and then the waiting chunks that follow it. */
  method WriteInTurn(ghost t: Trace, s0: Copy, w: Writer, fileSize: nat, id: nat, data: seq<byte>) returns (s: Copy)
    requires s0 == t.s && s0.inFlight > 0
    ensures s == Due(t, w, fileSize, id, data).s
  {
    hide Flush;
    var took := Taken(w, s0.written, data);
    s := Tally(Emit(Accept(s0, id), data, took), took.n);
    if Bad(took, data) {
      return;
    }
    s := Widen(s, fileSize);
    ghost var u := EmitNow(t, w, id, data);
    u := u.(s := s);
    ghost var all := Flush(u, w);
    while s.writeOffset in s.pending
      invariant u.s == s && Flush(u, w) == all
      decreases |s.pending|
    {
      FlushStep(u, w);
      var pendingData := s.pending[s.writeOffset];
      Fewer(s.pending, s.writeOffset);
      u := EmitLate(u, w);
      took := Taken(w, s.written, pendingData);
      s := Emit(Unpark(s), pendingData, took);
      if Bad(took, pendingData) {
        return;
      }
    }
    FlushStep(u, w);
  }

  class File {
    var offset: nat

    constructor ()
      ensures offset == 0
    {
      offset := 0;
    }

    /** `File.WriteTo` to writer `w`, against a server holding `file` (whose size `Stat`
        reported).  Whatever replies come, the writer has a contiguous stretch of the file
        from the start offset on, and the count returned lacks the bytes that had to wait.  A
        truthful server makes it all of the file, unless a write goes wrong, which is what is
        returned; the internal inconsistency is then never met.  With any other server and no
        write gone wrong, all of the file is written if and only if all of it was delivered;
        if a write goes wrong that is returned, or the last error of the connection since. */
    method WriteTo(file: seq<byte>, maxPacket: nat, w: Writer, truthful: bool, patience: nat)
      returns (copied: nat, err: Option<Error>, written: seq<byte>, ghost replies: seq<Reply>)
      requires maxPacket > 0
      ensures Admissible(file, offset, maxPacket, w, truthful, replies)
      ensures var t := Run(offset, |file|, maxPacket, w, replies);
              var after := Afterwards(offset, |file|, maxPacket, w, replies);
              && t.s.inFlight == 0 && written == t.s.written && err == Returned(t.s)
              && Prefix(file, offset, written) && copied + t.late == |written| && (Reliable(w) ==> !t.halted)
              && (!t.halted ==> (written == Rest(file, offset) <==> Delivered(file, maxPacket, t)))
              && (!t.halted ==> if LastLost(replies).Some? then err == Reported(LastLost(replies))
                                else Answered(Standing(offset, |file|, maxPacket, w, replies), t.s))
              && (t.halted ==> err == Reported(if after.Some? then after else t.fault))
              && (truthful ==> err == Reported(t.fault) && (!t.halted ==> written == Rest(file, offset)))
    {
      hide AtRest, Honest, Take, Issue, MaySend, Allowed, Reliable, Run, Admissible, Inside, Delivered, Prefix, Due,
        Afterwards, Returned, Standing, Answered, LastLost;
      ghost var start := offset;
      var s, left := Start(offset), patience;
      ghost var t := Begin(start);
      replies := [];
      StartRests(file, start, maxPacket);
      RunStarts(file, start, maxPacket, w, truthful);
      while s.firstErr.err.None? || s.inFlight > 0
        invariant s == t.s && AtRest(file, start, maxPacket, t)
        invariant Admissible(file, start, maxPacket, w, truthful, replies)
        invariant Run(start, |file|, maxPacket, w, replies) == Issue(t, maxPacket, |file|)
        decreases left, if s.firstErr.err.None? then 1 else 0,
                  if s.offset < |file| then |file| - s.offset else 0,
                  if s.firstErr.err.None? then |Inside(file, s.reqs)| else s.inFlight
      {
        Sent(file, start, maxPacket, t);
        ghost var u := t;
        while MaySend(s)
          invariant s == u.s && Issue(u, maxPacket, |file|) == Issue(t, maxPacket, |file|)
          decreases s.desiredInFlight - s.inFlight - |s.pending|
        {
          IssueStep(u, maxPacket, |file|);
          SendShrinks(s, maxPacket, |file|);
          u := u.(s := Send(u.s, maxPacket, |file|), issued := u.issued + {u.s.offset});
          s := Send(s, maxPacket, |file|);
        }
        IssueStep(u, maxPacket, |file|);
        if s.inFlight == 0 {
          t := u;
          break;
        }
        RestUse(file, start, maxPacket, u);
        var reply := NextReply(file, maxPacket, truthful, s.reqs, left);
        Received(file, start, maxPacket, u, w, truthful, reply);
        RunGoesOn(file, start, maxPacket, w, truthful, replies, reply);
        TakeIs(u, w, |file|, reply);
        if reply.Data? && s.reqs[reply.id] == s.writeOffset {
          s := WriteInTurn(u, s, w, |file|, reply.id, reply.data);
        } else {
          s := if reply.Data? then Park(s, reply.id, reply.data) else Fail(s, reply);
        }
        if reply.Status? && reply.status.None? {
          left := left - 1;
        }
        replies := replies + [reply];
        t := Take(u, w, |file|, reply);
      }
      IssueStep(t, maxPacket, |file|);
      MayNotSend(s);
      EveryRun(file, start, maxPacket, w, truthful, replies);
      copied, err, written := s.copied, Returned(s), s.written;
    }
  }

  lemma SendShrinks(s: Copy, maxPacket: nat, fileSize: nat)
    requires MaySend(s)
    ensures var u := Send(s, maxPacket, fileSize);
            u.desiredInFlight - u.inFlight - |u.pending| < s.desiredInFlight - s.inFlight - |s.pending|
            && s.desiredInFlight - s.inFlight - |s.pending| > 0
  {
  }

  lemma RestUse(file: seq<byte>, start: nat, maxPacket: nat, t: Trace)
    requires AtRest(file, start, maxPacket, t)
    ensures t.s.inFlight <= |t.s.reqs|
  {
  }

  lemma MayNotSend(s: Copy)
    ensures s.firstErr.err.Some? ==> !MaySend(s)
  {
  }

  lemma TakeIs(t: Trace, w: Writer, fileSize: nat, r: Reply)
    requires t.s.inFlight > 0 && (!r.Lost? ==> r.id in t.s.reqs)
    ensures Take(t, w, fileSize, r).s ==
            if r.Data? then
              if t.s.reqs[r.id] == t.s.writeOffset then Due(t, w, fileSize, r.id, r.data).s else Park(t.s, r.id, r.data)
            else Fail(t.s, r)
  {
    hide Due;
  }
}
