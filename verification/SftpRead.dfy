/**
 `File.Read` of the SFTP client: a read of many bytes is cut into requests kept in
 flight together, answered in any order and possibly in part.  The server is an
 adversary: at every step it picks any outstanding request and any answer that the
 protocol allows for a fixed file; a faulty one may also refuse, confirm without data,
 report the end of the file where it is not, or drop the connection.
 */
module SftpRead {
  import opened Wrappers
  import opened SftpClient

  /** An in-flight request for `len` bytes into the caller's buffer at `lo`. */
  datatype Request = Request(lo: nat, len: nat)

  /** The end of the file reported where it is: no fault. */
  predicate AtEnd(file: seq<byte>, start: nat, req: Request, status: Option<Error>) {
    status == Some(Eof) && |file| <= start + req.lo
  }

  /** The replies that may come: data is the file's and never empty. */
  predicate Allowed(file: seq<byte>, start: nat, reqs: map<nat, Request>, faulty: bool, r: Reply) {
    match r
    case Lost(_) => faulty
    case Status(id, status) => id in reqs && (faulty || AtEnd(file, start, reqs[id], status))
    case Data(id, data) =>
      && id in reqs && |data| > 0 && start + reqs[id].lo + |data| <= |file|
      && data == file[start + reqs[id].lo..start + reqs[id].lo + |data|]
  }

  // ---------- what became of every byte asked for ----------

  datatype Mark = Filled | Dropped | Waiting(id: nat)

  /** The bytes a request stands for are exactly the ones waiting for it. */
  ghost predicate Accounted(marks: seq<Mark>, reqs: map<nat, Request>) {
    && (forall i :: i in reqs ==> reqs[i].len > 0 && reqs[i].lo + reqs[i].len <= |marks|)
    && (forall p :: 0 <= p < |marks| && marks[p].Waiting? ==>
          marks[p].id in reqs && reqs[marks[p].id].lo <= p < reqs[marks[p].id].lo + reqs[marks[p].id].len)
    && (forall i, p :: i in reqs && reqs[i].lo <= p < reqs[i].lo + reqs[i].len ==> marks[p] == Waiting(i))
  }

  ghost function Fill(n: nat, m: Mark): (r: seq<Mark>)
    ensures |r| == n && forall p :: 0 <= p < n ==> r[p] == m
  {
    seq(n, _ => m)
  }

  ghost function Paint(marks: seq<Mark>, lo: nat, n: nat, m: Mark): (r: seq<Mark>)
    requires lo + n <= |marks|
    ensures |r| == |marks|
    ensures forall p :: 0 <= p < |r| ==> r[p] == if lo <= p < lo + n then m else marks[p]
  {
    marks[..lo] + Fill(n, m) + marks[lo + n..]
  }

  /** Request `r` answered in its first `n` places, the rest asked for again under `id2`. */
  ghost function Refill(marks: seq<Mark>, r: Request, n: nat, id2: nat): (m: seq<Mark>)
    requires r.lo + r.len <= |marks| && n <= r.len
    ensures |m| == |marks|
  {
    Paint(Paint(marks, r.lo, r.len, Waiting(id2)), r.lo, n, Filled)
  }

  /** How many bytes carry a mark (`Filled`, or anything but waiting). */
  ghost function CountFilled(marks: seq<Mark>): nat {
    if marks == [] then 0 else (if marks[0].Filled? then 1 else 0) + CountFilled(marks[1..])
  }

  ghost function CountDone(marks: seq<Mark>): (n: nat)
    ensures n <= |marks|
  {
    if marks == [] then 0 else (if marks[0].Waiting? then 0 else 1) + CountDone(marks[1..])
  }

  lemma {:induction false} CountConcat(a: seq<Mark>, b: seq<Mark>)
    ensures CountFilled(a + b) == CountFilled(a) + CountFilled(b)
    ensures CountDone(a + b) == CountDone(a) + CountDone(b)
  {
    if a == [] {
      assert a + b == b;
    } else {
      assert (a + b)[1..] == a[1..] + b;
      CountConcat(a[1..], b);
    }
  }

  lemma {:induction false} CountSame(s: seq<Mark>, filled: bool, waiting: bool)
    requires forall p :: 0 <= p < |s| ==> s[p].Filled? == filled && s[p].Waiting? == waiting
    ensures CountFilled(s) == (if filled then |s| else 0) && CountDone(s) == (if waiting then 0 else |s|)
  {
    if s != [] { CountSame(s[1..], filled, waiting); }
  }

  lemma CountPaint(marks: seq<Mark>, lo: nat, n: nat, m: Mark)
    requires lo + n <= |marks| && forall p :: lo <= p < lo + n ==> marks[p].Waiting?
    ensures CountFilled(Paint(marks, lo, n, m)) == CountFilled(marks) + (if m.Filled? then n else 0)
    ensures CountDone(Paint(marks, lo, n, m)) == CountDone(marks) + (if m.Waiting? then 0 else n)
  {
    hide CountFilled, CountDone;
    CountMiddle(marks[..lo], marks[lo..lo + n], marks[lo + n..], Fill(n, m), m);
    CutInThree(marks, lo, lo + n);
  }

  lemma CountMiddle(a: seq<Mark>, w: seq<Mark>, b: seq<Mark>, w': seq<Mark>, m: Mark)
    requires |w'| == |w| && (forall p :: 0 <= p < |w| ==> w[p].Waiting?) && (forall p :: 0 <= p < |w'| ==> w'[p] == m)
    ensures CountFilled(a + w' + b) == CountFilled(a + w + b) + (if m.Filled? then |w| else 0)
    ensures CountDone(a + w' + b) == CountDone(a + w + b) + (if m.Waiting? then 0 else |w|)
  {
    hide CountFilled, CountDone;
    CountConcat(a + w, b);
    CountConcat(a, w);
    CountConcat(a + w', b);
    CountConcat(a, w');
    CountSame(w, false, true);
    CountSame(w', m.Filled?, m.Waiting?);
  }

  /** Issuing a request for the next `len` bytes. */
  lemma SendKeeps(marks: seq<Mark>, reqs: map<nat, Request>, id: nat, len: nat)
    requires Accounted(marks, reqs) && id !in reqs && len > 0
    ensures var marks' := marks + Fill(len, Waiting(id));
            && Accounted(marks', reqs[id := Request(|marks|, len)])
            && CountFilled(marks') == CountFilled(marks) && CountDone(marks') == CountDone(marks)
  {
    hide CountFilled, CountDone, Fill;
    CountConcat(marks, Fill(len, Waiting(id)));
    CountSame(Fill(len, Waiting(id)), false, true);
    SendAccounted(marks, reqs, id, len, marks + Fill(len, Waiting(id)));
  }

  lemma SendAccounted(marks: seq<Mark>, reqs: map<nat, Request>, id: nat, len: nat, marks': seq<Mark>)
    requires Accounted(marks, reqs) && id !in reqs && len > 0 && |marks'| == |marks| + len
    requires forall p :: 0 <= p < |marks'| ==> marks'[p] == if p < |marks| then marks[p] else Waiting(id)
    ensures Accounted(marks', reqs[id := Request(|marks|, len)])
  {
  }

  /** Giving a request up. */
  lemma DropKeeps(marks: seq<Mark>, reqs: map<nat, Request>, id: nat)
    requires Accounted(marks, reqs) && id in reqs
    ensures var marks' := Paint(marks, reqs[id].lo, reqs[id].len, Dropped);
            && Accounted(marks', reqs - {id})
            && CountFilled(marks') == CountFilled(marks) && CountDone(marks') > CountDone(marks)
  {
    hide CountFilled, CountDone;
    DropAccounted(marks, reqs, id);
    CountPaint(marks, reqs[id].lo, reqs[id].len, Dropped);
  }

  lemma DropAccounted(marks: seq<Mark>, reqs: map<nat, Request>, id: nat)
    requires Accounted(marks, reqs) && id in reqs
    ensures Accounted(Paint(marks, reqs[id].lo, reqs[id].len, Dropped), reqs - {id})
  {
    hide Paint;
    var r := reqs[id];
    assert forall p :: r.lo <= p < r.lo + r.len ==> marks[p] == Waiting(id);
    var marks' := Paint(marks, r.lo, r.len, Dropped);
    forall i, p | i in reqs - {id} && reqs[i].lo <= p < reqs[i].lo + reqs[i].len ensures marks'[p] == Waiting(i) {
      assert marks[p] == Waiting(i);
    }
  }

  /** Filling in the first `n` bytes of a request and asking again for the rest, if any. */
  lemma FillKeeps(marks: seq<Mark>, reqs: map<nat, Request>, id: nat, n: nat, id2: nat)
    requires Accounted(marks, reqs) && id in reqs && 0 < n <= reqs[id].len && id2 !in reqs
    ensures var r := reqs[id];
            var marks' := Refill(marks, r, n, id2);
            && Accounted(marks', if n < r.len then (reqs - {id})[id2 := Request(r.lo + n, r.len - n)] else reqs - {id})
            && CountFilled(marks') == CountFilled(marks) + n && CountDone(marks') == CountDone(marks) + n
  {
    hide CountFilled, CountDone;
    var r := reqs[id];
    FillAccounted(marks, reqs, id, n, id2);
    CountPaint(marks, r.lo, r.len, Waiting(id2));
    CountPaint(Paint(marks, r.lo, r.len, Waiting(id2)), r.lo, n, Filled);
  }

  lemma FillAccounted(marks: seq<Mark>, reqs: map<nat, Request>, id: nat, n: nat, id2: nat)
    requires Accounted(marks, reqs) && id in reqs && 0 < n <= reqs[id].len && id2 !in reqs
    ensures var r := reqs[id];
            var marks' := Refill(marks, r, n, id2);
            Accounted(marks', if n < r.len then (reqs - {id})[id2 := Request(r.lo + n, r.len - n)] else reqs - {id})
  {
    var r := reqs[id];
    var marks' := Refill(marks, r, n, id2);
    hide Paint;
    forall p | 0 <= p < |marks'|
      ensures marks'[p] == if r.lo <= p < r.lo + n then Filled else if r.lo <= p < r.lo + r.len then Waiting(id2)
              else marks[p]
    {
    }
    forall i, p | i in reqs - {id} && reqs[i].lo <= p < reqs[i].lo + reqs[i].len ensures marks'[p] == Waiting(i) {
      assert marks[p] == Waiting(i);
    }
  }

  // ---------- the read loop as a function of the replies ----------

  /** The variables of the read loop; `sent` bytes of the buffer were asked for so far. */
  datatype Loop = Loop(
    inFlight: nat, desiredInFlight: nat, reqs: map<nat, Request>, nextId: nat, sent: nat, read: nat,
    firstErr: OffsetError)

  /** A moment of a run: the loop's variables, the buffer, what became of every byte asked
      for, the bytes given up after a status, and whether the connection was lost. */
  datatype Trace = Trace(s: Loop, buf: seq<byte>, marks: seq<Mark>, refused: set<nat>, hungUp: bool)

  const START := Loop(0, 1, map[], 0, 0, 0, NO_ERROR)

  predicate Covers(req: Request, p: nat) { req.lo <= p < req.lo + req.len }

  function Range(req: Request): (r: set<nat>)
    ensures forall p :: p in r <==> req.lo <= p < req.lo + req.len
  {
    set p: nat | p < req.lo + req.len && Covers(req, p)
  }

  /** `sendReq`, for the next `l` bytes of the buffer. */
  function Send(s: Loop, l: nat): Loop {
    s.(reqs := s.reqs[s.nextId := Request(s.sent, l)], nextId := s.nextId + 1, inFlight := s.inFlight + 1,
        sent := s.sent + l)
  }

  predicate MaySend(s: Loop, size: nat) {
    s.inFlight < s.desiredInFlight && s.sent < size && s.firstErr.err.None?
  }

  /** The inner loop: requests go out while the window allows. */
  ghost function Issue(t: Trace, maxPacket: nat): Trace
    requires maxPacket > 0
    decreases |t.buf| - t.s.sent
  {
    if MaySend(t.s, |t.buf|) then
      var l := Lesser(|t.buf| - t.s.sent, maxPacket);
      Issue(t.(s := Send(t.s, l), marks := t.marks + Fill(l, Waiting(t.s.nextId))), maxPacket)
    else t
  }

  predicate Known(s: Loop, r: Reply) { !r.Lost? && r.id in s.reqs }

  /** What receiving a reply does to the loop's variables; an unknown id is an error. */
  function Receive(s: Loop, start: nat, r: Reply): Loop
    requires s.inFlight > 0
  {
    if r.Lost? then s.(inFlight := s.inFlight - 1, firstErr := OffsetError(0, Some(r.err)))
    else if r.id !in s.reqs then s.(inFlight := s.inFlight - 1, firstErr := OffsetError(0, Some(Other(-1))))
    else
      var req := s.reqs[r.id];
      match r
      case Status(id, status) =>
        s.(inFlight := s.inFlight - 1, reqs := s.reqs - {id}, firstErr := Keep(s.firstErr, start + req.lo, status))
      case Data(id, data) =>
        var wider := if s.desiredInFlight < MAX_CONCURRENT_REQUESTS then s.desiredInFlight + 1 else s.desiredInFlight;
        if |data| < req.len then
          s.(reqs := (s.reqs - {id})[s.nextId := Request(req.lo + |data|, req.len - |data|)], nextId := s.nextId + 1,
             read := s.read + |data|, desiredInFlight := wider)
        else s.(inFlight := s.inFlight - 1, reqs := s.reqs - {id}, read := s.read + req.len, desiredInFlight := wider)
  }

  /** What receiving a reply does to the marks. */
  ghost function Remark(marks: seq<Mark>, s: Loop, r: Reply): seq<Mark> {
    if !Known(s, r) || s.reqs[r.id].lo + s.reqs[r.id].len > |marks| then marks
    else
      var req := s.reqs[r.id];
      match r
      case Status(_, _) => Paint(marks, req.lo, req.len, Dropped)
      case Data(_, data) =>
        Refill(marks, req, Lesser(|data|, req.len), s.nextId)
  }

  /** The buffer after `copy` of `data` into the part a request stands for. */
  function Copied(buf: seq<byte>, req: Request, data: seq<byte>): seq<byte> {
    var n := Lesser(|data|, req.len);
    if req.lo + n <= |buf| then buf[..req.lo] + data[..n] + buf[req.lo + n..] else buf
  }

  ghost function Take(t: Trace, start: nat, r: Reply): Trace
    requires t.s.inFlight > 0
  {
    Trace(Receive(t.s, start, r),
          if r.Data? && Known(t.s, r) then Copied(t.buf, t.s.reqs[r.id], r.data) else t.buf,
          Remark(t.marks, t.s, r),
          if r.Status? && Known(t.s, r) then t.refused + Range(t.s.reqs[r.id]) else t.refused,
          t.hungUp || !Known(t.s, r))
  }

  /** A run: what `Read` at `start` into a buffer holding `buf0` has done once it received
      `replies` and issued what it could. */
  ghost function Run(start: nat, buf0: seq<byte>, maxPacket: nat, replies: seq<Reply>): Trace
    requires maxPacket > 0
  {
    if replies == [] then Issue(Trace(START, buf0, [], {}, false), maxPacket)
    else
      var t := Run(start, buf0, maxPacket, replies[..|replies| - 1]);
      if t.s.inFlight == 0 then t else Issue(Take(t, start, replies[|replies| - 1]), maxPacket)
  }

  /** Replies that may come, in this order, about `file`. */
  ghost predicate Admissible(file: seq<byte>, start: nat, buf0: seq<byte>, maxPacket: nat, faulty: bool,
                             replies: seq<Reply>)
    requires maxPacket > 0
  {
    replies != [] ==>
      var before, r := replies[..|replies| - 1], replies[|replies| - 1];
      var t := Run(start, buf0, maxPacket, before);
      Admissible(file, start, buf0, maxPacket, faulty, before) && t.s.inFlight > 0
          && Allowed(file, start, t.s.reqs, faulty, r)
  }

  // ---------- what every step keeps ----------

  /** Every filled byte is the file's, and every other byte is as it was. */
  ghost predicate Progress(file: seq<byte>, start: nat, buf: seq<byte>, buf0: seq<byte>, marks: seq<Mark>) {
    && |marks| <= |buf| == |buf0|
    && (forall p :: 0 <= p < |marks| && marks[p].Filled? ==> start + p < |file| && buf[p] == file[start + p])
    && (forall p :: 0 <= p < |buf| && (p < |marks| ==> !marks[p].Filled?) ==> buf[p] == buf0[p])
  }

  /** The bytes given up are those dropped. */
  ghost predicate Given(marks: seq<Mark>, refused: set<nat>) {
    && (forall p :: p in refused ==> p < |marks|)
    && (forall p :: 0 <= p < |marks| ==> (marks[p].Dropped? <==> p in refused))
  }

  /** Counters and table agree, as far as replies could be told apart. */
  ghost predicate Counts(s: Loop, hungUp: bool) {
    && (forall i :: i in s.reqs ==> i < s.nextId)
    && (if hungUp then s.inFlight < |s.reqs| else s.inFlight == |s.reqs|)
    && (hungUp ==> s.firstErr.offset == 0 && s.firstErr.err.Some?)
    && 1 <= s.desiredInFlight <= MAX_CONCURRENT_REQUESTS && s.inFlight <= s.desiredInFlight
  }

  /** The loop invariant. */
  ghost predicate Invariant(file: seq<byte>, start: nat, buf0: seq<byte>, t: Trace) {
    && Progress(file, start, t.buf, buf0, t.marks) && Accounted(t.marks, t.s.reqs) && Given(t.marks, t.refused)
    && t.s.sent == |t.marks| && t.s.read == CountFilled(t.marks) && Counts(t.s, t.hungUp)
    && (t.s.firstErr.err.Some? && !t.hungUp ==> t.refused != {})
  }

  /** Without faults: what is kept is the end of the file, found at a byte asked for. */
  ghost predicate Honest(file: seq<byte>, start: nat, t: Trace) {
    && !t.hungUp
    && (forall p :: p in t.refused ==> |file| <= start + p && t.s.firstErr.err.Some?)
    && (t.s.firstErr.err.Some? ==>
          t.s.firstErr.err == Some(Eof) && |file| <= t.s.firstErr.offset
              && start <= t.s.firstErr.offset < start + t.s.sent)
  }

  lemma Started(file: seq<byte>, start: nat, buf0: seq<byte>)
    ensures Invariant(file, start, buf0, Trace(START, buf0, [], {}, false))
    ensures Honest(file, start, Trace(START, buf0, [], {}, false))
  {
  }

  /** Issuing requests keeps the invariant. */
  lemma {:induction false} Sent(file: seq<byte>, start: nat, buf0: seq<byte>, t: Trace, maxPacket: nat)
    requires Invariant(file, start, buf0, t) && maxPacket > 0
    ensures var u := Issue(t, maxPacket);
            Invariant(file, start, buf0, u) && (Honest(file, start, t) ==> Honest(file, start, u))
            && CountDone(u.marks) == CountDone(t.marks) && u.buf == t.buf && u.s.firstErr == t.s.firstErr
            && !MaySend(u.s, |u.buf|) && (t.s.firstErr.err.Some? ==> u == t)
    decreases |t.buf| - t.s.sent
  {
    hide Accounted, CountFilled, CountDone, Progress, Counts, Given;
    if MaySend(t.s, |t.buf|) {
      var l := Lesser(|t.buf| - t.s.sent, maxPacket);
      var u := t.(s := Send(t.s, l), marks := t.marks + Fill(l, Waiting(t.s.nextId)));
      CountsUse(t.s, t.hungUp);
      SendKeeps(t.marks, t.s.reqs, t.s.nextId, l);
      ProgressSend(file, start, t.buf, buf0, t.marks, u.marks);
      GivenSend(t.marks, t.refused, u.marks);
      CountsSend(t.s, t.hungUp, l);
      Sent(file, start, buf0, u, maxPacket);
    }
  }

  lemma CountsUse(s: Loop, hungUp: bool)
    requires Counts(s, hungUp)
    ensures s.nextId !in s.reqs && (s.inFlight > 0 ==> |s.reqs| > 0)
  {
  }

  lemma ProgressSend(file: seq<byte>, start: nat, buf: seq<byte>, buf0: seq<byte>, marks: seq<Mark>, marks': seq<Mark>)
    requires Progress(file, start, buf, buf0, marks) && marks <= marks' && |marks'| <= |buf|
    requires forall p :: |marks| <= p < |marks'| ==> marks'[p].Waiting?
    ensures Progress(file, start, buf, buf0, marks')
  {
  }

  lemma GivenSend(marks: seq<Mark>, refused: set<nat>, marks': seq<Mark>)
    requires Given(marks, refused) && marks <= marks' && forall p :: |marks| <= p < |marks'| ==> marks'[p].Waiting?
    ensures Given(marks', refused)
  {
  }

  lemma CountsSend(s: Loop, hungUp: bool, l: nat)
    requires Counts(s, hungUp) && s.inFlight < s.desiredInFlight
    ensures Counts(Send(s, l), hungUp)
  {
    assert |Send(s, l).reqs| == |s.reqs| + 1;
  }

  /** Every reply keeps the invariant; one with a packet also settles at least one byte,
      which is why the loop ends. */
  lemma Received(file: seq<byte>, start: nat, buf0: seq<byte>, t: Trace, faulty: bool, r: Reply)
    requires Invariant(file, start, buf0, t) && t.s.inFlight > 0 && Allowed(file, start, t.s.reqs, faulty, r)
    ensures Invariant(file, start, buf0, Take(t, start, r))
    ensures CountDone(Take(t, start, r).marks) >= CountDone(t.marks) + (if r.Lost? then 0 else 1)
    ensures r.Lost? ==> Take(t, start, r).s.firstErr.err.Some? && Take(t, start, r).s.inFlight == t.s.inFlight - 1
    ensures !faulty && Honest(file, start, t) ==> Honest(file, start, Take(t, start, r))
  {
    hide CountFilled, CountDone, Progress, Accounted, Paint, Given, Counts, Honest, Invariant;
    InvariantUse(file, start, buf0, t);
    match r {
      case Lost(e) => ReceivedLost(file, start, buf0, t, e);
      case Status(id, status) =>
        ReceivedStatus(file, start, buf0, t, id, status);
        if !faulty && Honest(file, start, t) {
          HonestStatus(file, start, t, id);
        }
      case Data(id, data) =>
        ReceivedData(file, start, buf0, t, id, data);
        if Honest(file, start, t) {
          HonestData(file, start, t, id, data);
        }
    }
  }

  lemma InvariantUse(file: seq<byte>, start: nat, buf0: seq<byte>, t: Trace)
    requires Invariant(file, start, buf0, t)
    ensures Progress(file, start, t.buf, buf0, t.marks) && Accounted(t.marks, t.s.reqs) && Given(t.marks, t.refused)
    ensures t.s.sent == |t.marks| <= |t.buf| == |buf0| && t.s.read == CountFilled(t.marks) && Counts(t.s, t.hungUp)
    ensures t.s.firstErr.err.Some? && !t.hungUp ==> t.refused != {}
  {
  }

  lemma ReceivedLost(file: seq<byte>, start: nat, buf0: seq<byte>, t: Trace, e: Error)
    requires Invariant(file, start, buf0, t) && t.s.inFlight > 0
    ensures Invariant(file, start, buf0, Take(t, start, Lost(e)))
    ensures Take(t, start, Lost(e)).marks == t.marks && Take(t, start, Lost(e)).s.firstErr.err == Some(e)
    ensures Take(t, start, Lost(e)).s.inFlight == t.s.inFlight - 1
  {
    hide CountFilled, Progress, Accounted, Given;
  }

  lemma ReceivedStatus(file: seq<byte>, start: nat, buf0: seq<byte>, t: Trace, id: nat, status: Option<Error>)
    requires Invariant(file, start, buf0, t) && t.s.inFlight > 0 && id in t.s.reqs
    ensures Invariant(file, start, buf0, Take(t, start, Status(id, status)))
    ensures CountDone(Take(t, start, Status(id, status)).marks) > CountDone(t.marks)
  {
    hide CountFilled, CountDone, Progress, Accounted, Paint, Given, Counts, Invariant, Range;
    InvariantUse(file, start, buf0, t);
    InBuffer(t.marks, t.s.reqs, id);
    var req, u := t.s.reqs[id], Take(t, start, Status(id, status));
    assert u.marks == Paint(t.marks, req.lo, req.len, Dropped);
    ProgressDrop(file, start, t.buf, buf0, t.marks, req);
    DropKeeps(t.marks, t.s.reqs, id);
    GivenDrop(t.marks, t.refused, req);
    CountsStatus(t.s, t.hungUp, start, id, status);
    hide Take, Receive, Remark;
    assert u.buf == t.buf && u.s.sent == t.s.sent && u.s.read == t.s.read by {
      TakeStatus(t, start, id, status);
    }
    TakeStatus(t, start, id, status);
    assert req.lo in Range(req);
    InvariantMake(file, start, buf0, u);
  }

  lemma TakeStatus(t: Trace, start: nat, id: nat, status: Option<Error>)
    requires t.s.inFlight > 0 && id in t.s.reqs
    ensures var u := Take(t, start, Status(id, status));
            u.buf == t.buf && u.s.sent == t.s.sent && u.s.read == t.s.read && u.s.reqs == t.s.reqs - {id}
            && u.refused == t.refused + Range(t.s.reqs[id]) && u.hungUp == t.hungUp
            && u.s == Receive(t.s, start, Status(id, status))
  {
    hide Range, Remark;
  }

  lemma InvariantMake(file: seq<byte>, start: nat, buf0: seq<byte>, t: Trace)
    requires Progress(file, start, t.buf, buf0, t.marks) && Accounted(t.marks, t.s.reqs) && Given(t.marks, t.refused)
    requires t.s.sent == |t.marks| && t.s.read == CountFilled(t.marks) && Counts(t.s, t.hungUp)
    requires t.s.firstErr.err.Some? && !t.hungUp ==> t.refused != {}
    ensures Invariant(file, start, buf0, t)
  {
  }

  lemma ProgressDrop(file: seq<byte>, start: nat, buf: seq<byte>, buf0: seq<byte>, marks: seq<Mark>, req: Request)
    requires Progress(file, start, buf, buf0, marks) && req.lo + req.len <= |marks|
    requires forall p :: req.lo <= p < req.lo + req.len ==> marks[p].Waiting?
    ensures Progress(file, start, buf, buf0, Paint(marks, req.lo, req.len, Dropped))
  {
    hide Paint;
  }

  lemma GivenDrop(marks: seq<Mark>, refused: set<nat>, req: Request)
    requires Given(marks, refused) && req.lo + req.len <= |marks|
    ensures Given(Paint(marks, req.lo, req.len, Dropped), refused + Range(req))
  {
    hide Paint;
  }

  lemma CountsStatus(s: Loop, hungUp: bool, start: nat, id: nat, status: Option<Error>)
    requires Counts(s, hungUp) && s.inFlight > 0 && id in s.reqs
    ensures Counts(Receive(s, start, Status(id, status)), hungUp)
  {
    Fewer(s.reqs, id);
  }

  lemma ReceivedData(file: seq<byte>, start: nat, buf0: seq<byte>, t: Trace, id: nat, data: seq<byte>)
    requires Invariant(file, start, buf0, t) && t.s.inFlight > 0
            && Allowed(file, start, t.s.reqs, false, Data(id, data))
    ensures Invariant(file, start, buf0, Take(t, start, Data(id, data)))
    ensures CountDone(Take(t, start, Data(id, data)).marks) > CountDone(t.marks)
  {
    hide CountFilled, CountDone, Progress, Accounted, Paint, Given, Counts, Invariant, Range, Allowed, Take, Copied,
      Receive, Spliced, Refill;
    InvariantUse(file, start, buf0, t);
    CountsUse(t.s, t.hungUp);
    AllowedData(file, start, t, id, data);
    InBuffer(t.marks, t.s.reqs, id);
    var req, n, u := t.s.reqs[id], Lesser(|data|, t.s.reqs[id].len), Take(t, start, Data(id, data));
    TakeData(t, start, id, data);
    ProgressFill(file, start, t.buf, buf0, t.marks, req, n, t.s.nextId, u.buf);
    FillKeeps(t.marks, t.s.reqs, id, n, t.s.nextId);
    GivenFill(t.marks, t.refused, req, n, t.s.nextId);
    CountsData(t.s, t.hungUp, start, id, data);
    InvariantMake(file, start, buf0, u);
  }

  /** `after` is `buf` with the file's bytes for the first `n` places of the request. */
  ghost predicate Spliced(file: seq<byte>, start: nat, buf: seq<byte>, after: seq<byte>, req: Request, n: nat) {
    && start + req.lo + n <= |file| && |after| == |buf|
    && forall p :: 0 <= p < |buf| ==> after[p] == if req.lo <= p < req.lo + n then file[start + p] else buf[p]
  }

  /** Data is the file's, and `copy` puts it in its place. */
  lemma AllowedData(file: seq<byte>, start: nat, t: Trace, id: nat, data: seq<byte>)
    requires Allowed(file, start, t.s.reqs, false, Data(id, data))
    ensures id in t.s.reqs && |data| > 0
    ensures var req := t.s.reqs[id]; var n := Lesser(|data|, req.len);
            req.lo + n <= |t.buf| ==> Spliced(file, start, t.buf, Copied(t.buf, req, data), req, n)
  {
    var req := t.s.reqs[id];
    var n := Lesser(|data|, req.len);
    if req.lo + n <= |t.buf| {
      forall p | 0 <= p < |t.buf|
        ensures Copied(t.buf, req, data)[p] == if req.lo <= p < req.lo + n then file[start + p] else t.buf[p]
      {
        assert req.lo <= p < req.lo + n ==> data[p - req.lo] == file[start + p];
      }
    }
  }

  lemma TakeData(t: Trace, start: nat, id: nat, data: seq<byte>)
    requires t.s.inFlight > 0 && id in t.s.reqs && t.s.reqs[id].lo + t.s.reqs[id].len <= |t.marks|
    ensures var u := Take(t, start, Data(id, data)); var req := t.s.reqs[id]; var n := Lesser(|data|, req.len);
            u.buf == Copied(t.buf, req, data) && u.refused == t.refused && u.hungUp == t.hungUp
            && u.marks == Refill(t.marks, req, n, t.s.nextId)
            && u.s == Receive(t.s, start, Data(id, data)) && u.s.sent == t.s.sent && u.s.read == t.s.read + n
            && u.s.firstErr == t.s.firstErr
            && u.s.reqs == if n < req.len then (t.s.reqs - {id})[t.s.nextId := Request(req.lo + n, req.len - n)]
                           else t.s.reqs - {id}
  {
    hide Copied, Paint;
  }

  lemma ProgressFill(file: seq<byte>, start: nat, buf: seq<byte>, buf0: seq<byte>, marks: seq<Mark>,
                     req: Request, n: nat, id2: nat, buf': seq<byte>)
    requires Progress(file, start, buf, buf0, marks) && req.lo + req.len <= |marks| && n <= req.len
    requires forall p :: req.lo <= p < req.lo + req.len ==> marks[p].Waiting?
    requires Spliced(file, start, buf, buf', req, n)
    ensures Progress(file, start, buf', buf0, Refill(marks, req, n, id2))
  {
    hide Paint;
    var marks' := Refill(marks, req, n, id2);
    forall p | 0 <= p < |marks'|
      ensures marks'[p] == if req.lo <= p < req.lo + n then Filled
                           else if req.lo <= p < req.lo + req.len then Waiting(id2) else marks[p]
    {
    }
  }

  lemma GivenFill(marks: seq<Mark>, refused: set<nat>, req: Request, n: nat, id2: nat)
    requires Given(marks, refused) && req.lo + req.len <= |marks| && n <= req.len
    requires forall p :: req.lo <= p < req.lo + req.len ==> marks[p].Waiting?
    ensures Given(Refill(marks, req, n, id2), refused)
  {
    hide Paint;
  }

  lemma CountsData(s: Loop, hungUp: bool, start: nat, id: nat, data: seq<byte>)
    requires Counts(s, hungUp) && s.inFlight > 0 && id in s.reqs
    ensures Counts(Receive(s, start, Data(id, data)), hungUp)
  {
    Fewer(s.reqs, id);
    var req := s.reqs[id];
    assert |data| < req.len ==> |(s.reqs - {id})[s.nextId := Request(req.lo + |data|, req.len - |data|)]| == |s.reqs|;
  }

  lemma InBuffer(marks: seq<Mark>, reqs: map<nat, Request>, id: nat)
    requires Accounted(marks, reqs) && id in reqs
    ensures reqs[id].len > 0 && reqs[id].lo + reqs[id].len <= |marks|
    ensures forall p :: reqs[id].lo <= p < reqs[id].lo + reqs[id].len ==> marks[p] == Waiting(id)
  {
  }

  lemma HonestStatus(file: seq<byte>, start: nat, t: Trace, id: nat)
    requires Honest(file, start, t) && t.s.inFlight > 0 && id in t.s.reqs && |file| <= start + t.s.reqs[id].lo
    requires t.s.reqs[id].len > 0 && t.s.reqs[id].lo + t.s.reqs[id].len <= t.s.sent
    ensures Honest(file, start, Take(t, start, Status(id, Some(Eof))))
  {
    hide Remark;
  }

  lemma HonestData(file: seq<byte>, start: nat, t: Trace, id: nat, data: seq<byte>)
    requires Honest(file, start, t) && t.s.inFlight > 0 && id in t.s.reqs
    requires t.s.reqs[id].lo + t.s.reqs[id].len <= |t.marks|
    ensures Honest(file, start, Take(t, start, Data(id, data)))
  {
    hide Remark, Copied;
  }

  // ---------- whole runs ----------

  /** Every admissible run keeps the invariant. */
  lemma {:induction false} Sound(file: seq<byte>, start: nat, buf0: seq<byte>, maxPacket: nat, faulty: bool,
                                 replies: seq<Reply>)
    requires maxPacket > 0 && Admissible(file, start, buf0, maxPacket, faulty, replies)
    ensures var t := Run(start, buf0, maxPacket, replies);
            Invariant(file, start, buf0, t) && (!faulty ==> Honest(file, start, t)) && !MaySend(t.s, |buf0|)
    decreases |replies|
  {
    hide Invariant, Honest, Take, Issue, MaySend, Allowed;
    if replies == [] {
      Started(file, start, buf0);
      Sent(file, start, buf0, Trace(START, buf0, [], {}, false), maxPacket);
    } else {
      var before, r := replies[..|replies| - 1], replies[|replies| - 1];
      var t := Run(start, buf0, maxPacket, before);
      Sound(file, start, buf0, maxPacket, faulty, before);
      Received(file, start, buf0, t, faulty, r);
      Sent(file, start, buf0, Take(t, start, r), maxPacket);
      InvariantUse(file, start, buf0, Issue(Take(t, start, r), maxPacket));
    }
  }

  /** How many bytes of the file there are to be read at `start` into `size` bytes. */
  function Available(file: seq<byte>, start: nat, size: nat): nat {
    if |file| <= start then 0 else Lesser(|file| - start, size)
  }

  /** What `Read` should have done: all there is, in place, and the end of the file reported
      just when that is less than asked for. */
  ghost predicate Truthful(file: seq<byte>, start: nat, buf0: seq<byte>, buf: seq<byte>, read: nat, err: Option<Error>)
  {
    && read == Available(file, start, |buf0|)
    && err == (if read < |buf0| then Some(Eof) else None)
    && buf == (if read == 0 then [] else file[start..start + read]) + buf0[read..]
  }

  /** The bytes that were never answered with data: given up after a status, still awaited
      when the connection was lost, or not asked for any more. */
  ghost predicate Unanswered(t: Trace, p: nat) {
    p in t.refused || (exists i :: i in t.s.reqs && Covers(t.s.reqs[i], p)) || t.s.sent <= p
  }

  /** What `Read` returns at the end of a run. */
  function Returned(s: Loop): (nat, Option<Error>) {
    (if s.firstErr.err.Some? && s.firstErr.err.value != Eof then 0 else s.read, s.firstErr.err)
  }

  lemma FilledOrNot(file: seq<byte>, start: nat, buf0: seq<byte>, t: Trace, p: nat)
    requires Invariant(file, start, buf0, t) && p < |buf0|
    ensures Unanswered(t, p) <==> !(p < |t.marks| && t.marks[p].Filled?)
  {
    hide CountFilled;
    if p < |t.marks| {
      if t.marks[p].Waiting? {
        assert Covers(t.s.reqs[t.marks[p].id], p);
      }
      if i :| i in t.s.reqs && Covers(t.s.reqs[i], p) {
        assert t.marks[p] == Waiting(i);
      }
    }
  }

  /** Only bytes of the file are filled, so the count tells whether all of them are. */
  lemma {:induction false} CountAll(marks: seq<Mark>, k: nat)
    requires forall p :: k <= p < |marks| ==> !marks[p].Filled?
    ensures CountFilled(marks) <= k
    ensures CountFilled(marks) == k <==> k <= |marks| && forall p :: 0 <= p < k ==> marks[p].Filled?
    decreases |marks|
  {
    if marks != [] {
      var rest := marks[1..];
      assert forall p :: 0 <= p < |rest| ==> rest[p] == marks[p + 1];
      if k == 0 {
        CountAll(rest, 0);
      } else {
        CountAll(rest, k - 1);
        assert k <= |marks| && (forall p :: 0 <= p < k ==> marks[p].Filled?) ==> forall p :: 0 <= p < k - 1 ==>
            rest[p].Filled?;
        assert marks[0].Filled? && k - 1 <= |rest| && (forall p :: 0 <= p < k - 1 ==> rest[p].Filled?) ==>
                 forall p :: 0 <= p < k ==> marks[p].Filled? by {
          forall p | 0 < p < k && k - 1 <= |rest| && (forall q :: 0 <= q < k - 1 ==> rest[q].Filled?)
            ensures marks[p].Filled?
          {
            assert rest[p - 1].Filled?;
          }
        }
      }
    }
  }

  /** An error kept has cost some byte its answer. */
  lemma SomethingUnanswered(file: seq<byte>, start: nat, buf0: seq<byte>, t: Trace)
    requires Invariant(file, start, buf0, t) && t.s.firstErr.err.Some?
    ensures exists p: nat :: p < |buf0| && Unanswered(t, p)
  {
    if t.hungUp {
      assert t.s.reqs.Keys != {};
      var i :| i in t.s.reqs;
      InBuffer(t.marks, t.s.reqs, i);
      assert Covers(t.s.reqs[i], t.s.reqs[i].lo);
      assert Unanswered(t, t.s.reqs[i].lo);
    } else {
      var p :| p in t.refused;
      assert Unanswered(t, p);
    }
  }

  /** At the end of any run, faults or not: an `Eof` or nil result is truthful if and only if
      no byte of the file was left unanswered and nil is not returned short of the buffer. */
  lemma ExactlyTruthful(file: seq<byte>, start: nat, buf0: seq<byte>, t: Trace)
    requires Invariant(file, start, buf0, t) && t.s.inFlight == 0 && !MaySend(t.s, |buf0|)
    ensures var (read, err) := Returned(t.s);
            (err.None? || err == Some(Eof)) ==>
              (Truthful(file, start, buf0, t.buf, read, err)
               <==> && (forall p :: 0 <= p < |buf0| && start + p < |file| ==> !Unanswered(t, p))
                    && (err.None? ==> |buf0| == 0 || start + |buf0| <= |file|))
  {
    hide CountFilled, Unanswered, Accounted, Given, Progress, Counts;
    InvariantUse(file, start, buf0, t);
    var k := Available(file, start, |buf0|);
    AllAnswered(file, start, buf0, t);
    if t.s.firstErr.err.Some? {
      SomethingUnanswered(file, start, buf0, t);
    }
    if t.s.read == k {
      FilledPart(file, start, buf0, t);
    }
  }

  /** Every byte of the file was answered just when the count says so. */
  lemma AllAnswered(file: seq<byte>, start: nat, buf0: seq<byte>, t: Trace)
    requires Invariant(file, start, buf0, t)
    ensures (forall p :: 0 <= p < |buf0| && start + p < |file| ==> !Unanswered(t, p))
            <==> t.s.read == Available(file, start, |buf0|)
  {
    hide CountFilled, Unanswered, Accounted, Given, Counts;
    var k := Available(file, start, |buf0|);
    CountAll(t.marks, k);
    forall p: nat | p < |buf0| ensures Unanswered(t, p) <==> !(p < |t.marks| && t.marks[p].Filled?) {
      FilledOrNot(file, start, buf0, t, p);
    }
    if t.s.read != k {
      var p :| 0 <= p < k && !(p < |t.marks| && t.marks[p].Filled?);
      assert Unanswered(t, p);
    }
  }

  lemma FilledPart(file: seq<byte>, start: nat, buf0: seq<byte>, t: Trace)
    requires Invariant(file, start, buf0, t) && t.s.read == Available(file, start, |buf0|)
    ensures t.buf == (if t.s.read == 0 then [] else file[start..start + t.s.read]) + buf0[t.s.read..]
  {
    hide CountFilled, Accounted, Given, Counts;
    var k := t.s.read;
    CountAll(t.marks, k);
    assert t.buf == t.buf[..k] + t.buf[k..];
    assert t.buf[k..] == buf0[k..];
    assert t.buf[..k] == if k == 0 then [] else file[start..start + k];
  }

  /** Without faults the result is truthful, for every order and length of the replies. */
  lemma NoFaultsTruthful(file: seq<byte>, start: nat, buf0: seq<byte>, t: Trace)
    requires Invariant(file, start, buf0, t) && Honest(file, start, t) && t.s.inFlight == 0 && !MaySend(t.s, |buf0|)
    ensures var (read, err) := Returned(t.s); Truthful(file, start, buf0, t.buf, read, err)
  {
    hide CountFilled, Progress, Accounted, Given;
    InvariantUse(file, start, buf0, t);
    ExactlyTruthful(file, start, buf0, t);
    assert t.s.reqs == map[];
    assert forall p :: 0 <= p < |buf0| && start + p < |file| ==> !Unanswered(t, p);
    if t.s.firstErr.err.None? {
      assert t.refused == {} && t.s.sent == |buf0|;
      if |buf0| > 0 {
        FilledOrNot(file, start, buf0, t, |buf0| - 1);
        OnlyTheFile(file, start, buf0, t, |buf0| - 1);
      }
    }
  }

  lemma OnlyTheFile(file: seq<byte>, start: nat, buf0: seq<byte>, t: Trace, p: nat)
    requires Invariant(file, start, buf0, t) && p < |t.marks| && t.marks[p].Filled?
    ensures start + p < |file|
  {
  }

  // ---------- the window ----------

  function DataCount(replies: seq<Reply>): nat {
    if replies == [] then 0
    else DataCount(replies[..|replies| - 1]) + if replies[|replies| - 1].Data? then 1 else 0
  }

  ghost predicate Window(s: Loop, received: nat, data: nat) {
    s.nextId == received + s.inFlight && s.desiredInFlight == Lesser(MAX_CONCURRENT_REQUESTS, data + 1)
  }

  lemma {:induction false} SentWindow(t: Trace, maxPacket: nat, received: nat, data: nat)
    requires maxPacket > 0 && Window(t.s, received, data)
    ensures Window(Issue(t, maxPacket).s, received, data)
    decreases |t.buf| - t.s.sent
  {
    if MaySend(t.s, |t.buf|) {
      var l := Lesser(|t.buf| - t.s.sent, maxPacket);
      SentWindow(t.(s := Send(t.s, l), marks := t.marks + Fill(l, Waiting(t.s.nextId))), maxPacket, received, data);
    }
  }

  /** In every run the window is one request wide at first and one wider with each data reply, up
      to 64; requests are numbered one by one, as many as replies came and are awaited. */
  lemma {:induction false} RunWindow(file: seq<byte>, start: nat, buf0: seq<byte>, maxPacket: nat, faulty: bool,
                                     replies: seq<Reply>)
    requires maxPacket > 0 && Admissible(file, start, buf0, maxPacket, faulty, replies)
    ensures var s := Run(start, buf0, maxPacket, replies).s;
            && s.nextId == |replies| + s.inFlight
            && s.desiredInFlight == Lesser(64, DataCount(replies) + 1) && s.inFlight <= s.desiredInFlight
    decreases |replies|
  {
    hide Invariant, Issue, MaySend;
    Sound(file, start, buf0, maxPacket, faulty, replies);
    WithinWindow(file, start, buf0, Run(start, buf0, maxPacket, replies));
    if replies == [] {
      SentWindow(Trace(START, buf0, [], {}, false), maxPacket, 0, 0);
    } else {
      var before, r := replies[..|replies| - 1], replies[|replies| - 1];
      RunWindow(file, start, buf0, maxPacket, faulty, before);
      var t := Run(start, buf0, maxPacket, before);
      SentWindow(Take(t, start, r), maxPacket, |replies|, DataCount(replies));
    }
  }

  lemma WithinWindow(file: seq<byte>, start: nat, buf0: seq<byte>, t: Trace)
    requires Invariant(file, start, buf0, t)
    ensures t.s.inFlight <= t.s.desiredInFlight
  {
  }

  // ---------- which error is returned ----------

  /** The requests refused in a run, by the place in the buffer each began at, with what they
      were refused with. */
  ghost function Refusals(start: nat, buf0: seq<byte>, maxPacket: nat, replies: seq<Reply>): map<nat, Option<Error>>
    requires maxPacket > 0
  {
    if replies == [] then map[]
    else
      var before, r := replies[..|replies| - 1], replies[|replies| - 1];
      var m, reqs := Refusals(start, buf0, maxPacket, before), Run(start, buf0, maxPacket, before).s.reqs;
      if r.Status? && r.id in reqs then m[reqs[r.id].lo := r.status] else m
  }

  /** The refusals that still count. */
  ghost function Standing(start: nat, buf0: seq<byte>, maxPacket: nat, replies: seq<Reply>): map<nat, Option<Error>>
    requires maxPacket > 0
  {
    if replies == [] then map[]
    else
      var before, r := replies[..|replies| - 1], replies[|replies| - 1];
      var m, reqs := Standing(start, buf0, maxPacket, before), Run(start, buf0, maxPacket, before).s.reqs;
      if r.Status? && r.id in reqs then Noted(m, reqs[r.id].lo, r.status) else m
  }

  /** What each refusal is, is told by the bytes given up. */
  ghost predicate Told(refusals: map<nat, Option<Error>>, refused: set<nat>) {
    && (forall o :: o in refusals ==> o in refused)
    && (forall p :: p in refused ==> Reached(refusals, p))
  }

  /** Some refusal began at or before `p`. */
  ghost predicate Reached(refusals: map<nat, Option<Error>>, p: nat) { exists o :: o in refusals && o <= p }

  lemma ToldMore(refusals: map<nat, Option<Error>>, refused: set<nat>, req: Request, status: Option<Error>)
    requires Told(refusals, refused) && req.len > 0
    ensures Told(refusals[req.lo := status], refused + Range(req))
  {
    hide Reached;
    forall p | p in refused + Range(req) ensures Reached(refusals[req.lo := status], p) {
      ReachedMore(refusals, req.lo, status, p);
    }
  }

  lemma ReachedMore(refusals: map<nat, Option<Error>>, o: nat, status: Option<Error>, p: nat)
    requires Reached(refusals, p) || o <= p
    ensures Reached(refusals[o := status], p)
  {
    var more := refusals[o := status];
    if o <= p {
      assert o in more;
    } else {
      var q :| q in refusals && q <= p;
      assert q in more;
    }
  }

  /** The error kept: the last one of the connection if there was any, and else that of the
      refusal nearest the start, of those that still count.  With only answers all do. */
  lemma {:induction false} KeptError(file: seq<byte>, start: nat, buf0: seq<byte>, maxPacket: nat, faulty: bool,
                                     replies: seq<Reply>)
    requires maxPacket > 0 && Admissible(file, start, buf0, maxPacket, faulty, replies)
    ensures var t, m := Run(start, buf0, maxPacket, replies), Refusals(start, buf0, maxPacket, replies);
            && Told(m, t.refused)
            && (LastLost(replies).Some? <==> t.hungUp) && (t.hungUp ==> t.s.firstErr.err == LastLost(replies))
    ensures var t, m := Run(start, buf0, maxPacket, replies), Refusals(start, buf0, maxPacket, replies);
            var n := Standing(start, buf0, maxPacket, replies);
            && n.Keys <= m.Keys && (OnlyAnswers(replies) ==> n == m)
            && (!t.hungUp ==> KeptNearest(n, start, t.s.firstErr))
    decreases |replies|
  {
    hide Invariant, Honest, Take, Issue, MaySend, Allowed, Told, KeptNearest, Counts, Accounted, Given, Progress;
    if replies == [] {
      Started(file, start, buf0);
      Sent(file, start, buf0, Trace(START, buf0, [], {}, false), maxPacket);
      SentKeeps(Trace(START, buf0, [], {}, false), maxPacket);
      NothingKept(start);
    } else {
      var before, r := replies[..|replies| - 1], replies[|replies| - 1];
      var t := Run(start, buf0, maxPacket, before);
      Sound(file, start, buf0, maxPacket, faulty, before);
      KeptError(file, start, buf0, maxPacket, faulty, before);
      KeptStep(file, start, buf0, t, faulty, r, Refusals(start, buf0, maxPacket, before),
               Standing(start, buf0, maxPacket, before));
      SentKeeps(Take(t, start, r), maxPacket);
      assert OnlyAnswers(replies) ==> OnlyAnswers(before) && !r.Lost? && (r.Status? ==> r.status.Some?);
    }
  }

  lemma NothingKept(start: nat)
    ensures KeptNearest(map[], start, NO_ERROR) && Told(map[], {})
  {
  }

  lemma {:induction false} SentKeeps(t: Trace, maxPacket: nat)
    requires maxPacket > 0
    ensures var u := Issue(t, maxPacket);
            u.refused == t.refused && u.hungUp == t.hungUp && u.s.firstErr == t.s.firstErr
    decreases |t.buf| - t.s.sent
  {
    if MaySend(t.s, |t.buf|) {
      var l := Lesser(|t.buf| - t.s.sent, maxPacket);
      SentKeeps(t.(s := Send(t.s, l), marks := t.marks + Fill(l, Waiting(t.s.nextId))), maxPacket);
    }
  }

  lemma KeptStep(file: seq<byte>, start: nat, buf0: seq<byte>, t: Trace, faulty: bool, r: Reply,
                 m: map<nat, Option<Error>>, n: map<nat, Option<Error>>)
    requires Invariant(file, start, buf0, t) && t.s.inFlight > 0 && Allowed(file, start, t.s.reqs, faulty, r)
    requires Told(m, t.refused) && n.Keys <= m.Keys
    ensures var u := Take(t, start, r);
            && Told(if r.Status? && r.id in t.s.reqs then m[t.s.reqs[r.id].lo := r.status] else m, u.refused)
            && (if r.Lost? then u.hungUp && u.s.firstErr.err == Some(r.err)
                else u.hungUp == t.hungUp && (t.hungUp ==> u.s.firstErr == t.s.firstErr))
            && (KeptNearest(n, start, t.s.firstErr) && !r.Lost? ==>
                  KeptNearest(if r.Status? && r.id in t.s.reqs then Noted(n, t.s.reqs[r.id].lo, r.status) else n,
                              start, u.s.firstErr))
  {
    hide KeptNearest, Told, Keep, Remark, Copied, Accounted, Given, Progress, CountFilled, Range;
    if r.Status? {
      var req := t.s.reqs[r.id];
      InvariantUse(file, start, buf0, t);
      InBuffer(t.marks, t.s.reqs, r.id);
      ToldMore(m, t.refused, req, r.status);
      NotYetRefused(t.marks, t.refused, req, m);
      KeepFirst(t.s.firstErr, start + req.lo, r.status);
      if KeptNearest(n, start, t.s.firstErr) {
        KeepsNearest(n, start, t.s.firstErr, req.lo, r.status);
      }
    }
  }

  lemma NotYetRefused(marks: seq<Mark>, refused: set<nat>, req: Request, m: map<nat, Option<Error>>)
    requires Given(marks, refused) && Told(m, refused) && req.lo < |marks| && marks[req.lo].Waiting?
    ensures req.lo !in m
  {
    hide Reached;
  }

  /** A refusal that says `Eof` comes from the end of the file, whatever else goes wrong. */
  ghost predicate EndsRight(file: seq<byte>, start: nat, refusals: map<nat, Option<Error>>) {
    forall o :: o in refusals && refusals[o] == Some(Eof) ==> |file| <= start + o
  }

  /** If only answers came and every end of the file was reported where it is, then whatever
      else was refused, a nil or `Eof` result is truthful: a failed read never looks like a
      shorter file. */
  lemma RefusalsTruthful(file: seq<byte>, start: nat, buf0: seq<byte>, t: Trace, m: map<nat, Option<Error>>)
    requires Invariant(file, start, buf0, t) && t.s.inFlight == 0 && !MaySend(t.s, |buf0|) && !t.hungUp
    requires Told(m, t.refused) && KeptNearest(m, start, t.s.firstErr) && EndsRight(file, start, m)
    ensures var (read, err) := Returned(t.s);
            err.None? || err == Some(Eof) ==> Truthful(file, start, buf0, t.buf, read, err)
  {
    hide CountFilled, Progress, Accounted, Truthful, KeptNearest, Told, Unanswered, EndsRight;
    var (read, err) := Returned(t.s);
    if err.None? || err == Some(Eof) {
      InvariantUse(file, start, buf0, t);
      KeptErr(m, start, t.s.firstErr);
      ExactlyTruthful(file, start, buf0, t);
      assert t.s.reqs == map[];
      forall p: nat | p < |buf0| && start + p < |file| ensures !Unanswered(t, p) {
        NotRefused(file, start, buf0, t, m, p);
      }
      if err.None? && |buf0| > 0 {
        NothingRefused(m, t.refused);
        LastFilled(file, start, buf0, t);
      }
    }
  }

  lemma NothingRefused(m: map<nat, Option<Error>>, refused: set<nat>)
    requires Told(m, refused) && m == map[]
    ensures refused == {}
  {
    hide Reached;
    forall p | p in refused ensures !Reached(m, p) {
      NotReached(m, p);
    }
  }

  lemma NotReached(m: map<nat, Option<Error>>, p: nat)
    requires forall o :: o in m ==> p < o
    ensures !Reached(m, p)
  {
  }

  lemma LastFilled(file: seq<byte>, start: nat, buf0: seq<byte>, t: Trace)
    requires Invariant(file, start, buf0, t) && t.refused == {} && t.s.reqs == map[] && t.s.sent == |buf0| > 0
    ensures start + |buf0| <= |file|
  {
    hide CountFilled, Progress, Accounted, Given;
    InvariantUse(file, start, buf0, t);
    FilledOrNot(file, start, buf0, t, |buf0| - 1);
    OnlyTheFile(file, start, buf0, t, |buf0| - 1);
  }

  lemma NotRefused(file: seq<byte>, start: nat, buf0: seq<byte>, t: Trace, m: map<nat, Option<Error>>, p: nat)
    requires Invariant(file, start, buf0, t) && !MaySend(t.s, |buf0|) && t.s.inFlight == 0 && t.s.reqs == map[]
    requires Told(m, t.refused) && KeptNearest(m, start, t.s.firstErr) && EndsRight(file, start, m)
    requires t.s.firstErr.err.None? || t.s.firstErr.err == Some(Eof)
    requires p < |buf0| && start + p < |file|
    ensures !Unanswered(t, p)
  {
    hide CountFilled, Progress, Accounted, KeptNearest, Reached;
    InvariantUse(file, start, buf0, t);
    KeptErr(m, start, t.s.firstErr);
    if t.s.firstErr.err.Some? {
      var o := t.s.firstErr.offset - start;
      assert |file| <= start + o && o in t.refused && o < t.s.sent;
    }
    NotReached(m, p);
  }

  /** The main result over whole runs.  Without faults the result is truthful; with any, an
      `Eof` or nil result is truthful if and only if no byte of the file went unanswered and
      nil is not returned short of the buffer.  The error is the last one of the connection if
      there was any, and else that of the refusal nearest the start, of those that no
      confirmation made forgotten.  With only answers all count, and then a nil or `Eof` result
      is truthful unless a refusal lied about the end of the file. */
  lemma EveryRun(file: seq<byte>, start: nat, buf0: seq<byte>, maxPacket: nat, faulty: bool, replies: seq<Reply>)
    requires maxPacket > 0 && Admissible(file, start, buf0, maxPacket, faulty, replies)
    requires Run(start, buf0, maxPacket, replies).s.inFlight == 0
    ensures var t := Run(start, buf0, maxPacket, replies); var (read, err) := Returned(t.s);
            && (!faulty ==> Truthful(file, start, buf0, t.buf, read, err))
            && (err.None? || err == Some(Eof) ==>
                  (Truthful(file, start, buf0, t.buf, read, err)
                   <==> && (forall p :: 0 <= p < |buf0| && start + p < |file| ==> !Unanswered(t, p))
                        && (err.None? ==> |buf0| == 0 || start + |buf0| <= |file|)))
            && (if LastLost(replies).Some? then err == LastLost(replies)
                else Nearest(Standing(start, buf0, maxPacket, replies), err))
    ensures var t, m := Run(start, buf0, maxPacket, replies), Refusals(start, buf0, maxPacket, replies);
            var (read, err) := Returned(t.s);
            OnlyAnswers(replies) ==>
              && Nearest(m, err)
              && (EndsRight(file, start, m) && (err.None? || err == Some(Eof)) ==>
                    Truthful(file, start, buf0, t.buf, read, err))
  {
    hide Run, Invariant, Honest, MaySend, Truthful, Unanswered, Admissible, Told, KeptNearest, Nearest, EndsRight,
      Refusals, Standing;
    Sound(file, start, buf0, maxPacket, faulty, replies);
    var t, m := Run(start, buf0, maxPacket, replies), Refusals(start, buf0, maxPacket, replies);
    ExactlyTruthful(file, start, buf0, t);
    KeptError(file, start, buf0, maxPacket, faulty, replies);
    if !t.hungUp {
      KeptErr(Standing(start, buf0, maxPacket, replies), start, t.s.firstErr);
    }
    if OnlyAnswers(replies) {
      NeverLost(replies);
      if EndsRight(file, start, m) {
        RefusalsTruthful(file, start, buf0, t, m);
      }
    }
    if !faulty {
      NoFaultsTruthful(file, start, buf0, t);
    }
  }

  // ---------- results that are not truthful ----------

  /** A connection closed between packets looks like the end of the file: of three requests
      the second is never answered, and yet two packets' worth of bytes is reported read,
      together with `Eof`, out of a file that goes on. */
  lemma HangupLooksLikeEof(file: seq<byte>, buf0: seq<byte>, maxPacket: nat)
    requires maxPacket > 0 && |file| == |buf0| == 3 * maxPacket
    ensures var replies := [Data(0, file[..maxPacket]), Data(2, file[2 * maxPacket..]), Lost(Eof)];
            var t := Run(0, buf0, maxPacket, replies);
            && Admissible(file, 0, buf0, maxPacket, true, replies) && t.s.inFlight == 0
            && Returned(t.s) == (2 * maxPacket, Some(Eof))
            && !Truthful(file, 0, buf0, t.buf, 2 * maxPacket, Some(Eof))
  {
    hide Run, Issue, Take, Admissible, Allowed;
    var n := maxPacket;
    var a, b, c := Data(0, file[..n]), Data(2, file[2 * n..]), Lost(Eof);
    assert [] + [a] == [a] && [a] + [b] == [a, b] && [a, b] + [c] == [a, b, c];
    FirstOut(buf0, n);
    AllowedHere(file, Run(0, buf0, n, []).s.reqs, a);
    AdmissibleStep(file, 0, buf0, n, [], a);
    RunStep(0, buf0, n, [], a);
    SecondOut(buf0, n, Run(0, buf0, n, []), file[..n]);
    AllowedHere(file, Run(0, buf0, n, [a]).s.reqs, b);
    AdmissibleStep(file, 0, buf0, n, [a], b);
    RunStep(0, buf0, n, [a], b);
    ThirdIn(buf0, n, Run(0, buf0, n, [a]), file[2 * n..]);
    AllowedHere(file, Run(0, buf0, n, [a, b]).s.reqs, c);
    AdmissibleStep(file, 0, buf0, n, [a, b], c);
    RunStep(0, buf0, n, [a, b], c);
    LastIn(n, Run(0, buf0, n, [a, b]));
  }

  lemma AllowedHere(file: seq<byte>, reqs: map<nat, Request>, r: Reply)
    requires r.Data? ==> (r.id in reqs && |r.data| > 0 && reqs[r.id].lo + |r.data| <= |file|
                          && r.data == file[reqs[r.id].lo..reqs[r.id].lo + |r.data|])
    requires !r.Status?
    ensures Allowed(file, 0, reqs, true, r)
  {
  }

  lemma RunStep(start: nat, buf0: seq<byte>, maxPacket: nat, replies: seq<Reply>, r: Reply)
    requires maxPacket > 0
    ensures var t := Run(start, buf0, maxPacket, replies);
            t.s.inFlight > 0 ==> Run(start, buf0, maxPacket, replies + [r]) == Issue(Take(t, start, r), maxPacket)
  {
    hide Issue, Take;
    assert (replies + [r])[..|replies + [r]| - 1] == replies;
  }

  lemma AdmissibleStep(file: seq<byte>, start: nat, buf0: seq<byte>, maxPacket: nat, replies: seq<Reply>, r: Reply)
    requires maxPacket > 0
    ensures Admissible(file, start, buf0, maxPacket, true, [])
    ensures var t := Run(start, buf0, maxPacket, replies);
            (Admissible(file, start, buf0, maxPacket, true, replies) && t.s.inFlight > 0
                && Allowed(file, start, t.s.reqs, true, r))
            ==> Admissible(file, start, buf0, maxPacket, true, replies + [r])
  {
    hide Run, Allowed;
    assert (replies + [r])[..|replies + [r]| - 1] == replies;
  }

  lemma FirstOut(buf0: seq<byte>, n: nat)
    requires n > 0 && |buf0| == 3 * n
    ensures var t := Run(0, buf0, n, []);
            t.s == Loop(1, 1, map[0 := Request(0, n)], 1, n, 0, NO_ERROR) && t.buf == buf0
  {
    var t := Trace(START, buf0, [], {}, false);
    var u := t.(s := Send(t.s, n), marks := t.marks + Fill(n, Waiting(t.s.nextId)));
    assert Issue(t, n) == Issue(u, n) == u;
  }

  lemma SecondOut(buf0: seq<byte>, n: nat, t0: Trace, data: seq<byte>)
    requires n > 0 && |buf0| == 3 * n && |data| == n && t0.buf == buf0
    requires t0.s == Loop(1, 1, map[0 := Request(0, n)], 1, n, 0, NO_ERROR)
    ensures var t := Issue(Take(t0, 0, Data(0, data)), n);
            t.s == Loop(2, 2, map[1 := Request(n, n), 2 := Request(2 * n, n)], 3, 3 * n, n, NO_ERROR)
                && |t.buf| == 3 * n
  {
    hide Paint, Remark;
    var t := Take(t0, 0, Data(0, data));
    assert t0.s.reqs - {0} == map[];
    assert t.s == Loop(0, 2, map[], 1, n, n, NO_ERROR) && |t.buf| == 3 * n;
    var u := t.(s := Send(t.s, n), marks := t.marks + Fill(n, Waiting(t.s.nextId)));
    assert Lesser(|t.buf| - t.s.sent, n) == n;
    assert Issue(t, n) == Issue(u, n);
    var v := u.(s := Send(u.s, n), marks := u.marks + Fill(n, Waiting(u.s.nextId)));
    assert Lesser(|u.buf| - u.s.sent, n) == n;
    assert Issue(u, n) == Issue(v, n) == v;
  }

  lemma ThirdIn(buf0: seq<byte>, n: nat, t1: Trace, data: seq<byte>)
    requires n > 0 && |buf0| == 3 * n && |data| == n && |t1.buf| == 3 * n
    requires t1.s == Loop(2, 2, map[1 := Request(n, n), 2 := Request(2 * n, n)], 3, 3 * n, n, NO_ERROR)
    ensures var t := Issue(Take(t1, 0, Data(2, data)), n);
            t.s == Loop(1, 3, map[1 := Request(n, n)], 3, 3 * n, 2 * n, NO_ERROR) && |t.buf| == 3 * n
  {
    hide Paint, Remark;
    assert t1.s.reqs - {2} == map[1 := Request(n, n)];
  }

  lemma LastIn(n: nat, t2: Trace)
    requires n > 0 && t2.s == Loop(1, 3, map[1 := Request(n, n)], 3, 3 * n, 2 * n, NO_ERROR)
    ensures var t := Issue(Take(t2, 0, Lost(Eof)), n); t.s.inFlight == 0 && Returned(t.s) == (2 * n, Some(Eof))
  {
    hide Remark;
  }

  /** A status with code OK instead of data looks like a read of nothing, without error. */
  lemma ConfirmedWithoutData(file: seq<byte>, buf0: seq<byte>, maxPacket: nat)
    requires 0 < |buf0| <= maxPacket && |file| > 0
    ensures var t := Run(0, buf0, maxPacket, [Status(0, None)]);
            && Admissible(file, 0, buf0, maxPacket, true, [Status(0, None)]) && t.s.inFlight == 0
            && Returned(t.s) == (0, None) && !Truthful(file, 0, buf0, t.buf, 0, None)
  {
    hide Fill, Paint, Remark;
    var t := Trace(START, buf0, [], {}, false);
    var u := t.(s := Send(t.s, |buf0|), marks := t.marks + Fill(|buf0|, Waiting(t.s.nextId)));
    assert Issue(t, maxPacket) == Issue(u, maxPacket) == u;
    assert Run(0, buf0, maxPacket, []) == u;
    RunStep(0, buf0, maxPacket, [], Status(0, None));
    AdmissibleStep(file, 0, buf0, maxPacket, [], Status(0, None));
    assert [] + [Status(0, None)] == [Status(0, None)];
    assert Issue(Take(u, 0, Status(0, None)), maxPacket) == Take(u, 0, Status(0, None));
  }

  // ---------- the code ----------

  /** While something is outstanding, the server has an answer. */
  lemma CanAnswer(file: seq<byte>, start: nat, reqs: map<nat, Request>, faulty: bool)
    requires |reqs| > 0
    ensures exists r :: Allowed(file, start, reqs, faulty, r)
  {
    assert reqs.Keys != {};
    var id :| id in reqs;
    var off := start + reqs[id].lo;
    if off < |file| {
      assert Allowed(file, start, reqs, faulty, Data(id, file[off..off + 1]));
    } else {
      assert Allowed(file, start, reqs, faulty, Status(id, Some(Eof)));
    }
  }

  /** The adversary's next move. */
  method NextReply(file: seq<byte>, start: nat, reqs: map<nat, Request>, faulty: bool) returns (r: Reply)
    requires |reqs| > 0
    ensures Allowed(file, start, reqs, faulty, r) && (!r.Lost? ==> r.id in reqs)
  {
    CanAnswer(file, start, reqs, faulty);
    r :| Allowed(file, start, reqs, faulty, r);
  }

  /** `copy` of `data` into the part of the buffer a request stands for. */
  method CopyInto(b: array<byte>, req: Request, data: seq<byte>)
    requires req.lo + req.len <= b.Length
    modifies b
    ensures b[..] == Copied(old(b[..]), req, data)
  {
    var n := Lesser(|data|, req.len);
    forall k | 0 <= k < n {
      b[req.lo + k] := data[k];
    }
  }

  lemma RunStarts(file: seq<byte>, start: nat, buf0: seq<byte>, maxPacket: nat, faulty: bool)
    requires maxPacket > 0
    ensures Run(start, buf0, maxPacket, []) == Issue(Trace(START, buf0, [], {}, false), maxPacket)
    ensures Admissible(file, start, buf0, maxPacket, faulty, [])
  {
    hide Issue;
  }

  lemma RunGoesOn(file: seq<byte>, start: nat, buf0: seq<byte>, maxPacket: nat, faulty: bool, replies: seq<Reply>,
                  r: Reply)
    requires maxPacket > 0 && Admissible(file, start, buf0, maxPacket, faulty, replies)
    requires var t := Run(start, buf0, maxPacket, replies);
             t.s.inFlight > 0 && Allowed(file, start, t.s.reqs, faulty, r)
    ensures Admissible(file, start, buf0, maxPacket, faulty, replies + [r])
    ensures Run(start, buf0, maxPacket, replies + [r])
            == Issue(Take(Run(start, buf0, maxPacket, replies), start, r), maxPacket)
  {
    hide Issue, Take, Allowed;
    assert (replies + [r])[..|replies + [r]| - 1] == replies;
  }

  lemma IssueStep(t: Trace, maxPacket: nat)
    requires maxPacket > 0
    ensures if MaySend(t.s, |t.buf|) then
              var l := Lesser(|t.buf| - t.s.sent, maxPacket);
              Issue(t, maxPacket)
                  == Issue(t.(s := Send(t.s, l), marks := t.marks + Fill(l, Waiting(t.s.nextId))), maxPacket)
            else Issue(t, maxPacket) == t
  {
  }

  lemma TakeIs(t: Trace, start: nat, r: Reply)
    requires t.s.inFlight > 0 && (!r.Lost? ==> r.id in t.s.reqs)
    ensures Take(t, start, r).s == Receive(t.s, start, r)
    ensures Take(t, start, r).buf == if r.Data? then Copied(t.buf, t.s.reqs[r.id], r.data) else t.buf
  {
    hide Copied, Receive, Remark;
  }

  class File {
    var offset: nat

    constructor ()
      ensures offset == 0
    {
      offset := 0;
    }

    /** `File.Read` into `b`, against a server holding `file`.  Whatever replies come, the
        call ends, and buffer and result are those of a run over them.  Without faults the
        result is truthful; with faults, an `Eof` or nil result is truthful if and only if
        no byte of the file went unanswered and nil is not returned short of the buffer;
        with any other error nothing is claimed read.  The error is the last one of the
        connection, or else that of the refusal nearest the start, of those that no
        confirmation made forgotten; with only answers nil and `Eof` are truthful unless a
        refusal lied about the end of the file. */
    method Read(b: array<byte>, file: seq<byte>, maxPacket: nat, faulty: bool)
      returns (read: nat, err: Option<Error>, ghost replies: seq<Reply>)
      requires maxPacket > 0
      modifies this, b
      ensures Admissible(file, old(offset), old(b[..]), maxPacket, faulty, replies)
      ensures var t := Run(old(offset), old(b[..]), maxPacket, replies);
              && t.s.inFlight == 0 && b[..] == t.buf && (read, err) == Returned(t.s)
              && (!faulty ==> Truthful(file, old(offset), old(b[..]), b[..], read, err))
              && (err.None? || err == Some(Eof) ==>
                    (Truthful(file, old(offset), old(b[..]), b[..], read, err)
                     <==> && (forall p :: 0 <= p < b.Length && old(offset) + p < |file| ==> !Unanswered(t, p))
                          && (err.None? ==> b.Length == 0 || old(offset) + b.Length <= |file|)))
      ensures if LastLost(replies).Some? then err == LastLost(replies)
              else Nearest(Standing(old(offset), old(b[..]), maxPacket, replies), err)
      ensures var refusals := Refusals(old(offset), old(b[..]), maxPacket, replies);
              OnlyAnswers(replies) ==>
                && Nearest(refusals, err)
                && (EndsRight(file, old(offset), refusals) && (err.None? || err == Some(Eof)) ==>
                      Truthful(file, old(offset), old(b[..]), b[..], read, err))
      ensures err.Some? && err.value != Eof ==> read == 0
      ensures offset == old(offset) + read
    {
      hide Invariant, Honest, Take, Issue, Receive, Allowed, Truthful, Unanswered, Admissible, Run, Copied, Refusals,
        Standing, Nearest, EndsRight, OnlyAnswers, LastLost;
      var start := offset;
      var s := START;
      ghost var buf0 := b[..];
      ghost var t := Trace(START, buf0, [], {}, false);
      replies := [];
      Started(file, start, buf0);
      RunStarts(file, start, buf0, maxPacket, faulty);
      while s.sent < b.Length || s.inFlight > 0
        invariant offset == start && s == t.s && b[..] == t.buf && Invariant(file, start, buf0, t)
        invariant Admissible(file, start, buf0, maxPacket, faulty, replies)
            && Run(start, buf0, maxPacket, replies) == Issue(t, maxPacket)
        decreases b.Length - CountDone(t.marks), if s.firstErr.err.None? then 1 else 0, s.inFlight
      {
        Sent(file, start, buf0, t, maxPacket);
        ghost var u := t;
        while MaySend(s, b.Length)
          invariant offset == start && s == u.s && b[..] == u.buf && Issue(u, maxPacket) == Issue(t, maxPacket)
          decreases b.Length - s.sent
        {
          IssueStep(u, maxPacket);
          var l := Lesser(b.Length - s.sent, maxPacket);
          u := u.(s := Send(u.s, l), marks := u.marks + Fill(l, Waiting(u.s.nextId)));
          s := Send(s, l);
        }
        IssueStep(u, maxPacket);
        InvariantUse(file, start, buf0, u);
        if s.inFlight == 0 {
          t := u;
          break;
        }
        CountsUse(u.s, u.hungUp);
        var reply := NextReply(file, start, s.reqs, faulty);
        if reply.Data? {
          InBuffer(u.marks, s.reqs, reply.id);
          CopyInto(b, s.reqs[reply.id], reply.data);
        }
        Received(file, start, buf0, u, faulty, reply);
        TakeIs(u, start, reply);
        RunGoesOn(file, start, buf0, maxPacket, faulty, replies, reply);
        s := Receive(s, start, reply);
        replies := replies + [reply];
        t := Take(u, start, reply);
      }
      IssueStep(t, maxPacket);
      EveryRun(file, start, buf0, maxPacket, faulty, replies);
      read := s.read;
      if s.firstErr.err.Some? && s.firstErr.err.value != Eof {
        read := 0;
      }
      offset := offset + read;
      err := s.firstErr.err;
    }
  }
}
