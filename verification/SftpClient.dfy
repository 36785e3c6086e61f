/**
 What `File.Read` and `File.WriteTo` of the SFTP client share: the replies that arrive on
 the result channel and the error the loops keep.
 */
module SftpClient {
  import opened Wrappers

  const MAX_CONCURRENT_REQUESTS: nat := 64

  /** `Eof` is `io.EOF`, from whatever source; `Other` any error of the server, the
      connection or a writer but that. */
  datatype Error = Eof | Other(code: int) | ShortWrite | InternalInconsistency

  /** A result: an error instead of a packet, which the loops cannot tie to a request, or an
      answer to request `id`.  A status with code OK carries no error. */
  datatype Reply =
    | Lost(err: Error)
    | Status(id: nat, status: Option<Error>)
    | Data(id: nat, data: seq<byte>)

  /** `offsetErr`: the error kept, if any, and the offset it belongs to. */
  datatype OffsetError = OffsetError(offset: nat, err: Option<Error>)

  const NO_ERROR := OffsetError(0, None)

  /** A status replaces what is kept when that is no error, or belongs further behind. */
  function Keep(kept: OffsetError, offset: nat, status: Option<Error>): OffsetError {
    if kept.err.None? || offset < kept.offset then OffsetError(offset, status) else kept
  }

  /** The refused requests, by the offset each asked for; `err` is what the one nearest the
      start was refused with, none if there is no such request. */
  ghost predicate Nearest(refusals: map<nat, Option<Error>>, err: Option<Error>) {
    if refusals == map[] then err.None?
    else exists o :: o in refusals && refusals[o] == err && forall p :: p in refusals ==> o <= p
  }

  /** `kept` is the refusal nearest the start, with offsets counted from `base`. */
  ghost predicate KeptNearest(refusals: map<nat, Option<Error>>, base: nat, kept: OffsetError) {
    if refusals == map[] then kept.err.None?
    else
      && kept.err.Some?
      && exists o :: o in refusals && kept == OffsetError(base + o, refusals[o]) && forall p :: p in refusals ==> o <= p
  }

  lemma KeptErr(refusals: map<nat, Option<Error>>, base: nat, kept: OffsetError)
    requires KeptNearest(refusals, base, kept)
    ensures Nearest(refusals, kept.err)
    ensures kept.err.Some? ==> base <= kept.offset && kept.offset - base in refusals
                               && refusals[kept.offset - base] == kept.err
    ensures forall p :: p in refusals ==> kept.offset <= base + p
    ensures kept.err.None? <==> refusals == map[]
  {
  }

  /** The refusals that still count after one more status: a confirmation that is nearer the
      start than all of them makes them forgotten. */
  ghost function Noted(refusals: map<nat, Option<Error>>, o: nat, status: Option<Error>): map<nat, Option<Error>> {
    if status.Some? then refusals[o := status]
    else if forall p :: p in refusals ==> o < p then map[]
    else refusals
  }

  /** One more status; no offset is answered twice. */
  lemma KeepsNearest(refusals: map<nat, Option<Error>>, base: nat, kept: OffsetError, o: nat, status: Option<Error>)
    requires KeptNearest(refusals, base, kept) && o !in refusals
    ensures KeptNearest(Noted(refusals, o, status), base, Keep(kept, base + o, status))
  {
    if kept.err.Some? {
      var p :| p in refusals && kept == OffsetError(base + p, refusals[p]) && forall q :: q in refusals ==> p <= q;
      assert status.Some? ==> p in refusals[o := status] && refusals[o := status][p] == refusals[p];
    }
    assert status.Some? ==> o in refusals[o := status] && refusals[o := status][o] == status;
  }

  /** Nothing but data and refusals: no error of the connection, no confirmation without data. */
  ghost predicate OnlyAnswers(replies: seq<Reply>) {
    forall i :: 0 <= i < |replies| ==> !replies[i].Lost? && (replies[i].Status? ==> replies[i].status.Some?)
  }

  /** The last error of the connection in a run. */
  ghost function LastLost(replies: seq<Reply>): Option<Error> {
    if replies == [] then None
    else
      var r := replies[|replies| - 1];
      if r.Lost? then Some(r.err) else LastLost(replies[..|replies| - 1])
  }

  lemma {:induction false} NeverLost(replies: seq<Reply>)
    requires OnlyAnswers(replies)
    ensures LastLost(replies).None?
    decreases |replies|
  {
    if replies != [] {
      NeverLost(replies[..|replies| - 1]);
    }
  }

  /** An error at the very start is never replaced by a refusal. */
  lemma KeepFirst(kept: OffsetError, offset: nat, status: Option<Error>)
    ensures kept.err.Some? && kept.offset == 0 ==> Keep(kept, offset, status) == kept
  {
  }

  lemma Fewer<V>(reqs: map<nat, V>, id: nat)
    requires id in reqs
    ensures |reqs - {id}| == |reqs| - 1
  {
    assert reqs.Keys == (reqs - {id}).Keys + {id};
  }
}
