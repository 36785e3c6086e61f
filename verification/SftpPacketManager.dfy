/**
 The SFTP server's packet manager: workers finish requests in any order, the manager
 sends the responses in the order the requests came.  The controller takes requests and
 responses from two channels; which one it takes next is up to the scheduler, so a run
 is any interleaving of the two.
 */
module SftpPacketManager {
  datatype Response = Response(id: nat, payload: int)

  /** What the controller takes from a channel. */
  datatype Event = Request(id: nat) | Ready(resp: Response)

  function Ids(s: seq<Response>): (r: seq<nat>)
    ensures |r| == |s| && forall i :: 0 <= i < |s| ==> r[i] == s[i].id
  {
    seq(|s|, i requires 0 <= i < |s| => s[i].id)
  }

  ghost predicate Increasing(s: seq<nat>) {
    forall i, j :: 0 <= i < j < |s| ==> s[i] < s[j]
  }

  ghost predicate Distinct(s: seq<nat>) {
    forall i, j :: 0 <= i < j < |s| ==> s[i] != s[j]
  }

  // ---------- sorting ----------

  /** `requestPacketIDs.Sort`. */
  function SortIds(s: seq<nat>): seq<nat> {
    if s == [] then [] else InsertId(SortIds(s[..|s| - 1]), s[|s| - 1])
  }

  function InsertId(s: seq<nat>, x: nat): seq<nat> {
    if s == [] || s[|s| - 1] <= x then s + [x] else InsertId(s[..|s| - 1], x) + [s[|s| - 1]]
  }

  /** `responsePackets.Sort`. */
  function SortById(s: seq<Response>): seq<Response> {
    if s == [] then [] else InsertById(SortById(s[..|s| - 1]), s[|s| - 1])
  }

  function InsertById(s: seq<Response>, x: Response): seq<Response> {
    if s == [] || s[|s| - 1].id <= x.id then s + [x] else InsertById(s[..|s| - 1], x) + [s[|s| - 1]]
  }

  lemma {:induction false} SortedIdsStay(s: seq<nat>)
    requires Increasing(s)
    ensures SortIds(s) == s
  {
    if s != [] {
      SortedIdsStay(s[..|s| - 1]);
      assert s == s[..|s| - 1] + [s[|s| - 1]];
    }
  }

  lemma {:induction false} SortedStay(s: seq<Response>)
    requires Increasing(Ids(s))
    ensures SortById(s) == s
  {
    if s != [] {
      hide Ids, SortById;
      var t, x := s[..|s| - 1], s[|s| - 1];
      assert s == t + [x];
      assert forall i :: 0 <= i < |t| ==> Ids(t)[i] == Ids(s)[i];
      SortedStay(t);
      SortLast(t, x);
      assert t != [] ==> Ids(s)[|t| - 1] < Ids(s)[|t|];
    }
  }

  /** Appending a response with a new id to a sorted queue and sorting keeps the queue
      sorted and its contents. */
  lemma {:induction false} InsertSorts(s: seq<Response>, x: Response)
    requires Increasing(Ids(s)) && x.id !in Ids(s)
    ensures Increasing(Ids(InsertById(s, x)))
    decreases |s|
  {
    hide Ids;
    if s == [] || s[|s| - 1].id <= x.id {
      assert s != [] ==> Ids(s)[|s| - 1] != x.id;
    } else {
      var t, last := s[..|s| - 1], s[|s| - 1];
      assert forall i :: 0 <= i < |t| ==> Ids(t)[i] == Ids(s)[i];
      InsertSorts(t, x);
      InsertKeeps(t, x);
      var u := InsertById(t, x);
      forall i | 0 <= i < |u| ensures Ids(u)[i] < last.id {
        assert u[i] in multiset(u);
        if u[i] != x {
          assert u[i] in multiset(t);
          var k :| 0 <= k < |t| && t[k] == u[i];
          assert Ids(s)[k] < Ids(s)[|s| - 1];
        }
      }
    }
  }

  lemma {:induction false} InsertKeeps(s: seq<Response>, x: Response)
    ensures multiset(InsertById(s, x)) == multiset(s) + multiset{x}
    decreases |s|
  {
    if !(s == [] || s[|s| - 1].id <= x.id) {
      assert s == s[..|s| - 1] + [s[|s| - 1]];
      InsertKeeps(s[..|s| - 1], x);
    }
  }

  // ---------- the manager ----------

  /** The requests and responses taken so far agree with what is queued and sent: the
      responses sent answer the oldest requests, in order; the rest is queued, sorted. */
  ghost predicate Consistent(incoming: seq<nat>, outgoing: seq<Response>, sent: seq<Response>, requests: seq<nat>,
                             responses: seq<Response>)
  {
    && Increasing(requests) && Ids(sent) + incoming == requests
    && Increasing(Ids(outgoing)) && Distinct(Ids(responses))
    && multiset(sent) + multiset(outgoing) == multiset(responses)
  }

  /** Nothing can be sent right now. */
  predicate Quiet(incoming: seq<nat>, outgoing: seq<Response>) {
    incoming == [] || outgoing == [] || incoming[0] != outgoing[0].id
  }

  class PacketManager {
    var incoming: seq<nat>
    var outgoing: seq<Response>
    var sent: seq<Response>
    ghost var requests: seq<nat>
    ghost var responses: seq<Response>

    constructor ()
      ensures Valid() && requests == [] && responses == []
    {
      incoming, outgoing, sent := [], [], [];
      requests, responses := [], [];
    }

    ghost predicate Valid()
      reads this
    {
      Consistent(incoming, outgoing, sent, requests, responses) && Quiet(incoming, outgoing)
    }

    /** `maybeSendPackets`. */
    method MaybeSendPackets()
      requires Consistent(incoming, outgoing, sent, requests, responses)
      modifies this
      ensures Valid() && requests == old(requests) && responses == old(responses)
      ensures old(sent) <= sent
    {
      while true
        invariant Consistent(incoming, outgoing, sent, requests, responses)
        invariant requests == old(requests) && responses == old(responses) && old(sent) <= sent
        decreases |outgoing|
      {
        if |outgoing| == 0 || |incoming| == 0 {
          break;
        }
        var out := outgoing[0];
        var in_ := incoming[0];
        if in_ == out.id {
          SendHead(incoming, outgoing, sent, requests, responses);
          sent := sent + [out];
          incoming := incoming[1..];
          outgoing := outgoing[1..];
        } else {
          break;
        }
      }
    }

    /** The controller takes a request; ids grow from one request to the next. */
    method TakeRequest(id: nat)
      requires Valid() && (requests != [] ==> requests[|requests| - 1] < id)
      modifies this
      ensures Valid() && requests == old(requests) + [id] && responses == old(responses) && old(sent) <= sent
    {
      QueueRequest(incoming, outgoing, sent, requests, responses, id);
      incoming := incoming + [id];
      if |incoming| > 1 {
        incoming := SortIds(incoming);
      }
      requests := requests + [id];
      MaybeSendPackets();
    }

    /** The controller takes a response, to a request it may not have taken yet. */
    method TakeResponse(r: Response)
      requires Valid() && r.id !in Ids(responses)
      modifies this
      ensures Valid() && requests == old(requests) && responses == old(responses) + [r] && old(sent) <= sent
    {
      QueueResponse(incoming, outgoing, sent, requests, responses, r);
      outgoing := outgoing + [r];
      if |outgoing| > 1 {
        outgoing := SortById(outgoing);
      }
      responses := responses + [r];
      MaybeSendPackets();
    }

    /** Any interleaving: what was sent always answers the first requests, in order;
        when every request taken has been answered and no other response was taken,
        everything is sent and both queues are empty. */
    method Run(events: seq<Event>) returns (ids: seq<nat>)
      requires Valid() && requests == [] && responses == []
      requires Increasing(Requests(events)) && Distinct(Ids(Responses(events)))
      modifies this
      ensures Valid() && requests == Requests(events) && responses == Responses(events)
      ensures ids == Ids(sent) && ids <= Requests(events)
      ensures (forall x :: x in Requests(events) <==> x in Ids(Responses(events))) ==>
                ids == Requests(events) && incoming == [] && outgoing == []
    {
      hide Consistent, Increasing, Distinct, Ids;
      var k := 0;
      while k < |events|
        invariant 0 <= k <= |events| && Valid()
        invariant requests == Requests(events[..k]) && responses == Responses(events[..k])
      {
        assert events[..k + 1][..k] == events[..k];
        PrefixFacts(events, k);
        match events[k] {
          case Request(id) => TakeRequest(id);
          case Ready(r) => TakeResponse(r);
        }
        k := k + 1;
      }
      assert events[..k] == events;
      ids := Ids(sent);
      SentIsPrefix(incoming, outgoing, sent, requests, responses);
      if forall x :: x in requests <==> x in Ids(responses) {
        AllSent(incoming, outgoing, sent, requests, responses);
      }
    }
  }

  lemma SentIsPrefix(incoming: seq<nat>, outgoing: seq<Response>, sent: seq<Response>, requests: seq<nat>,
                     responses: seq<Response>)
    requires Consistent(incoming, outgoing, sent, requests, responses)
    ensures Ids(sent) <= requests
  {
  }

  function Requests(events: seq<Event>): seq<nat> {
    if events == [] then []
    else Requests(events[..|events| - 1]) + (match events[|events| - 1] case Request(id) => [id] case Ready(_) => [])
  }

  function Responses(events: seq<Event>): seq<Response> {
    if events == [] then []
    else Responses(events[..|events| - 1]) + (match events[|events| - 1] case Request(_) => [] case Ready(r) => [r])
  }

  lemma {:induction false} PrefixOf(events: seq<Event>, k: nat)
    requires k <= |events|
    ensures Requests(events[..k]) <= Requests(events) && Responses(events[..k]) <= Responses(events)
  {
    if k < |events| {
      var t := events[..|events| - 1];
      assert t[..k] == events[..k];
      PrefixOf(t, k);
    } else {
      assert events[..k] == events;
    }
  }

  /** What a well-formed run grants the next step. */
  lemma PrefixFacts(events: seq<Event>, k: nat)
    requires k < |events| && Increasing(Requests(events)) && Distinct(Ids(Responses(events)))
    ensures match events[k]
            case Request(id) => var q := Requests(events[..k]); q != [] ==> q[|q| - 1] < id
            case Ready(r) => r.id !in Ids(Responses(events[..k]))
  {
    assert events[..k + 1][..k] == events[..k];
    PrefixOf(events, k + 1);
    var q, q1, p, p1 := Requests(events[..k]), Requests(events[..k + 1]), Responses(events[..k]),
        Responses(events[..k + 1]);
    match events[k] {
      case Request(id) =>
        assert q1 == q + [id] && q1[|q|] == id;
        assert forall i :: 0 <= i < |q| ==> q1[i] == q[i] && Requests(events)[i] == q1[i];
        assert Requests(events)[|q|] == id;
      case Ready(r) =>
        assert p1 == p + [r];
        assert forall i :: 0 <= i < |p| ==> Ids(Responses(events))[i] == Ids(p)[i];
        assert Ids(Responses(events))[|p|] == r.id;
    }
  }

  lemma SendHead(incoming: seq<nat>, outgoing: seq<Response>, sent: seq<Response>, requests: seq<nat>,
                 responses: seq<Response>)
    requires Consistent(incoming, outgoing, sent, requests, responses)
    requires incoming != [] && outgoing != [] && incoming[0] == outgoing[0].id
    ensures Consistent(incoming[1..], outgoing[1..], sent + [outgoing[0]], requests, responses)
  {
    hide Ids;
    assert Ids(sent + [outgoing[0]]) == Ids(sent) + [incoming[0]];
    assert incoming == [incoming[0]] + incoming[1..];
    assert outgoing == [outgoing[0]] + outgoing[1..];
    assert forall i :: 0 <= i < |outgoing[1..]| ==> Ids(outgoing[1..])[i] == Ids(outgoing)[i + 1];
  }

  lemma QueueRequest(incoming: seq<nat>, outgoing: seq<Response>, sent: seq<Response>, requests: seq<nat>,
                     responses: seq<Response>, id: nat)
    requires Consistent(incoming, outgoing, sent, requests, responses)
    requires requests != [] ==> requests[|requests| - 1] < id
    ensures SortIds(incoming + [id]) == incoming + [id]
    ensures Consistent(incoming + [id], outgoing, sent, requests + [id], responses)
  {
    hide Ids, Distinct, SortIds;
    Grown(requests, id);
    assert Ids(sent) + (incoming + [id]) == requests + [id];
    TailIncreasing(Ids(sent), incoming + [id]);
    SortedIdsStay(incoming + [id]);
  }

  lemma Grown(s: seq<nat>, x: nat)
    requires Increasing(s) && (s != [] ==> s[|s| - 1] < x)
    ensures Increasing(s + [x])
  {
    assert forall i :: 0 <= i < |s| ==> s[i] <= s[|s| - 1];
  }

  lemma TailIncreasing(a: seq<nat>, b: seq<nat>)
    requires Increasing(a + b)
    ensures Increasing(b)
  {
    assert forall i :: 0 <= i < |b| ==> b[i] == (a + b)[|a| + i];
  }

  lemma QueueResponse(incoming: seq<nat>, outgoing: seq<Response>, sent: seq<Response>, requests: seq<nat>,
                      responses: seq<Response>, r: Response)
    requires Consistent(incoming, outgoing, sent, requests, responses) && r.id !in Ids(responses)
    ensures SortById([r]) == [r]
    ensures Consistent(incoming, SortById(outgoing + [r]), sent, requests, responses + [r])
  {
    hide Ids, InsertById;
    SortedStay(outgoing);
    SortLast(outgoing, r);
    NotQueued(outgoing, sent, responses, r);
    InsertSorts(outgoing, r);
    InsertKeeps(outgoing, r);
    SortedStay([r]);
    assert forall i :: 0 <= i < |responses| ==> Ids(responses + [r])[i] == Ids(responses)[i];
    assert Ids(responses + [r])[|responses|] == r.id;
  }

  lemma SortLast(s: seq<Response>, r: Response)
    ensures SortById(s + [r]) == InsertById(SortById(s), r)
  {
    assert (s + [r])[..|s + [r]| - 1] == s;
  }

  lemma NotQueued(outgoing: seq<Response>, sent: seq<Response>, responses: seq<Response>, r: Response)
    requires multiset(sent) + multiset(outgoing) == multiset(responses) && r.id !in Ids(responses)
    ensures r.id !in Ids(outgoing)
  {
    forall i | 0 <= i < |outgoing| ensures Ids(outgoing)[i] != r.id {
      assert outgoing[i] in multiset(responses);
      var k :| 0 <= k < |responses| && responses[k] == outgoing[i];
      assert Ids(responses)[k] == outgoing[i].id;
    }
  }

  lemma {:induction false} OnceEach(s: seq<Response>, x: Response)
    requires Distinct(Ids(s))
    ensures multiset(s)[x] <= 1
  {
    if s != [] {
      var t, last := s[..|s| - 1], s[|s| - 1];
      assert s == t + [last];
      assert forall i :: 0 <= i < |t| ==> Ids(t)[i] == Ids(s)[i];
      OnceEach(t, x);
      if x == last {
        assert forall i :: 0 <= i < |t| ==> Ids(s)[i] != Ids(s)[|s| - 1];
        assert x !in t;
      }
    }
  }

  /** No response is both sent and queued. */
  lemma NotBoth(outgoing: seq<Response>, sent: seq<Response>, responses: seq<Response>, i: nat, j: nat)
    requires Distinct(Ids(responses)) && multiset(sent) + multiset(outgoing) == multiset(responses)
    requires i < |sent| && j < |outgoing|
    ensures sent[i].id != outgoing[j].id
  {
    var x, y := sent[i], outgoing[j];
    assert x in multiset(sent) && y in multiset(outgoing);
    OnceEach(responses, x);
    assert multiset(responses)[x] == multiset(sent)[x] + multiset(outgoing)[x];
    assert x != y;
    assert x in multiset(responses) && y in multiset(responses);
    var k :| 0 <= k < |responses| && responses[k] == x;
    var l :| 0 <= l < |responses| && responses[l] == y;
    assert Ids(responses)[k] == x.id && Ids(responses)[l] == y.id;
  }

  /** The smallest queued response answers a request that is still queued. */
  lemma HeadAnswersQueued(incoming: seq<nat>, outgoing: seq<Response>, sent: seq<Response>, requests: seq<nat>,
                          responses: seq<Response>)
    requires Consistent(incoming, outgoing, sent, requests, responses) && outgoing != []
    requires outgoing[0].id in requests
    ensures outgoing[0].id in incoming
  {
    var k :| 0 <= k < |requests| && requests[k] == outgoing[0].id;
    assert k < |sent| ==> Ids(sent)[k] == requests[k];
    assert k >= |sent| by {
      if k < |sent| {
        NotBoth(outgoing, sent, responses, k, 0);
        assert false;
      }
    }
    assert incoming[k - |sent|] == requests[k];
  }

  /** The answer to the oldest queued request is queued. */
  lemma OldestIsAnswered(incoming: seq<nat>, outgoing: seq<Response>, sent: seq<Response>, requests: seq<nat>,
                         responses: seq<Response>)
    requires Consistent(incoming, outgoing, sent, requests, responses) && incoming != []
    requires incoming[0] in Ids(responses)
    ensures incoming[0] in Ids(outgoing)
  {
    var k :| 0 <= k < |responses| && Ids(responses)[k] == incoming[0];
    var x := responses[k];
    assert x in multiset(responses);
    assert requests[|sent|] == incoming[0];
    assert forall i :: 0 <= i < |sent| ==> sent[i].id == requests[i] && requests[i] < requests[|sent|];
    assert x !in multiset(sent);
    assert x in multiset(outgoing);
    var i :| 0 <= i < |outgoing| && outgoing[i] == x;
    assert Ids(outgoing)[i] == incoming[0];
  }

  /** When every request taken is answered, and only those, the heads of the queues match. */
  lemma HeadsMatch(incoming: seq<nat>, outgoing: seq<Response>, sent: seq<Response>, requests: seq<nat>,
                   responses: seq<Response>)
    requires Consistent(incoming, outgoing, sent, requests, responses)
    requires forall x :: x in requests <==> x in Ids(responses)
    ensures incoming != [] || outgoing != [] ==> incoming != [] && outgoing != [] && incoming[0] == outgoing[0].id
  {
    assert incoming != [] ==> requests[|sent|] == incoming[0];
    if incoming != [] {
      OldestIsAnswered(incoming, outgoing, sent, requests, responses);
    }
    if outgoing != [] {
      assert outgoing[0] in multiset(responses);
      var k :| 0 <= k < |responses| && responses[k] == outgoing[0];
      assert Ids(responses)[k] == outgoing[0].id;
      HeadAnswersQueued(incoming, outgoing, sent, requests, responses);
    }
    if incoming != [] && outgoing != [] {
      var i :| 0 <= i < |incoming| && incoming[i] == outgoing[0].id;
      var j :| 0 <= j < |outgoing| && Ids(outgoing)[j] == incoming[0];
      assert requests[|sent| + i] == incoming[i];
      assert Ids(outgoing)[0] <= Ids(outgoing)[j];
    }
  }

  /** When every request taken is answered, and only those, a quiet manager is empty. */
  lemma AllSent(incoming: seq<nat>, outgoing: seq<Response>, sent: seq<Response>, requests: seq<nat>,
                responses: seq<Response>)
    requires Consistent(incoming, outgoing, sent, requests, responses) && Quiet(incoming, outgoing)
    requires forall x :: x in requests <==> x in Ids(responses)
    ensures incoming == [] && outgoing == [] && Ids(sent) == requests
  {
    HeadsMatch(incoming, outgoing, sent, requests, responses);
    assert Ids(sent) + [] == Ids(sent);
  }
}
