/**
 How sub-connection states reach a balancer: an unbounded queue made of a one-slot channel
 and a backlog, a watcher that takes updates off it in order, and the wrapper that counts
 states in 64-bit counters with wraparound and reports one aggregate state.
 */
module BalancerUpdates {
  import opened Wrappers

  type SubConn = nat

  datatype State = Idle | Connecting | Ready | TransientFailure | Shutdown

  datatype Change = Change(sc: SubConn, state: State)

  // ---------- the queue ----------

  /** `scStateUpdateBuffer`.  `puts` and `got` record what was put in and taken out. */
  class UpdateBuffer {
    var c: seq<Change>
    var backlog: seq<Change>
    // a receive whose load has not happened yet
    var owed: bool
    ghost var puts: seq<Change>
    ghost var got: seq<Change>

    /** Nothing is lost, doubled or reordered, and with a load after each receive nothing
        is stuck in the backlog while the channel is empty. */
    ghost predicate Valid()
      reads this
    {
      && |c| <= 1 && got + c + backlog == puts
      && (backlog != [] && c == [] ==> owed)
    }

    constructor ()
      ensures Valid() && puts == [] && got == [] && !owed && c == []
    {
      c, backlog, owed, puts, got := [], [], false, [], [];
    }

    /** Whenever the watcher would block, all that was put has been received. */
    lemma NothingStuck()
      requires Valid() && !owed && c == []
      ensures got == puts
    {
      assert got + c + backlog == got;
    }

    method Put(t: Change)
      requires Valid()
      modifies this`c, this`backlog, this`puts
      ensures Valid() && puts == old(puts) + [t]
    {
      puts := puts + [t];
      assert got + c + backlog + [t] == puts;
      if |backlog| == 0 && |c| == 0 {
        c := [t];
        assert got + c + backlog == puts;
      } else {
        backlog := backlog + [t];
        assert got + c + backlog == puts;
      }
    }

    method Load()
      requires Valid()
      modifies this`c, this`backlog, this`owed
      ensures Valid() && !owed
      ensures c + backlog == old(c) + old(backlog)
    {
      if |backlog| > 0 && |c| == 0 {
        c := [backlog[0]];
        backlog := backlog[1..];
        assert c + backlog == old(backlog);
        assert got + c + backlog == got + (c + backlog);
      }
      owed := false;
    }

    /** A receive from the channel. */
    method Receive() returns (t: Change)
      requires Valid() && !owed && c != []
      modifies this`c, this`owed, this`got
      ensures Valid() && owed && t == old(c)[0] && got == old(got) + [t] && c == []
    {
      t := c[0];
      c, owed := [], true;
      got := got + [t];
      assert got + c + backlog == old(got) + old(c) + backlog by {
        assert old(c) == [t];
      }
    }
  }

  // ---------- the counters ----------

  const TWO_64: nat := 0x1_0000_0000_0000_0000

  function Add64(x: nat, y: nat): (r: nat)
    ensures r < TWO_64
  {
    (x + y) % TWO_64
  }

  /** The sub-connections in a state. */
  ghost function In(m: map<SubConn, State>, s: State): set<SubConn> { set k | k in m && m[k] == s }

  ghost function Count(m: map<SubConn, State>, s: State): nat { |In(m, s)| }

  lemma CountWith(m: map<SubConn, State>, sc: SubConn, s: State)
    requires sc in m
    ensures Count(m, s) == Count(m - {sc}, s) + (if m[sc] == s then 1 else 0)
  {
    SplitIn(m, sc, s);
    hide In;
  }

  lemma SplitIn(m: map<SubConn, State>, sc: SubConn, s: State)
    requires sc in m
    ensures sc !in In(m - {sc}, s)
    ensures In(m, s) == In(m - {sc}, s) + (if m[sc] == s then {sc} else {})
  {
  }

  /** How a count moves when one sub-connection changes state. */
  lemma CountChange(m: map<SubConn, State>, sc: SubConn, to: State, s: State)
    requires sc in m
    ensures Count(m[sc := to], s) == Count(m, s) - (if m[sc] == s then 1 else 0) + (if to == s then 1 else 0)
  {
    hide Count;
    CountWith(m, sc, s);
    CountWith(m[sc := to], sc, s);
    assert m[sc := to] - {sc} == m - {sc};
  }

  lemma CountAdd(m: map<SubConn, State>, sc: SubConn, to: State, s: State)
    requires sc !in m && to != s
    ensures Count(m[sc := to], s) == Count(m, s)
  {
    assert In(m[sc := to], s) == In(m, s);
  }

  lemma CountDrop(m: map<SubConn, State>, sc: SubConn, s: State)
    requires sc in m && m[sc] != s
    ensures Count(m - {sc}, s) == Count(m, s)
  {
    assert In(m - {sc}, s) == In(m, s);
  }

  lemma CountPositive(m: map<SubConn, State>, s: State)
    ensures Count(m, s) > 0 <==> exists k :: k in m && m[k] == s
    ensures Count(m, s) <= |m|
  {
    if k :| k in m && m[k] == s {
      assert k in In(m, s);
    }
    assert Count(m, s) > 0 ==> exists k :: k in In(m, s);
    Subset(In(m, s), m.Keys);
    assert |m.Keys| == |m|;
  }

  lemma {:induction false} Subset(a: set<SubConn>, b: set<SubConn>)
    requires a <= b
    ensures |a| <= |b|
  {
    if a != {} {
      var x :| x in a;
      Subset(a - {x}, b - {x});
    }
  }

  /** A counter's value after -1 for the old state and +1 for the new. */
  function Stepped(x: nat, was: State, now: State, s: State): nat {
    var y := if was == s then Add64(x, TWO_64 - 1) else x;
    if now == s then Add64(y, 1) else y
  }

  lemma SteppedIs(x: nat, count: nat, was: State, now: State, s: State)
    requires x == count % TWO_64 && (was == s ==> count > 0)
    ensures Stepped(x, was, now, s)
         == (count - (if was == s then 1 else 0) + (if now == s then 1 else 0)) % TWO_64
  {
  }

  // ---------- the wrapper ----------

  /** The states after one change: only tracked sub-connections matter, and one that shuts
      down is forgotten. */
  function Handled(m: map<SubConn, State>, c: Change): map<SubConn, State> {
    if c.sc !in m then m else if c.state == Shutdown then m - {c.sc} else m[c.sc := c.state]
  }

  function HandledAll(m: map<SubConn, State>, cs: seq<Change>): map<SubConn, State> {
    if cs == [] then m else HandledAll(Handled(m, cs[0]), cs[1..])
  }

  /** Where a run of changes leaves one sub-connection: nowhere if it was not tracked or was shut
      down in between, and else in the state it was told last. */
  function Ends(s: Option<State>, sc: SubConn, cs: seq<Change>): Option<State> {
    if cs == [] then s
    else
      var before, c := Ends(s, sc, cs[..|cs| - 1]), cs[|cs| - 1];
      if c.sc != sc || before.None? then before else if c.state == Shutdown then None else Some(c.state)
  }

  function Tracked(m: map<SubConn, State>, sc: SubConn): Option<State> { if sc in m then Some(m[sc]) else None }

  lemma {:induction false} HandledAllSnoc(m: map<SubConn, State>, cs: seq<Change>, c: Change)
    ensures HandledAll(m, cs + [c]) == Handled(HandledAll(m, cs), c)
    decreases |cs|
  {
    if cs == [] {
      assert cs + [c] == [c] && [c][1..] == [];
    } else {
      assert (cs + [c])[1..] == cs[1..] + [c];
      HandledAllSnoc(Handled(m, cs[0]), cs[1..], c);
    }
  }

  /** The states after any run of changes, one sub-connection at a time. */
  lemma {:induction false} HandledEnds(m: map<SubConn, State>, cs: seq<Change>, sc: SubConn)
    ensures Tracked(HandledAll(m, cs), sc) == Ends(Tracked(m, sc), sc, cs)
    decreases |cs|
  {
    if cs != [] {
      var most, c := cs[..|cs| - 1], cs[|cs| - 1];
      assert cs == most + [c];
      HandledAllSnoc(m, most, c);
      HandledEnds(m, most, sc);
    }
  }

  /** Once shut down, a sub-connection stays untracked, whatever it is told later. */
  lemma {:induction false} ShutdownIsFinal(m: map<SubConn, State>, sc: SubConn, before: seq<Change>, after: seq<Change>)
    ensures sc !in HandledAll(m, before + [Change(sc, Shutdown)] + after)
    decreases |after|
  {
    var all := before + [Change(sc, Shutdown)] + after;
    if after == [] {
      assert all == before + [Change(sc, Shutdown)];
      HandledAllSnoc(m, before, Change(sc, Shutdown));
    } else {
      var most := after[..|after| - 1];
      ShutdownIsFinal(m, sc, before, most);
      assert all == (before + [Change(sc, Shutdown)] + most) + [after[|after| - 1]];
      HandledAllSnoc(m, before + [Change(sc, Shutdown)] + most, after[|after| - 1]);
    }
  }

  ghost predicate Has(m: map<SubConn, State>, s: State) { exists k :: k in m && m[k] == s }

  /** What the aggregate state should be. */
  ghost function Aggregate(m: map<SubConn, State>): State {
    if Has(m, Ready) then Ready else if Has(m, Connecting) then Connecting else TransientFailure
  }

  /** No two addresses share a sub-connection. */
  ghost predicate OneEach(conns: map<string, SubConn>) {
    forall a, b :: a in conns && b in conns && a != b ==> conns[a] != conns[b]
  }

  /** `connectivityStateEvaluator`. */
  class Evaluator {
    var numReady: nat
    var numConnecting: nat
    var numTransientFailure: nat

    /** The counters are the numbers of tracked sub-connections, as 64-bit numbers. */
    ghost predicate Counts(m: map<SubConn, State>)
      reads this
    {
      && numReady == Count(m, Ready) % TWO_64
      && numConnecting == Count(m, Connecting) % TWO_64
      && numTransientFailure == Count(m, TransientFailure) % TWO_64
    }

    constructor ()
      ensures Counts(map[])
    {
      numReady, numConnecting, numTransientFailure := 0, 0, 0;
      new;
      assert In(map[], Ready) == {} && In(map[], Connecting) == {} && In(map[], TransientFailure) == {};
    }

    /** `recordTransition`. */
    method RecordTransition(oldState: State, newState: State) returns (r: State)
      modifies this
      ensures numReady == Stepped(old(numReady), oldState, newState, Ready)
      ensures numConnecting == Stepped(old(numConnecting), oldState, newState, Connecting)
      ensures numTransientFailure == Stepped(old(numTransientFailure), oldState, newState, TransientFailure)
      ensures r == if numReady > 0 then Ready else if numConnecting > 0 then Connecting else TransientFailure
    {
      hide Add64;
      Bump(oldState, TWO_64 - 1);
      Bump(newState, 1);
      if numReady > 0 {
        return Ready;
      }
      if numConnecting > 0 {
        return Connecting;
      }
      return TransientFailure;
    }

    method Bump(state: State, updateVal: nat)
      modifies this
      ensures numReady == if state == Ready then Add64(old(numReady), updateVal) else old(numReady)
      ensures numConnecting == if state == Connecting then Add64(old(numConnecting), updateVal) else old(numConnecting)
      ensures numTransientFailure ==
                if state == TransientFailure then Add64(old(numTransientFailure), updateVal)
                    else old(numTransientFailure)
    {
      match state {
        case Ready => numReady := Add64(numReady, updateVal);
        case Connecting => numConnecting := Add64(numConnecting, updateVal);
        case TransientFailure => numTransientFailure := Add64(numTransientFailure, updateVal);
        case Idle =>
        case Shutdown =>
      }
    }
  }

  /** `balancerWrapper`, for balancers other than pick-first. */
  class Wrapper {
    var conns: map<string, SubConn>
    var connSt: map<SubConn, State>
    const csEvltr: Evaluator
    var state: State
    // a change was handled, and counted without reaching the wraparound
    ghost var reported: bool

    /** The counters count, once a change was handled the reported state is Ready just when a
        tracked sub-connection is, else Connecting just when one is, and no two addresses
        share a sub-connection. */
    ghost predicate Valid()
      reads this, csEvltr
    {
      csEvltr.Counts(connSt) && (reported ==> state == Aggregate(connSt)) && OneEach(conns)
    }

    constructor ()
      ensures Valid() && fresh(csEvltr) && conns == map[] && connSt == map[] && !reported
    {
      conns, connSt, state, reported := map[], map[], Idle, false;
      csEvltr := new Evaluator();
    }

    /** `HandleSubConnStateChange`: the states follow, and with fewer than 2^64
        sub-connections the reported state does. */
    method HandleSubConnStateChange(c: Change)
      requires Valid()
      modifies this`connSt, this`state, this`reported, csEvltr
      ensures Valid() && connSt == Handled(old(connSt), c)
      ensures c.sc !in old(connSt) ==> state == old(state) && reported == old(reported)
      ensures c.sc in old(connSt) ==> (reported <==> |old(connSt)| < TWO_64)
      ensures c.state == Shutdown ==> c.sc !in connSt
    {
      hide Count, Aggregate, Stepped;
      if c.sc !in connSt {
        return;
      }
      var oldS := connSt[c.sc];
      ghost var before := connSt;
      connSt := connSt[c.sc := c.state];
      TransitionCounts(before, c, csEvltr.numReady, Ready);
      TransitionCounts(before, c, csEvltr.numConnecting, Connecting);
      TransitionCounts(before, c, csEvltr.numTransientFailure, TransientFailure);
      state := csEvltr.RecordTransition(oldS, c.state);
      Evaluated(before, c, csEvltr.numReady, csEvltr.numConnecting);
      reported := |before| < TWO_64;
      if c.state == Shutdown {
        CountDrop(connSt, c.sc, Ready);
        CountDrop(connSt, c.sc, Connecting);
        CountDrop(connSt, c.sc, TransientFailure);
        connSt := connSt - {c.sc};
        assert connSt == before - {c.sc};
      }
    }

    /** `lbWatcher`, a new list of addresses: each of them keeps its sub-connection or is to
        get one, and each sub-connection keeps its place or is to be torn down; its state is
        tracked on until it reports Shutdown. */
    method Resync(addrs: set<string>) returns (add: set<string>, del: set<SubConn>)
      requires Valid()
      modifies this`conns
      ensures Valid()
      ensures conns.Keys + add == addrs && conns.Keys !! add && conns.Keys <= old(conns).Keys
      ensures forall a :: a in addrs && a in old(conns) ==> a in conns && conns[a] == old(conns)[a]
      ensures conns.Values + del == old(conns).Values && conns.Values !! del
      ensures forall a :: a in old(conns) && a !in addrs ==> old(conns)[a] in del
    {
      hide Count, Aggregate;
      add := Missing(addrs);
      ghost var was := conns;
      del := DropUnlisted(addrs);
      SameValues(was, conns, del);
    }

    /** The first loop of that: the addresses without a sub-connection. */
    method Missing(addrs: set<string>) returns (add: set<string>)
      ensures add == addrs - conns.Keys
    {
      add := {};
      var todo := addrs;
      while todo != {}
        invariant todo <= addrs && add == addrs - todo - conns.Keys
      {
        var a :| a in todo;
        todo := todo - {a};
        if a !in conns {
          add := add + {a};
        }
      }
    }

    /** The second loop: sub-connections of other addresses lose their place. */
    method DropUnlisted(addrs: set<string>) returns (del: set<SubConn>)
      modifies this`conns
      ensures conns.Keys == old(conns).Keys * addrs && forall a :: a in conns ==> conns[a] == old(conns)[a]
      ensures forall a :: a in old(conns) && a !in conns ==> old(conns)[a] in del
      ensures forall sc :: sc in del ==> exists a :: a in old(conns) && a !in conns && old(conns)[a] == sc
    {
      del := {};
      var todo := conns.Keys;
      ghost var was := conns;
      while todo != {}
        invariant todo <= was.Keys && conns.Keys == todo + was.Keys * addrs
        invariant forall a :: a in conns ==> conns[a] == was[a]
        invariant forall a :: a in was && a !in conns ==> was[a] in del
        invariant forall sc :: sc in del ==> exists a :: a in was && a !in conns && was[a] == sc
      {
        var a :| a in todo;
        todo := todo - {a};
        if a !in addrs {
          del := del + {conns[a]};
          conns := conns - {a};
        }
      }
    }

    /** `lbWatcher`: a new sub-connection starts Idle. */
    method AddSubConn(a: string, sc: SubConn)
      requires Valid() && sc !in connSt && sc !in conns.Values
      modifies this`conns, this`connSt
      ensures Valid() && conns == old(conns)[a := sc] && connSt == old(connSt)[sc := Idle]
    {
      hide Count;
      CountAdd(connSt, sc, Idle, Ready);
      CountAdd(connSt, sc, Idle, Connecting);
      CountAdd(connSt, sc, Idle, TransientFailure);
      IdleCountsNot(connSt, sc);
      assert forall b :: b in conns ==> conns[b] in conns.Values;
      conns, connSt := conns[a := sc], connSt[sc := Idle];
    }

    /** A whole round of `lbWatcher`, where new sub-connections get ids from `next` on and none
        can be made for the addresses in `fails`: afterwards exactly the listed addresses have
        one that had one or could get one, old ones keep theirs, no tracked state is forgotten,
        and nothing that keeps its place is torn down. */
    method WatchAddrs(addrs: set<string>, next: SubConn, fails: set<string>) returns (del: set<SubConn>)
      requires Valid() && forall sc :: sc in connSt || sc in conns.Values ==> sc < next
      modifies this`conns, this`connSt
      ensures Valid() && forall a :: a in conns <==> a in addrs && (a in old(conns) || a !in fails)
      ensures forall a :: a in addrs && a in old(conns) ==> conns[a] == old(conns)[a]
      ensures forall a :: a in conns && a !in old(conns) ==> conns[a] in connSt && conns[a] >= next
      ensures forall sc :: sc in old(connSt) ==> sc in connSt && connSt[sc] == old(connSt)[sc]
      ensures forall a :: a in old(conns) && a !in addrs ==> old(conns)[a] in del
      ensures conns.Values !! del && del <= old(conns).Values
    {
      hide Count, Aggregate, OneEach;
      var add;
      add, del := Resync(addrs);
      ghost var kept, wanted := conns, add;
      var id := next;
      while add != {}
        invariant Valid() && id >= next && add <= wanted
        invariant forall a :: a in conns <==> a in kept || (a in wanted - add && a !in fails)
        invariant forall sc :: sc in connSt || sc in conns.Values ==> sc < id
        invariant forall a :: a in kept ==> conns[a] == kept[a]
        invariant forall a :: a in conns && a !in kept ==> conns[a] in connSt && conns[a] >= next
        invariant forall sc :: sc in old(connSt) ==> sc in connSt && connSt[sc] == old(connSt)[sc]
        invariant conns.Values !! del
      {
        var a :| a in add;
        add := add - {a};
        if a !in fails {
          ValuesPut(conns, a, id);
          AddSubConn(a, id);
          id := id + 1;
        }
      }
    }

    /** The watcher, until it would block: every update put into the queue reaches the
        balancer, once and in order, and the reported state stays right. */
    method Watch(queue: UpdateBuffer)
      requires Valid() && queue.Valid() && !queue.owed
      modifies this`connSt, this`state, this`reported, csEvltr, queue
      ensures Valid() && queue.Valid() && !queue.owed && queue.puts == old(queue.puts) && queue.got == queue.puts
      ensures connSt == HandledAll(old(connSt), old(queue.c) + old(queue.backlog))
      ensures |old(connSt)| < TWO_64 && old(reported) ==> reported && state == Aggregate(connSt)
    {
      hide Handled, Aggregate;
      while |queue.c| > 0
        invariant Valid() && queue.Valid() && !queue.owed && queue.puts == old(queue.puts)
        invariant HandledAll(connSt, queue.c + queue.backlog)
            == HandledAll(old(connSt), old(queue.c) + old(queue.backlog))
        invariant |connSt| <= |old(connSt)| && (|old(connSt)| < TWO_64 && old(reported) ==> reported)
        decreases |queue.c| + |queue.backlog|
      {
        ghost var pending := queue.c + queue.backlog;
        var t := queue.Receive();
        queue.Load();
        assert queue.c + queue.backlog == pending[1..];
        HandledSize(connSt, t);
        HandleSubConnStateChange(t);
      }
      queue.NothingStuck();
    }
  }

  lemma ValuesPut(conns: map<string, SubConn>, a: string, sc: SubConn)
    ensures conns[a := sc].Values <= conns.Values + {sc}
  {
    var now := conns[a := sc];
    forall v | v in now.Values ensures v in conns.Values + {sc} {
      var b :| b in now && now[b] == v;
      assert b != a ==> b in conns && conns[b] == v;
    }
  }

  lemma SameValues(was: map<string, SubConn>, now: map<string, SubConn>, del: set<SubConn>)
    requires now.Keys <= was.Keys && forall a :: a in now ==> now[a] == was[a]
    requires forall a :: a in was && a !in now ==> was[a] in del
    requires forall sc :: sc in del ==> exists a :: a in was && a !in now && was[a] == sc
    ensures now.Values + del == was.Values
    ensures OneEach(was) ==> OneEach(now) && now.Values !! del
  {
    forall sc ensures sc in now.Values + del <==> sc in was.Values {
      if sc in was.Values && sc !in del {
        var a :| a in was && was[a] == sc;
        assert a in now && now[a] == sc;
      }
    }
  }

  lemma IdleCountsNot(m: map<SubConn, State>, sc: SubConn)
    requires sc !in m
    ensures Aggregate(m[sc := Idle]) == Aggregate(m)
  {
    var n := m[sc := Idle];
    assert forall k :: k in m ==> k in n && n[k] == m[k];
    assert forall k :: k in n && n[k] != Idle ==> k in m && m[k] == n[k];
  }

  lemma HandledSize(m: map<SubConn, State>, c: Change)
    ensures |Handled(m, c)| <= |m|
  {
    var n := Handled(m, c);
    assert n.Keys <= m.Keys && |n.Keys| == |n| && |m.Keys| == |m|;
    Subset(n.Keys, m.Keys);
  }

  /** The counters follow a change of a tracked sub-connection. */
  lemma TransitionCounts(m: map<SubConn, State>, c: Change, x: nat, s: State)
    requires c.sc in m && x == Count(m, s) % TWO_64
    ensures Stepped(x, m[c.sc], c.state, s) == Count(m[c.sc := c.state], s) % TWO_64
  {
    hide Count, Stepped;
    CountChange(m, c.sc, c.state, s);
    CountWith(m, c.sc, s);
    SteppedIs(x, Count(m, s), m[c.sc], c.state, s);
  }

  /** Counters below the wraparound decide the aggregate. */
  lemma Evaluated(m: map<SubConn, State>, c: Change, ready: nat, connecting: nat)
    requires c.sc in m
    requires ready == Count(m[c.sc := c.state], Ready) % TWO_64
    requires connecting == Count(m[c.sc := c.state], Connecting) % TWO_64
    ensures |m| < TWO_64 ==>
              Aggregate(Handled(m, c)) == if ready > 0 then Ready else if connecting > 0 then Connecting
                  else TransientFailure
  {
    hide Count;
    var n := m[c.sc := c.state];
    assert n.Keys == m.Keys && |n| == |n.Keys| && |m| == |m.Keys|;
    CountPositive(n, Ready);
    CountPositive(n, Connecting);
    SameOthers(m, c, Ready);
    SameOthers(m, c, Connecting);
  }

  lemma SameOthers(m: map<SubConn, State>, c: Change, s: State)
    requires c.sc in m && s != Shutdown
    ensures Has(Handled(m, c), s) <==> Has(m[c.sc := c.state], s)
  {
    var n := m[c.sc := c.state];
    if k :| k in n && n[k] == s {
      assert k in Handled(m, c) && Handled(m, c)[k] == s;
    }
    if k :| k in Handled(m, c) && Handled(m, c)[k] == s {
      assert n[k] == s;
    }
  }
}
