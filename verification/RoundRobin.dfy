/**
 The round-robin balancer: a list of addresses with connected flags, a rotating index, and
 a channel on which calls wait while nothing is connected.  Each method is one critical
 section of the balancer's mutex.
 */
module RoundRobin {
  import opened Wrappers

  datatype Address = Address(addr: string, metadata: string)

  datatype AddrInfo = AddrInfo(addr: Address, connected: bool)

  datatype Update = Add(addr: Address) | Delete(addr: Address) | Unknown(addr: Address)

  // ---------- the address list ----------

  /** No address is listed twice. */
  ghost predicate Distinct(s: seq<AddrInfo>) {
    forall i, j :: 0 <= i < j < |s| ==> s[i].addr != s[j].addr
  }

  function Index(s: seq<AddrInfo>, a: Address): (n: nat)
    ensures n <= |s| && (n < |s| ==> s[n].addr == a) && forall i :: 0 <= i < n ==> s[i].addr != a
  {
    if s == [] || s[0].addr == a then 0 else Index(s[1..], a) + 1
  }

  /** The effect of one resolver update on the list. */
  function Updated(s: seq<AddrInfo>, u: Update): seq<AddrInfo> {
    var n := Index(s, u.addr);
    match u
    case Add(a) => if n < |s| then s else s + [AddrInfo(a, false)]
    case Delete(a) => if n < |s| then s[..n] + s[n + 1..] else s
    case Unknown(_) => s
  }

  function UpdatedAll(s: seq<AddrInfo>, us: seq<Update>): seq<AddrInfo> {
    if us == [] then s else Updated(UpdatedAll(s, us[..|us| - 1]), us[|us| - 1])
  }

  /** A list with distinct addresses is a map from them to their flags; an update is then
      one map operation, and keeps addresses distinct. */
  ghost function AsMap(s: seq<AddrInfo>): map<Address, bool>
  {
    map a | a in (set i | 0 <= i < |s| :: s[i].addr) :: Flag(s, a)
  }

  ghost function Flag(s: seq<AddrInfo>, a: Address): bool
    requires a in (set i | 0 <= i < |s| :: s[i].addr)
  {
    s[Index(s, a)].connected
  }

  ghost function MapUpdated(m: map<Address, bool>, u: Update): map<Address, bool> {
    match u
    case Add(a) => if a in m then m else m[a := false]
    case Delete(a) => m - {a}
    case Unknown(_) => m
  }

  lemma Listed(s: seq<AddrInfo>, a: Address)
    ensures a in AsMap(s) <==> Index(s, a) < |s|
    ensures a in AsMap(s) ==> AsMap(s)[a] == s[Index(s, a)].connected
  {
  }

  lemma IndexIs(s: seq<AddrInfo>, i: nat)
    requires Distinct(s) && i < |s|
    ensures Index(s, s[i].addr) == i
  {
    hide Index;
  }

  lemma UpdateMeaning(s: seq<AddrInfo>, u: Update)
    requires Distinct(s)
    ensures Distinct(Updated(s, u)) && AsMap(Updated(s, u)) == MapUpdated(AsMap(s), u)
  {
    hide Index, AsMap;
    var t := Updated(s, u);
    var n := Index(s, u.addr);
    Listed(s, u.addr);
    assert u.Delete? && n < |s| ==> forall i :: 0 <= i < |t| ==> t[i] == s[if i < n then i else i + 1];
    forall a ensures a in AsMap(t) <==> a in MapUpdated(AsMap(s), u) {
      Listed(s, a);
      Listed(t, a);
      SameListed(s, u, a);
    }
    forall a | a in AsMap(t) ensures AsMap(t)[a] == MapUpdated(AsMap(s), u)[a] {
      Listed(s, a);
      Listed(t, a);
      SameListed(s, u, a);
    }
  }

  /** Where an address is after an update, if it is listed. */
  lemma SameListed(s: seq<AddrInfo>, u: Update, a: Address)
    requires Distinct(s)
    ensures var t := Updated(s, u); var i, j := Index(s, a), Index(t, a);
            if a != u.addr || u.Unknown? then (j < |t| <==> i < |s|) && (j < |t| ==> t[j] == s[i])
            else if u.Delete? then j == |t|
            else j < |t| && t[j] == (if i < |s| then s[i] else AddrInfo(a, false))
  {
    hide Index;
    var n := Index(s, u.addr);
    if u.Delete? && n < |s| {
      Removed(s, n, a);
    } else if u.Add? && n == |s| {
      Appended(s, AddrInfo(u.addr, false), a);
    }
  }

  /** An update keeps the order of the addresses that stay, and a new one comes last. */
  lemma OrderKept(s: seq<AddrInfo>, u: Update, a: Address, b: Address)
    requires Distinct(s)
    requires Index(s, a) < |s| && Index(Updated(s, u), a) < |Updated(s, u)|
    requires Index(Updated(s, u), b) < |Updated(s, u)|
    ensures Index(Updated(s, u), a) < Index(Updated(s, u), b) <==> Index(s, a) < Index(s, b)
  {
    hide Index;
    var n := Index(s, u.addr);
    if u.Delete? && n < |s| {
      Removed(s, n, a);
      Removed(s, n, b);
      IndexIs(s, n);
    } else if u.Add? && n == |s| {
      Appended(s, AddrInfo(u.addr, false), a);
      Appended(s, AddrInfo(u.addr, false), b);
    }
  }

  lemma Removed(s: seq<AddrInfo>, n: nat, a: Address)
    requires Distinct(s) && n < |s|
    ensures var t := s[..n] + s[n + 1..]; var i, j := Index(s, a), Index(t, a);
            if a == s[n].addr then j == |t| else (j < |t| <==> i < |s|) && (j < |t| ==> t[j] == s[i])
    ensures var t := s[..n] + s[n + 1..]; var i := Index(s, a);
            a != s[n].addr && i < |s| ==> Index(t, a) == if i < n then i else i - 1
  {
    hide Index;
    var t := s[..n] + s[n + 1..];
    var i := Index(s, a);
    if a == s[n].addr || i == |s| {
      IndexAt(t, a, |t|);
    } else {
      IndexAt(t, a, if i < n then i else i - 1);
    }
  }

  lemma Appended(s: seq<AddrInfo>, e: AddrInfo, a: Address)
    requires Index(s, e.addr) == |s|
    ensures var t := s + [e]; var i, j := Index(s, a), Index(t, a);
            if a == e.addr then j == |s| else (j < |t| <==> i < |s|) && (j < |t| ==> t[j] == s[i])
    ensures Index(s, a) < |s| ==> Index(s + [e], a) == Index(s, a)
  {
    hide Index;
    var t := s + [e];
    var i := Index(s, a);
    if a == e.addr {
      IndexAt(t, a, |s|);
    } else {
      IndexAt(t, a, if i < |s| then i else |t|);
    }
  }

  /** Any number of updates: the list stays distinct and is what the updates make of it. */
  ghost function MapUpdatedAll(m: map<Address, bool>, us: seq<Update>): map<Address, bool> {
    if us == [] then m else MapUpdated(MapUpdatedAll(m, us[..|us| - 1]), us[|us| - 1])
  }

  lemma {:induction false} UpdatesMeaning(s: seq<AddrInfo>, us: seq<Update>)
    requires Distinct(s)
    ensures Distinct(UpdatedAll(s, us)) && AsMap(UpdatedAll(s, us)) == MapUpdatedAll(AsMap(s), us)
    decreases |us|
  {
    hide AsMap, Updated, MapUpdated;
    if us != [] {
      UpdatesMeaning(s, us[..|us| - 1]);
      UpdateMeaning(UpdatedAll(s, us[..|us| - 1]), us[|us| - 1]);
    }
  }

  // ---------- rotation ----------

  /** The number of connected addresses among the first `i`. */
  function Rank(s: seq<AddrInfo>, i: nat): nat
    requires i <= |s|
  {
    if i == 0 then 0 else Rank(s, i - 1) + if s[i - 1].connected then 1 else 0
  }

  function Connected(s: seq<AddrInfo>): nat { Rank(s, |s|) }

  /** The first connected place from `i` on, or the length. */
  function Seek(s: seq<AddrInfo>, i: nat): (j: nat)
    requires i <= |s|
    ensures i <= j <= |s| && (j < |s| ==> s[j].connected) && forall k :: i <= k < j ==> !s[k].connected
    decreases |s| - i
  {
    if i == |s| || s[i].connected then i else Seek(s, i + 1)
  }

  /** The place the next call is sent to. */
  function Pick(s: seq<AddrInfo>, next: nat): nat
    requires Connected(s) > 0 && next < |s|
  {
    var j := Seek(s, next);
    if j < |s| then j else Seek(s, 0)
  }

  lemma {:induction false} RankRises(s: seq<AddrInfo>, i: nat, j: nat)
    requires i <= j <= |s|
    ensures Rank(s, i) <= Rank(s, j)
    ensures (forall k :: i <= k < j ==> !s[k].connected) ==> Rank(s, i) == Rank(s, j)
    ensures i < j && s[i].connected ==> Rank(s, i) < Rank(s, j)
    decreases j
  {
    if i < j {
      RankRises(s, i, j - 1);
    }
  }

  /** The place after `p`, cyclically. */
  function After(p: nat, n: nat): (r: nat)
    requires p < n
    ensures r == if p + 1 == n then 0 else p + 1
  {
    (p + 1) % n
  }

  /** `x` counted cyclically. */
  function Wrap(x: nat, c: nat): nat { if x >= c then x - c else x }

  /** Picking is rotation among the connected addresses, counted by rank. */
  lemma PickRank(s: seq<AddrInfo>, next: nat)
    requires Connected(s) > 0 && next < |s|
    ensures var p := Pick(s, next);
            p < |s| && s[p].connected && Rank(s, p) < Connected(s) && Rank(s, next) <= Connected(s)
            && Rank(s, p) == Wrap(Rank(s, next), Connected(s))
            && Wrap(Rank(s, After(p, |s|)), Connected(s)) == Wrap(Rank(s, p) + 1, Connected(s))
  {
    hide Rank, Seek;
    var j, k := Seek(s, next), Seek(s, 0);
    RankRises(s, next, j);
    RankRises(s, 0, k);
    RankZero(s);
    RankRises(s, j, |s|);
    RankRises(s, k, |s|);
    var p := Pick(s, next);
    RankStep(s, p);
  }

  lemma RankZero(s: seq<AddrInfo>)
    ensures Rank(s, 0) == 0
  {
  }

  lemma RankStep(s: seq<AddrInfo>, p: nat)
    requires p < |s| && s[p].connected
    ensures Rank(s, p + 1) == Rank(s, p) + 1
  {
  }

  /** The places of `t` calls in a row. */
  function Rotation(s: seq<AddrInfo>, next: nat, t: nat): (r: seq<nat>)
    requires Connected(s) > 0 && next < |s|
    ensures |r| == t
    decreases t
  {
    if t == 0 then []
    else
      PickRank(s, next);
      var p := Pick(s, next);
      [p] + Rotation(s, After(p, |s|), t - 1)
  }

  lemma RotationFirst(s: seq<AddrInfo>, next: nat, t: nat)
    requires Connected(s) > 0 && next < |s| && t > 0
    ensures Pick(s, next) < |s|
    ensures Rotation(s, next, t) == [Pick(s, next)] + Rotation(s, After(Pick(s, next), |s|), t - 1)
  {
    hide Pick, Connected, Rank;
    PickRank(s, next);
  }

  /** One pick of a round: from pick `k` on, `all` is what is left of the rotation. */
  lemma RotationOne(s: seq<AddrInfo>, next: nat, all: seq<nat>, k: nat)
    requires Connected(s) > 0 && next < |s| && k < |all| && all[k..] == Rotation(s, next, |all| - k)
    ensures all[k] == Pick(s, next) < |s|
    ensures all[k + 1..] == Rotation(s, Clamp(After(all[k], |s|), |s|), |all| - (k + 1))
  {
    hide Pick, Connected, Rotation;
    RotationFirst(s, next, |all| - k);
    assert all[k..][0] == all[k] && all[k..][1..] == all[k + 1..];
  }

  lemma {:induction false} RotationRanks(s: seq<AddrInfo>, next: nat, t: nat, k: nat)
    requires Connected(s) > 0 && next < |s| && k < t && k < Connected(s)
    ensures var p := Rotation(s, next, t)[k];
            p < |s| && s[p].connected && Rank(s, p) == Wrap(Rank(s, next) + k, Connected(s))
    decreases t
  {
    hide Rank, Pick, Connected;
    PickRank(s, next);
    if k > 0 {
      var p := Pick(s, next);
      RotationRanks(s, After(p, |s|), t - 1, k - 1);
      PickRank(s, After(p, |s|));
    }
  }

  /** As many calls in a row as there are connected addresses go to each of them once. */
  lemma EachOnce(s: seq<AddrInfo>, next: nat)
    requires Connected(s) > 0 && next < |s|
    ensures var r := Rotation(s, next, Connected(s));
            (forall i, j :: 0 <= i < j < |r| ==> r[i] != r[j])
            && forall p :: p in r <==> 0 <= p < |s| && s[p].connected
  {
    hide Rank, Rotation, Connected, Pick;
    var c := Connected(s);
    var r := Rotation(s, next, c);
    PickRank(s, next);
    forall i, j | 0 <= i < j < |r| ensures r[i] != r[j] {
      RotationRanks(s, next, c, i);
      RotationRanks(s, next, c, j);
    }
    forall p | p in r ensures 0 <= p < |s| && s[p].connected {
      var k :| 0 <= k < |r| && r[k] == p;
      RotationRanks(s, next, c, k);
    }
    forall p: nat | p < |s| && s[p].connected ensures p in r {
      RankBelow(s, p);
      var d := Rank(s, p) + c - Rank(s, next);
      var k := Wrap(d, c);
      RotationRanks(s, next, c, k);
      RankInjective(s, p, r[k]);
    }
  }

  lemma RankBelow(s: seq<AddrInfo>, p: nat)
    requires p < |s| && s[p].connected
    ensures Rank(s, p) < Connected(s)
  {
    RankRises(s, p, |s|);
  }

  lemma RankInjective(s: seq<AddrInfo>, p: nat, q: nat)
    requires p < |s| && q < |s| && s[p].connected && s[q].connected && Rank(s, p) == Rank(s, q)
    ensures p == q
  {
    hide Rank;
    if p < q {
      RankRises(s, p, q);
    } else {
      RankRises(s, q, p);
    }
  }

  // ---------- the balancer ----------

  /** What a call gets: an address, an error, or a channel to wait on. */
  datatype Outcome = Picked(addr: Address) | Unavailable | Closing | Waiting(ch: nat)

  /** `next` as used: back to the start when the list became shorter. */
  function Clamp(next: nat, n: nat): nat { if next >= n then 0 else next }

  /** Which address is next: the first connected one from `next` on, and if there is none there,
      or the list became so short that `next` is behind it, the first connected one of all. */
  lemma PickIs(s: seq<AddrInfo>, next: nat)
    requires Connected(s) > 0
    ensures s != [] && Clamp(next, |s|) < |s| && (next >= |s| ==> Clamp(next, |s|) == 0)
    ensures var p := Pick(s, Clamp(next, |s|));
            && p < |s| && s[p].connected
            && (if next <= p then forall i :: next <= i < p ==> !s[i].connected
                else (forall i :: next <= i < |s| ==> !s[i].connected) && forall i :: 0 <= i < p ==> !s[i].connected)
  {
    hide Rank, Seek;
    RankZero(s);
    NoneConnected(s);
  }

  lemma NoneConnected(s: seq<AddrInfo>)
    ensures Connected(s) == 0 <==> forall i :: 0 <= i < |s| ==> !s[i].connected
  {
    hide Rank;
    RankZero(s);
    RankRises(s, 0, |s|);
    forall i | 0 <= i < |s| && s[i].connected ensures Connected(s) > 0 {
      RankRises(s, i, |s|);
    }
  }

  lemma SeekIs(s: seq<AddrInfo>, i: nat, j: nat)
    requires i <= j <= |s| && (j < |s| ==> s[j].connected) && forall k :: i <= k < j ==> !s[k].connected
    ensures Seek(s, i) == j
  {
    hide Seek;
  }

  /** Marking one address changes the count by at most that one. */
  lemma MarkCount(s: seq<AddrInfo>, n: nat, to: bool)
    requires n < |s|
    ensures !to ==> Connected(s[n := s[n].(connected := to)]) <= Connected(s)
    ensures to && Connected(s) == 0 ==> Connected(s[n := s[n].(connected := to)]) == 1
    ensures to ==> Connected(s[n := s[n].(connected := to)]) > 0
  {
    MarkRank(s, n, to, |s|);
    RankRises(s, 0, |s|);
    RankRises(s, n, |s|);
  }

  lemma {:induction false} MarkRank(s: seq<AddrInfo>, n: nat, to: bool, i: nat)
    requires n < |s| && i <= |s|
    ensures var t := s[n := s[n].(connected := to)];
            Rank(t, i) == Rank(s, i) + (if i <= n || s[n].connected == to then 0 else if to then 1 else -1)
    decreases i
  {
    if i > 0 {
      MarkRank(s, n, to, i - 1);
    }
  }

  class Balancer {
    const resolver: bool
    var addrs: seq<AddrInfo>
    var next: nat
    var waitCh: Option<nat>
    var done: bool
    var started: bool
    // the notification channel, one slot, once there is a resolver to feed it
    var addrCh: Option<seq<seq<Address>>>
    var addrChClosed: bool
    // wait channels are numbered in the order they are made
    var made: nat
    var closed: set<nat>

    /** Addresses are distinct; calls wait only while nothing is connected; and a channel
        some call waits on is closed, so that the call wakes up, or is the current one. */
    ghost predicate Valid()
      reads this
    {
      && Distinct(addrs)
      && (waitCh.Some? ==> !done && Connected(addrs) == 0 && waitCh.value < made && waitCh.value !in closed)
      && (forall ch :: 0 <= ch < made ==> ch in closed || waitCh == Some(ch))
      && (forall ch :: ch in closed ==> ch < made)
      && (!started ==> addrs == [] && addrCh.None?)
      && (addrCh.Some? ==> |addrCh.value| <= 1)
      && (addrChClosed <==> done && addrCh.Some?)
    }

    /** No call is left waiting once it could be served or must be refused. */
    lemma NobodyLeftWaiting(ch: nat)
      requires Valid() && ch < made && (Connected(addrs) > 0 || done)
      ensures ch in closed
    {
    }

    constructor (resolver: bool)
      ensures Valid() && this.resolver == resolver && !started && !done && addrs == [] && made == 0
    {
      this.resolver := resolver;
      addrs, next, waitCh, done, started := [], 0, None, false, false;
      addrCh, addrChClosed, made, closed := None, false, 0, {};
    }

    /** `Start`, called once; `resolves` says whether the resolver, if any, takes the target. */
    method Start(target: string, resolves: bool) returns (ok: bool)
      requires Valid() && !started
      modifies this`started, this`addrs, this`addrCh
      ensures Valid() && started == ok && (ok <==> !done && (resolver ==> resolves))
      ensures ok ==> if resolver then addrs == [] && addrCh == Some([])
              else addrs == [AddrInfo(Address(target, ""), false)]
      ensures !ok ==> addrs == [] && addrCh == None
    {
      if done {
        return false;
      }
      if !resolver {
        started := true;
        addrs := addrs + [AddrInfo(Address(target, ""), false)];
        NoneConnected(addrs);
        return true;
      }
      if !resolves {
        return false;
      }
      started := true;
      addrCh := Some([]);
      return true;
    }

    /** The copy of the list that is sent on. */
    method Announced() returns (open: seq<Address>)
      ensures |open| == |addrs| && forall i :: 0 <= i < |addrs| ==> open[i] == addrs[i].addr
    {
      open := [];
      for i := 0 to |addrs|
        invariant |open| == i && forall j :: 0 <= j < i ==> open[j] == addrs[j].addr
      {
        open := open + [addrs[i].addr];
      }
    }

    /** `watchAddrUpdates`: the list follows the updates, and unless the balancer is closed
        the notification channel holds the new list and nothing older. */
    method WatchAddrUpdates(updates: seq<Update>) returns (ok: bool)
      requires Valid() && addrCh.Some?
      modifies this`addrs, this`addrCh
      ensures Valid() && ok == !done
      ensures addrs == UpdatedAll(old(addrs), updates)
      ensures !ok ==> addrCh == old(addrCh)
      ensures ok ==> addrCh.Some? && |addrCh.value| == 1 && |addrCh.value[0]| == |addrs|
                     && forall i :: 0 <= i < |addrs| ==> addrCh.value[0][i] == addrs[i].addr
    {
      hide Index, AsMap;
      assert updates[..0] == [];
      for i := 0 to |updates|
        invariant Valid() && addrCh == old(addrCh) && addrs == UpdatedAll(old(addrs), updates[..i])
      {
        assert updates[..i + 1][..i] == updates[..i];
        UpdateMeaning(addrs, updates[i]);
        UpdateConnects(addrs, updates[i]);
        addrs := Updated(addrs, updates[i]);
      }
      assert updates[..|updates|] == updates;
      var open := Announced();
      if done {
        return false;
      }
      addrCh := Some([]);
      addrCh := Some(addrCh.value + [open]);
      return true;
    }

    /** `Up`: the address is marked connected, and if it is the first one connected then
        the waiting calls are woken. */
    method Up(addr: Address) returns (ok: bool)
      requires Valid()
      modifies this`addrs, this`waitCh, this`closed
      ensures Valid()
      ensures var n := Index(old(addrs), addr); ok == !(n < |old(addrs)| && old(addrs)[n].connected)
      ensures Flagged(old(addrs), addr, true, addrs)
      ensures Index(old(addrs), addr) < |old(addrs)| ==> waitCh.None?
      ensures Index(old(addrs), addr) == |old(addrs)| ==> waitCh == old(waitCh) && closed == old(closed)
    {
      hide Index, Rank;
      var n := Index(addrs, addr);
      var cnt := CountUp(addr);
      if n < |addrs| && addrs[n].connected {
        NoneConnected(addrs);
        return false;
      }
      if n < |addrs| {
        MarkCount(addrs, n, true);
        addrs := addrs[n := addrs[n].(connected := true)];
      }
      if cnt == 1 && waitCh.Some? {
        closed := closed + {waitCh.value};
        waitCh := None;
      }
      return true;
    }

    /** The connected addresses once `addr` is. */
    method CountUp(addr: Address) returns (cnt: nat)
      requires Valid()
      ensures cnt == Connected(Marked(addrs, addr, true))
    {
      hide Index;
      ghost var marked := Marked(addrs, addr, true);
      cnt := 0;
      for i := 0 to |addrs|
        invariant cnt == Rank(marked, i)
      {
        if addrs[i].addr == addr {
          IndexIs(addrs, i);
        }
        if addrs[i].addr == addr || addrs[i].connected {
          cnt := cnt + 1;
        }
      }
    }

    /** `down`. */
    method Down(addr: Address)
      requires Valid()
      modifies this`addrs
      ensures Valid() && Flagged(old(addrs), addr, false, addrs)
    {
      hide Rank;
      var n := 0;
      while n < |addrs| && addrs[n].addr != addr
        invariant n <= |addrs| && forall i :: 0 <= i < n ==> addrs[i].addr != addr
      {
        n := n + 1;
      }
      IndexAt(addrs, addr, n);
      if n < |addrs| {
        MarkCount(addrs, n, false);
        addrs := addrs[n := addrs[n].(connected := false)];
      }
    }

    /** The rotating search: the next connected address, if there is any. */
    method Search() returns (found: Option<Address>)
      requires Valid() && |addrs| > 0
      modifies this`next
      ensures Valid()
      ensures Connected(addrs) == 0 ==> found.None? && next == Clamp(old(next), |addrs|)
      ensures Connected(addrs) > 0 ==>
                var p := Pick(addrs, Clamp(old(next), |addrs|));
                p < |addrs| && found == Some(addrs[p].addr) && next == After(p, |addrs|)
    {
      hide Rank, Seek;
      if next >= |addrs| {
        next := 0;
      }
      NoneConnected(addrs);
      var n: nat := next;
      ghost var wrapped := false;
      while true
        invariant n < |addrs| && (wrapped ==> n < next) && (!wrapped ==> next <= n)
        invariant forall i :: next <= i < (if wrapped then |addrs| else n) ==> !addrs[i].connected
        invariant wrapped ==> forall i :: 0 <= i < n ==> !addrs[i].connected
        invariant next == Clamp(old(next), |addrs|)
        decreases !wrapped, |addrs| - n
      {
        var a := addrs[n];
        if a.connected {
          if wrapped {
            SeekIs(addrs, next, |addrs|);
            SeekIs(addrs, 0, n);
          } else {
            SeekIs(addrs, next, n);
          }
          next := After(n, |addrs|);
          return Some(a.addr);
        }
        wrapped := wrapped || n + 1 == |addrs|;
        n := After(n, |addrs|);
        if n == next {
          return None;
        }
      }
    }

    /** `Get` up to where it may block: with a connected address it is the next in the
        rotation; otherwise a failing-fast call takes the next address anyway, and a
        blocking one waits on the current channel. */
    method Get(blocking: bool) returns (r: Outcome)
      requires Valid()
      modifies this`next, this`waitCh, this`made
      ensures Valid()
      ensures done ==> r == Closing && next == old(next) && waitCh == old(waitCh) && made == old(made)
      ensures !done && Connected(addrs) > 0 ==>
                var p := Pick(addrs, Clamp(old(next), |addrs|));
                p < |addrs| && r == Picked(addrs[p].addr) && next == After(p, |addrs|)
      ensures !done && Connected(addrs) == 0 && !blocking ==>
                if addrs == [] then r == Unavailable
                else var p := Clamp(old(next), |addrs|); r == Picked(addrs[p].addr) && next == p + 1
      ensures !done && Connected(addrs) == 0 && blocking ==> r.Waiting? && waitCh == Some(r.ch) && r.ch !in closed
      ensures !r.Waiting? ==> waitCh == old(waitCh) && made == old(made)
    {
      hide Rank, Pick;
      if done {
        return Closing;
      }
      if |addrs| > 0 {
        var found := Search();
        if found.Some? {
          return Picked(found.value);
        }
      } else {
        NoneConnected(addrs);
      }
      if !blocking {
        if |addrs| == 0 {
          return Unavailable;
        }
        next := next + 1;
        return Picked(addrs[next - 1].addr);
      }
      r := Wait();
    }

    /** Calls in a row, while addresses and flags stay as they are: as many as there are
        connected addresses reach each of them exactly once. */
    method Round() returns (out: seq<Address>)
      requires Valid() && !done && Connected(addrs) > 0
      modifies this`next, this`waitCh, this`made
      ensures Valid() && |out| == Connected(addrs)
      ensures forall i, j :: 0 <= i < j < |out| ==> out[i] != out[j]
      ensures forall a :: a in out <==> exists p :: 0 <= p < |addrs| && addrs[p].connected && addrs[p].addr == a
    {
      hide Rank, Pick, Connected, Rotation, After;
      NoneConnected(addrs);
      ghost var start := Clamp(next, |addrs|);
      ghost var all := Rotation(addrs, start, Connected(addrs));
      out := [];
      while |out| < CountConnected()
        invariant Valid() && |out| <= |all|
        invariant all[|out|..] == Rotation(addrs, Clamp(next, |addrs|), |all| - |out|)
        invariant forall i :: 0 <= i < |out| ==> all[i] < |addrs| && out[i] == addrs[all[i]].addr
        decreases |all| - |out|
      {
        RotationOne(addrs, Clamp(next, |addrs|), all, |out|);
        var r := Get(true);
        out := out + [r.addr];
      }
      EachOnce(addrs, start);
    }

    function CountConnected(): nat
      reads this
    {
      Connected(addrs)
    }

    /** Joins the calls that wait. */
    method Wait() returns (r: Outcome)
      requires Valid() && !done && Connected(addrs) == 0
      modifies this`waitCh, this`made
      ensures Valid() && r.Waiting? && waitCh == Some(r.ch) && r.ch !in closed
      ensures old(waitCh).Some? ==> waitCh == old(waitCh) && made == old(made)
    {
      if waitCh.None? {
        waitCh := Some(made);
        made := made + 1;
      }
      return Waiting(waitCh.value);
    }

    /** A call that waited on a channel which is now closed tries again. */
    method Wake(ch: nat) returns (r: Outcome)
      requires Valid() && ch in closed
      modifies this`next, this`waitCh, this`made
      ensures Valid() && (r.Closing? <==> done)
      ensures !done && Connected(addrs) > 0 ==>
                var p := Pick(addrs, Clamp(old(next), |addrs|));
                p < |addrs| && r == Picked(addrs[p].addr) && next == After(p, |addrs|)
      ensures !done && Connected(addrs) == 0 ==> r.Waiting? && waitCh == Some(r.ch) && r.ch !in closed && r.ch != ch
    {
      hide Rank, Pick;
      r := Get(true);
    }

    /** `Close` wakes everyone. */
    method Close() returns (ok: bool)
      requires Valid()
      modifies this`done, this`waitCh, this`closed, this`addrChClosed
      ensures Valid() && done && waitCh.None? && ok == !old(done) && (addrCh.Some? ==> addrChClosed)
      ensures forall ch :: 0 <= ch < made ==> ch in closed
    {
      if done {
        return false;
      }
      done := true;
      if waitCh.Some? {
        closed := closed + {waitCh.value};
        waitCh := None;
      }
      if addrCh.Some? {
        addrChClosed := true;
      }
      return true;
    }
  }

  lemma IndexAt(s: seq<AddrInfo>, a: Address, n: nat)
    requires n <= |s| && (n < |s| ==> s[n].addr == a) && forall i :: 0 <= i < n ==> s[i].addr != a
    ensures Index(s, a) == n
  {
    hide Index;
  }

  /** `t` is `s` with the flag of address `a` set to `to`, wherever it is listed, and every other
      flag as it was. */
  ghost predicate Flagged(s: seq<AddrInfo>, a: Address, to: bool, t: seq<AddrInfo>) {
    && |t| == |s|
    && forall i :: 0 <= i < |s| ==>
         t[i].addr == s[i].addr && t[i].connected == if s[i].addr == a then to else s[i].connected
  }

  lemma MarkedFlags(s: seq<AddrInfo>, a: Address, to: bool)
    requires Distinct(s)
    ensures Flagged(s, a, to, Marked(s, a, to))
  {
    hide Index;
    forall i | 0 <= i < |s| && s[i].addr == a ensures i == Index(s, a) {
      IndexIs(s, i);
    }
  }

  /** The list with one address marked. */
  function Marked(s: seq<AddrInfo>, a: Address, to: bool): (t: seq<AddrInfo>)
    ensures |t| == |s|
  {
    var n := Index(s, a);
    if n < |s| then s[n := s[n].(connected := to)] else s
  }

  /** Resolver updates connect nothing. */
  lemma UpdateConnects(s: seq<AddrInfo>, u: Update)
    ensures Connected(s) == 0 ==> Connected(Updated(s, u)) == 0
  {
    hide Index, Rank;
    var t := Updated(s, u);
    var n := Index(s, u.addr);
    NoneConnected(s);
    NoneConnected(t);
    assert u.Delete? && n < |s| ==> forall i :: 0 <= i < |t| ==> t[i] == s[if i < n then i else i + 1];
  }
}
