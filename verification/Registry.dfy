/**
 The gateway's registry of back ends: lists of instances per service name, kept up to date
 by the events of the service keys, and read when a request is forwarded.
 */
module Registry {
  import opened Wrappers
  import opened ServiceKey
  import Quotients

  /** `meta.MicroAPP`; `info` stands for the fields the registry does not look at. */
  datatype MicroApp = MicroApp(host: string, port: int, info: string)

  /** What the lists stand for: a map from (name, host, port). */
  type View = map<Key, MicroApp>

  function At(name: string, app: MicroApp): Key { Key(name, app.host, app.port) }

  /** The place of an instance in a list, or the length. */
  function Place(apps: seq<MicroApp>, host: string, port: int): (n: nat)
    ensures n <= |apps| && (n < |apps| ==> apps[n].host == host && apps[n].port == port)
    ensures forall i :: 0 <= i < n ==> !(apps[i].host == host && apps[i].port == port)
  {
    if apps == [] || (apps[0].host == host && apps[0].port == port) then 0 else Place(apps[1..], host, port) + 1
  }

  ghost predicate Distinct(apps: seq<MicroApp>) {
    forall i, j :: 0 <= i < j < |apps| ==> !(apps[i].host == apps[j].host && apps[i].port == apps[j].port)
  }

  ghost predicate Listed(m: map<string, seq<MicroApp>>, k: Key) {
    k.name in m && Place(m[k.name], k.host, k.port) < |m[k.name]|
  }

  ghost function Instance(m: map<string, seq<MicroApp>>, k: Key): MicroApp
    requires Listed(m, k)
  {
    m[k.name][Place(m[k.name], k.host, k.port)]
  }

  /** `v` is what the lists stand for. */
  ghost predicate Shows(m: map<string, seq<MicroApp>>, v: View) {
    forall k :: ShowsAt(m, v, k)
  }

  ghost predicate ShowsAt(m: map<string, seq<MicroApp>>, v: View, k: Key) {
    (k in v <==> Listed(m, k)) && (k in v ==> v[k] == Instance(m, k))
  }

  lemma PlaceIs(apps: seq<MicroApp>, host: string, port: int, n: nat)
    requires n <= |apps| && (n < |apps| ==> apps[n].host == host && apps[n].port == port)
    requires forall i :: 0 <= i < n ==> !(apps[i].host == host && apps[i].port == port)
    ensures Place(apps, host, port) == n
  {
    hide Place;
  }

  /** Appending an instance that is not in a list. */
  lemma Appended(apps: seq<MicroApp>, app: MicroApp, host: string, port: int)
    requires Place(apps, app.host, app.port) == |apps|
    ensures var n := Place(apps, host, port);
            Place(apps + [app], host, port) == if n < |apps| then n
                else if host == app.host && port == app.port then |apps| else |apps| + 1
  {
    hide Place;
    var n := Place(apps, host, port);
    var same := host == app.host && port == app.port;
    PlaceIs(apps + [app], host, port, if n < |apps| then n else if same then |apps| else |apps| + 1);
  }

  /** Removing one instance of a list of distinct ones. */
  lemma Removed(apps: seq<MicroApp>, i: nat, host: string, port: int)
    requires Distinct(apps) && i < |apps|
    ensures var rest := apps[..i] + apps[i + 1..]; var n := Place(apps, host, port);
            Place(rest, host, port) == if n < i then n else if n == i then |rest| else n - 1
    ensures var rest := apps[..i] + apps[i + 1..]; var n := Place(apps, host, port);
            n < |apps| && n != i ==> rest[if n < i then n else n - 1] == apps[n]
  {
    hide Place;
    var rest := apps[..i] + apps[i + 1..];
    var n := Place(apps, host, port);
    PlaceIs(rest, host, port, if n < i then n else if n == i then |rest| else n - 1);
  }

  /** Insert if absent. */
  function Registered(v: View, name: string, app: MicroApp): View {
    if At(name, app) in v then v else v[At(name, app) := app]
  }

  /** A change of a service key. */
  datatype Event = Put(key: string, app: MicroApp) | Delete(key: string)

  function Handled(v: View, e: Event): View {
    var k := ParseKey(e.key);
    if k.None? then v
    else match e
      case Put(_, app) => Registered(v, k.value.name, app)
      case Delete(_) => v - {k.value}
  }

  function HandledAll(v: View, es: seq<Event>): View {
    if es == [] then v else Handled(HandledAll(v, es[..|es| - 1]), es[|es| - 1])
  }

  // ---------- one instance over any run of events ----------

  /** An announcement of `k`: its name is in the key, host and port are those of the value. */
  predicate Announces(e: Event, k: Key) {
    && e.Put?
    && ParseKey(e.key).Some?
    && At(ParseKey(e.key).value.name, e.app) == k
  }

  /** The end of `k`, all of which is in the key. */
  predicate Withdraws(e: Event, k: Key) { e.Delete? && ParseKey(e.key) == Some(k) }

  /** `k` ends after event `i` and before event `n`. */
  ghost predicate Ended(es: seq<Event>, k: Key, i: int, n: int) {
    exists j :: i < j < n && 0 <= j < |es| && Withdraws(es[j], k)
  }

  /** Event `i` announces `k`, which does not end after it, and is the first to do so. */
  ghost predicate First(es: seq<Event>, k: Key, i: nat) {
    && i < |es|
    && Announces(es[i], k)
    && !Ended(es, k, i, |es|)
    && forall j :: 0 <= j < i && Announces(es[j], k) ==> Ended(es, k, j, i)
  }

  ghost predicate Holds(es: seq<Event>, k: Key, i: nat, app: MicroApp) {
    First(es, k, i) && es[i].app == app
  }

  /** Every announcement of `k` has been withdrawn. */
  ghost predicate Over(es: seq<Event>, k: Key) {
    forall i :: 0 <= i < |es| && Announces(es[i], k) ==> Ended(es, k, i, |es|)
  }

  lemma EndedSame(es: seq<Event>, e: Event, k: Key, i: int, n: int)
    requires n <= |es|
    ensures Ended(es + [e], k, i, n) <==> Ended(es, k, i, n)
    ensures Ended(es + [e], k, i, |es| + 1) <==> Ended(es, k, i, |es|) || (i < |es| && Withdraws(e, k))
  {
    hide Withdraws;
    var all := es + [e];
    assert forall j :: 0 <= j < |es| ==> all[j] == es[j];
    assert all[|es|] == e;
  }

  lemma OverThen(es: seq<Event>, e: Event, k: Key)
    requires Withdraws(e, k)
    ensures Over(es + [e], k)
  {
    hide ParseKey;
    var all := es + [e];
    forall i | 0 <= i < |all| && Announces(all[i], k) ensures Ended(all, k, i, |all|) {
      assert all[|es|] == e;
    }
  }

  lemma FirstMore(es: seq<Event>, e: Event, k: Key, i: nat)
    requires First(es, k, i) && !Withdraws(e, k)
    ensures First(es + [e], k, i) && (es + [e])[i] == es[i]
  {
    hide Withdraws, Announces, Ended;
    assert forall j :: 0 <= j < |es| ==> (es + [e])[j] == es[j];
    forall j, n | n <= |es| ensures Ended(es + [e], k, j, n) <==> Ended(es, k, j, n) {
      EndedSame(es, e, k, j, n);
    }
    forall j: int ensures Ended(es + [e], k, j, |es| + 1) <==> Ended(es, k, j, |es|) || (j < |es| && Withdraws(e, k)) {
      EndedSame(es, e, k, j, 0);
    }
  }

  lemma OverMore(es: seq<Event>, e: Event, k: Key)
    requires Over(es, k)
    ensures Announces(e, k) ==> First(es + [e], k, |es|)
    ensures !Announces(e, k) ==> Over(es + [e], k)
  {
    hide Withdraws, Announces;
    forall j, n | n <= |es| ensures Ended(es + [e], k, j, n) <==> Ended(es, k, j, n) {
      EndedSame(es, e, k, j, n);
    }
    forall j: int ensures Ended(es + [e], k, j, |es| + 1) <==> Ended(es, k, j, |es|) || (j < |es| && Withdraws(e, k)) {
      EndedSame(es, e, k, j, 0);
    }
  }

  lemma NotBoth(e: Event, k: Key)
    ensures !(Withdraws(e, k) && Announces(e, k))
  {
    hide ParseKey;
  }

  /** What a run of events leaves in an empty registry: nothing for `k` exactly when each of its
      announcements was withdrawn, and otherwise the first announcement since then. */
  lemma {:induction false} HandledAt(es: seq<Event>, k: Key)
    ensures k !in HandledAll(map[], es) <==> Over(es, k)
    ensures k in HandledAll(map[], es) ==> exists i: nat :: Holds(es, k, i, HandledAll(map[], es)[k])
    decreases |es|
  {
    hide ParseKey, First, Over;
    if es == [] {
      NoneOver(k);
    } else {
      var n := |es| - 1;
      HandledAt(es[..n], k);
      assert es == es[..n] + [es[n]];
      NotBoth(es[n], k);
      if k in HandledAll(map[], es[..n]) {
        var i: nat :| Holds(es[..n], k, i, HandledAll(map[], es[..n])[k]);
        if Withdraws(es[n], k) {
          OverThen(es[..n], es[n], k);
        } else {
          FirstMore(es[..n], es[n], k, i);
          assert Holds(es, k, i, HandledAll(map[], es)[k]);
        }
      } else {
        OverMore(es[..n], es[n], k);
        assert Announces(es[n], k) ==> Holds(es, k, n, HandledAll(map[], es)[k]);
      }
      FirstNotOver(es, k);
    }
  }

  lemma NoneOver(k: Key)
    ensures Over([], k)
  {
    hide Announces;
  }

  lemma FirstNotOver(es: seq<Event>, k: Key)
    ensures forall i: nat :: First(es, k, i) ==> !Over(es, k)
  {
    hide Announces, Ended;
  }

  /** A service that comes up under its own key and later goes leaves the registry as it
      was; while it is up, it is listed under its name. */
  lemma ComesAndGoes(v: View, k: Key, app: MicroApp)
    requires MIN_INT <= k.port <= MAX_INT && '/' !in k.host && app.host == k.host && app.port == k.port && k !in v
    ensures var up := Handled(v, Put(ApiKey(k), app)); up == v[k := app] && Handled(up, Delete(ApiKey(k))) == v
  {
    hide ApiKey, ParseKey;
    KeyRoundTrip(k);
  }

  // ---------- each change of the lists ----------

  ghost predicate Good(m: map<string, seq<MicroApp>>, v: View) {
    (forall n :: n in m ==> m[n] != [] && Distinct(m[n])) && Shows(m, v)
  }

  lemma Known(m: map<string, seq<MicroApp>>, v: View, k: Key)
    requires Good(m, v)
    ensures k in v <==> (k.name in m && Place(m[k.name], k.host, k.port) < |m[k.name]|)
    ensures k.name in m ==> m[k.name] != [] && Distinct(m[k.name])
    ensures k in v ==> v[k] == Instance(m, k)
  {
    assert ShowsAt(m, v, k);
  }

  /** Whose turn it is at a tick of the clock. */
  ghost function Turn(m: map<string, seq<MicroApp>>, name: string, clock: nat): MicroApp
    requires name in m && m[name] != []
  {
    m[name][clock % |m[name]|]
  }

  /** As many ticks in a row as there are instances of a name bring the turn of each. */
  lemma EveryTurn(m: map<string, seq<MicroApp>>, v: View, k: Key, clock: nat)
    requires Good(m, v) && k in v
    ensures k.name in m && m[k.name] != []
    ensures exists t: nat :: clock <= t < clock + |m[k.name]| && Turn(m, k.name, t) == v[k]
  {
    hide Place, Distinct;
    Known(m, v, k);
    var i, n := Place(m[k.name], k.host, k.port), |m[k.name]|;
    var r := clock % n;
    var t := if i >= r then clock + (i - r) else clock + (i - r) + n;
    Quotients.Remainder(clock, n);
    Quotients.Distribute(n, clock / n, 1);
    Quotients.Quotient(t, n, if i >= r then clock / n else clock / n + 1, i);
    assert Turn(m, k.name, t) == v[k];
  }

  lemma Alone(app: MicroApp, host: string, port: int)
    ensures Place([app], host, port) == if host == app.host && port == app.port then 0 else 1
  {
    PlaceIs([app], host, port, if host == app.host && port == app.port then 0 else 1);
  }

  lemma NewName(m: map<string, seq<MicroApp>>, v: View, name: string, app: MicroApp)
    requires Good(m, v) && name !in m
    ensures Good(m[name := [app]], Registered(v, name, app))
  {
    hide Place;
    var t, w := m[name := [app]], Registered(v, name, app);
    forall k ensures ShowsAt(t, w, k) {
      Known(m, v, k);
      Alone(app, k.host, k.port);
      assert k.name != name ==> Listed(m, k) == Listed(t, k);
    }
  }

  lemma AddDistinct(apps: seq<MicroApp>, app: MicroApp)
    requires Distinct(apps) && Place(apps, app.host, app.port) == |apps|
    ensures Distinct(apps + [app])
  {
    hide Place;
  }

  /** What appending a new instance does to one key. */
  lemma ComeAt(m: map<string, seq<MicroApp>>, v: View, name: string, app: MicroApp, k: Key)
    requires Good(m, v) && name in m && Place(m[name], app.host, app.port) == |m[name]|
    ensures ShowsAt(m[name := m[name] + [app]], Registered(v, name, app), k)
  {
    hide Place, Distinct;
    assert ShowsAt(m, v, k) && ShowsAt(m, v, At(name, app));
    Appended(m[name], app, k.host, k.port);
  }

  lemma NewInstance(m: map<string, seq<MicroApp>>, v: View, name: string, app: MicroApp)
    requires Good(m, v) && name in m && Place(m[name], app.host, app.port) == |m[name]|
    ensures Good(m[name := m[name] + [app]], Registered(v, name, app))
  {
    hide Place, Distinct;
    AddDistinct(m[name], app);
    var t, w := m[name := m[name] + [app]], Registered(v, name, app);
    forall k ensures ShowsAt(t, w, k) {
      ComeAt(m, v, name, app, k);
    }
  }

  lemma LastGone(m: map<string, seq<MicroApp>>, v: View, name: string, host: string, port: int)
    requires Good(m, v) && name in m && |m[name]| == 1 && Place(m[name], host, port) == 0
    ensures Good(m - {name}, v - {Key(name, host, port)})
  {
    hide Place;
    var t, w := m - {name}, v - {Key(name, host, port)};
    assert m[name] == [m[name][0]];
    forall k ensures ShowsAt(t, w, k) {
      Known(m, v, k);
      Alone(m[name][0], k.host, k.port);
      assert k.name != name ==> Listed(m, k) == Listed(t, k);
    }
  }

  lemma DropDistinct(apps: seq<MicroApp>, i: nat)
    requires Distinct(apps) && i < |apps|
    ensures Distinct(apps[..i] + apps[i + 1..])
  {
    var rest := apps[..i] + apps[i + 1..];
    assert forall j :: 0 <= j < |rest| ==> rest[j] == apps[if j < i then j else j + 1];
  }

  /** What cutting an instance out does to one key. */
  lemma GoneAt(m: map<string, seq<MicroApp>>, v: View, name: string, host: string, port: int, k: Key)
    requires Good(m, v) && name in m && |m[name]| > 1 && Place(m[name], host, port) < |m[name]|
    ensures var i := Place(m[name], host, port);
            ShowsAt(m[name := m[name][..i] + m[name][i + 1..]], v - {Key(name, host, port)}, k)
  {
    hide Place, Distinct;
    assert ShowsAt(m, v, k) && Distinct(m[name]);
    Removed(m[name], Place(m[name], host, port), k.host, k.port);
  }

  lemma OneGone(m: map<string, seq<MicroApp>>, v: View, name: string, host: string, port: int)
    requires Good(m, v) && name in m && |m[name]| > 1 && Place(m[name], host, port) < |m[name]|
    ensures var i := Place(m[name], host, port);
            Good(m[name := m[name][..i] + m[name][i + 1..]], v - {Key(name, host, port)})
  {
    hide Place, Distinct;
    var i := Place(m[name], host, port);
    DropDistinct(m[name], i);
    var t, w := m[name := m[name][..i] + m[name][i + 1..]], v - {Key(name, host, port)};
    forall k ensures ShowsAt(t, w, k) {
      GoneAt(m, v, name, host, port, k);
    }
  }

  /** `backendService`; `view` is what its lists stand for. */
  class Backend {
    var apps: map<string, seq<MicroApp>>
    ghost var view: View

    /** Each list is non-empty and free of repetitions, and together they are `view`. */
    ghost predicate Valid()
      reads this
    {
      Good(apps, view)
    }

    constructor ()
      ensures Valid() && apps == map[] && view == map[]
    {
      apps, view := map[], map[];
    }

    /** `register`. */
    method Register(name: string, app: MicroApp)
      requires Valid()
      modifies this
      ensures Valid() && view == Registered(old(view), name, app)
    {
      hide Place, Good;
      if name !in apps {
        NewName(apps, view, name, app);
        apps, view := apps[name := [app]], Registered(view, name, app);
        return;
      }
      var list := apps[name];
      var i := Locate(list, app.host, app.port);
      Known(apps, view, At(name, app));
      if i < |list| {
        return;
      }
      NewInstance(apps, view, name, app);
      apps, view := apps[name := list + [app]], Registered(view, name, app);
    }

    /** `unregister`. */
    method Unregister(name: string, host: string, port: int)
      requires Valid()
      modifies this
      ensures Valid() && view == old(view) - {Key(name, host, port)}
    {
      hide Place, Good;
      Known(apps, view, Key(name, host, port));
      if name !in apps {
        return;
      }
      var list := apps[name];
      var i := Locate(list, host, port);
      if i == |list| {
        return;
      }
      if |list| == 1 {
        LastGone(apps, view, name, host, port);
        apps, view := apps - {name}, view - {Key(name, host, port)};
        return;
      }
      OneGone(apps, view, name, host, port);
      apps, view := apps[name := list[..i] + list[i + 1..]], view - {Key(name, host, port)};
    }

    /** The watcher's event loop over any run of events. */
    method Start(events: seq<Event>)
      requires Valid()
      modifies this
      ensures Valid() && view == HandledAll(old(view), events)
    {
      hide ParseKey, Good;
      assert events[..0] == [];
      for i := 0 to |events|
        invariant Valid() && view == HandledAll(old(view), events[..i])
      {
        assert events[..i + 1][..i] == events[..i];
        var e := events[i];
        var k := ParseKey(e.key);
        if k.Some? {
          match e {
            case Put(_, app) => Register(k.value.name, app);
            case Delete(_) =>
              Unregister(k.value.name, k.value.host, k.value.port);
          }
        }
      }
      assert events[..|events|] == events;
    }

    /** `getMicroAPPs` and the choice of an instance by the clock: a known name always has
        one, and it is an instance of that name. */
    method Choose(name: string, clock: nat) returns (app: Option<MicroApp>)
      requires Valid()
      ensures app.None? <==> forall k :: k in view ==> k.name != name
      ensures app.Some? ==> At(name, app.value) in view && view[At(name, app.value)] == app.value
      ensures app.Some? ==> Listed(apps, At(name, app.value)) && app.value == Turn(apps, name, clock)
    {
      hide Place;
      if name !in apps {
        forall k | k in view ensures k.name != name {
          Known(apps, view, k);
        }
        return None;
      }
      var list := apps[name];
      var i := clock % |list|;
      PlaceIs(list, list[i].host, list[i].port, i);
      Known(apps, view, At(name, list[i]));
      return Some(list[i]);
    }
  }

  method Locate(list: seq<MicroApp>, host: string, port: int) returns (i: nat)
    ensures i == Place(list, host, port)
  {
    i := 0;
    while i < |list| && !(list[i].host == host && list[i].port == port)
      invariant i <= |list| && forall j :: 0 <= j < i ==> !(list[j].host == host && list[j].port == port)
    {
      i := i + 1;
    }
    PlaceIs(list, host, port, i);
  }
}
