/**
 The statistics cache: calls are merged per application and interface, and a ticker drains
 the cache from time to time.  Nothing recorded is lost or counted twice.
 */
module StatsCache {
  newtype int64 = x: int | -0x8000_0000_0000_0000 <= x < 0x8000_0000_0000_0000

  /** A successful call. */
  datatype Call = Call(app: int64, iface: int64, time: int)

  datatype Entry = Entry(app: int64, iface: int64, count: nat, time: int)

  datatype ErrorEntry = ErrorEntry(session: string, app: int64, iface: int64, info: string)

  datatype IfaceEntry = IfaceEntry(apps: map<int64, Entry>)

  type Cache = map<int64, IfaceEntry>

  /** How many calls, and their total time. */
  datatype Tally = Tally(count: nat, time: int)

  function Nothing(): Tally { Tally(0, 0) }

  function Plus(x: Tally, y: Tally): Tally { Tally(x.count + y.count, x.time + y.time) }

  /** What was recorded for an application and an interface. */
  function Recorded(calls: seq<Call>, app: int64, iface: int64): Tally {
    if calls == [] then Nothing()
    else
      var c := calls[|calls| - 1];
      Plus(Recorded(calls[..|calls| - 1], app, iface), if c.app == app && c.iface == iface then Tally(1, c.time)
          else Nothing())
  }

  /** What entries say about them. */
  function Drained(es: seq<Entry>, app: int64, iface: int64): Tally {
    if es == [] then Nothing()
    else
      var e := es[|es| - 1];
      Plus(Drained(es[..|es| - 1], app, iface), if e.app == app && e.iface == iface then Tally(e.count, e.time)
          else Nothing())
  }

  /** What the cache still holds for them. */
  function Cached(ies: Cache, app: int64, iface: int64): Tally {
    if iface in ies && app in ies[iface].apps then Tally(ies[iface].apps[app].count, ies[iface].apps[app].time)
        else Nothing()
  }

  /** Entries are filed under their own application and interface. */
  ghost predicate Filed(ies: Cache) {
    forall i, a :: i in ies && a in ies[i].apps ==> ies[i].apps[a].app == a && ies[i].apps[a].iface == i
  }

  ghost predicate AtMostOne(es: seq<Entry>) {
    forall j, k :: 0 <= j < k < |es| ==> !(es[j].app == es[k].app && es[j].iface == es[k].iface)
  }

  function OfEntry(e: Entry, app: int64, iface: int64): Tally {
    if e.app == app && e.iface == iface then Tally(e.count, e.time) else Nothing()
  }

  lemma Empty(app: int64, iface: int64)
    ensures Recorded([], app, iface) == Drained([], app, iface) == Cached(map[], app, iface) == Nothing()
  {
  }

  lemma DrainedSnoc(es: seq<Entry>, e: Entry, app: int64, iface: int64)
    ensures Drained(es + [e], app, iface) == Plus(Drained(es, app, iface), OfEntry(e, app, iface))
  {
    assert (es + [e])[..|es + [e]| - 1] == es;
  }

  lemma RecordedSnoc(calls: seq<Call>, c: Call, app: int64, iface: int64)
    ensures Recorded(calls + [c], app, iface)
         == Plus(Recorded(calls, app, iface), if c.app == app && c.iface == iface then Tally(1, c.time) else Nothing())
  {
    assert (calls + [c])[..|calls + [c]| - 1] == calls;
  }

  lemma {:induction false} DrainedAppend(a: seq<Entry>, b: seq<Entry>, app: int64, iface: int64)
    ensures Drained(a + b, app, iface) == Plus(Drained(a, app, iface), Drained(b, app, iface))
    decreases |b|
  {
    hide Drained, OfEntry;
    if b == [] {
      assert a + b == a;
      Empty(app, iface);
    } else {
      var most, e := b[..|b| - 1], b[|b| - 1];
      assert b == most + [e] && a + b == (a + most) + [e];
      DrainedAppend(a, most, app, iface);
      DrainedSnoc(most, e, app, iface);
      DrainedSnoc(a + most, e, app, iface);
    }
  }

  /** Moving one entry from the cache to the drained ones. */
  lemma Moved(ies: Cache, es: seq<Entry>, i: int64, a: int64, app: int64, iface: int64)
    requires Filed(ies) && i in ies && a in ies[i].apps
    ensures var rest := ies[i := IfaceEntry(ies[i].apps - {a})];
            Plus(Drained(es + [ies[i].apps[a]], app, iface), Cached(rest, app, iface))
            == Plus(Drained(es, app, iface), Cached(ies, app, iface))
  {
    hide Drained;
    DrainedSnoc(es, ies[i].apps[a], app, iface);
  }

  // ---------- for all pairs at once ----------

  /** What was drained and what is cached make up what was recorded. */
  ghost predicate Balanced(calls: seq<Call>, drained: seq<Entry>, ies: Cache) {
    forall app, iface :: Recorded(calls, app, iface) == Plus(Drained(drained, app, iface), Cached(ies, app, iface))
  }

  /** `es` and what is left in `ies` make up what `was` held. */
  ghost predicate Split(was: Cache, es: seq<Entry>, ies: Cache) {
    forall app, iface :: Plus(Drained(es, app, iface), Cached(ies, app, iface)) == Cached(was, app, iface)
  }

  /** The cache after one more call. */
  function Merged(ies: Cache, c: Call): Cache {
    var apps := if c.iface in ies then ies[c.iface].apps else map[];
    var e := if c.app in apps then apps[c.app] else Entry(c.app, c.iface, 0, 0);
    ies[c.iface := IfaceEntry(apps[c.app := e.(count := e.count + 1, time := e.time + c.time)])]
  }

  lemma CachedMerged(ies: Cache, c: Call, app: int64, iface: int64)
    ensures Cached(Merged(ies, c), app, iface)
         == Plus(Cached(ies, app, iface), if c.app == app && c.iface == iface then Tally(1, c.time) else Nothing())
  {
  }

  lemma CallBalanced(calls: seq<Call>, drained: seq<Entry>, ies: Cache, c: Call)
    requires Filed(ies) && Balanced(calls, drained, ies)
    ensures Filed(Merged(ies, c)) && Balanced(calls + [c], drained, Merged(ies, c))
  {
    assert Filed(Merged(ies, c));
    hide Recorded, Drained, Cached, Merged, Plus;
    forall app, iface
      ensures Recorded(calls + [c], app, iface)
              == Plus(Drained(drained, app, iface), Cached(Merged(ies, c), app, iface))
    {
      CallAt(calls, drained, ies, c, app, iface);
    }
  }

  lemma CallAt(calls: seq<Call>, drained: seq<Entry>, ies: Cache, c: Call, app: int64, iface: int64)
    requires Recorded(calls, app, iface) == Plus(Drained(drained, app, iface), Cached(ies, app, iface))
    ensures Recorded(calls + [c], app, iface) == Plus(Drained(drained, app, iface), Cached(Merged(ies, c), app, iface))
  {
    hide Recorded, Drained, Cached, Merged;
    RecordedSnoc(calls, c, app, iface);
    CachedMerged(ies, c, app, iface);
  }

  lemma NothingYet()
    ensures Balanced([], [], map[])
  {
    hide Recorded, Drained, Cached;
    forall app, iface ensures Recorded([], app, iface) == Plus(Drained([], app, iface), Cached(map[], app, iface)) {
      NoneAt(app, iface);
    }
  }

  lemma NoneAt(app: int64, iface: int64)
    ensures Recorded([], app, iface) == Plus(Drained([], app, iface), Cached(map[], app, iface))
  {
    hide Recorded, Drained;
    RecordedNone(app, iface);
    NoneDrainedAt(map[], app, iface);
  }

  lemma RecordedNone(app: int64, iface: int64)
    ensures Recorded([], app, iface) == Nothing()
  {
    hide Drained, Cached;
  }

  lemma NothingDrained(ies: Cache)
    ensures Split(ies, [], ies)
  {
    hide Drained, Cached;
    forall app, iface ensures Plus(Drained([], app, iface), Cached(ies, app, iface)) == Cached(ies, app, iface) {
      NoneDrainedAt(ies, app, iface);
    }
  }

  lemma NoneDrainedAt(ies: Cache, app: int64, iface: int64)
    ensures Plus(Drained([], app, iface), Cached(ies, app, iface)) == Cached(ies, app, iface)
  {
    hide Cached, Recorded;
    var x := Cached(ies, app, iface);
    assert Plus(Nothing(), x) == x;
  }

  lemma MovedSplit(was: Cache, es: seq<Entry>, ies: Cache, i: int64, a: int64)
    requires Filed(ies) && i in ies && a in ies[i].apps && Split(was, es, ies) && Fresh(es, ies)
    ensures var e, rest := ies[i].apps[a], ies[i := IfaceEntry(ies[i].apps - {a})];
            Filed(rest) && Split(was, es + [e], rest) && Fresh(es + [e], rest)
  {
    hide Drained, Cached;
    forall app, iface {
      Moved(ies, es, i, a, app, iface);
    }
  }

  lemma EmptySplit(was: Cache, es: seq<Entry>, ies: Cache, i: int64)
    requires i in ies && ies[i].apps.Keys == {} && Split(was, es, ies)
    ensures Split(was, es, ies - {i})
  {
    hide Drained, Cached;
    forall app, iface ensures Cached(ies - {i}, app, iface) == Cached(ies, app, iface) {
      CachedEmpty(ies, i, app, iface);
    }
  }

  lemma CachedEmpty(ies: Cache, i: int64, app: int64, iface: int64)
    requires i in ies && ies[i].apps.Keys == {}
    ensures Cached(ies - {i}, app, iface) == Cached(ies, app, iface)
  {
    assert app !in ies[i].apps.Keys;
  }

  /** Once nothing is left, the entries are what was cached. */
  lemma AllDrained(was: Cache, es: seq<Entry>)
    requires Split(was, es, map[])
    ensures forall app, iface :: Drained(es, app, iface) == Cached(was, app, iface)
  {
    hide Drained, Cached, Plus;
    forall app, iface ensures Drained(es, app, iface) == Cached(was, app, iface) {
      AllDrainedAt(was, es, app, iface);
    }
  }

  lemma AllDrainedAt(was: Cache, es: seq<Entry>, app: int64, iface: int64)
    requires Plus(Drained(es, app, iface), Cached(map[], app, iface)) == Cached(was, app, iface)
    ensures Drained(es, app, iface) == Cached(was, app, iface)
  {
    hide Drained;
  }

  lemma DrainBalanced(calls: seq<Call>, drained: seq<Entry>, was: Cache, es: seq<Entry>)
    requires Balanced(calls, drained, was) && Split(was, es, map[])
    ensures Balanced(calls, drained + es, map[])
  {
    hide Recorded, Drained, Cached, Plus;
    forall app, iface
      ensures Recorded(calls, app, iface) == Plus(Drained(drained + es, app, iface), Cached(map[], app, iface))
    {
      DrainedAt(calls, drained, was, es, app, iface);
    }
  }

  lemma DrainedAt(calls: seq<Call>, drained: seq<Entry>, was: Cache, es: seq<Entry>, app: int64, iface: int64)
    requires Recorded(calls, app, iface) == Plus(Drained(drained, app, iface), Cached(was, app, iface))
    requires Plus(Drained(es, app, iface), Cached(map[], app, iface)) == Cached(was, app, iface)
    ensures Recorded(calls, app, iface) == Plus(Drained(drained + es, app, iface), Cached(map[], app, iface))
  {
    hide Recorded, Drained, Cached;
    DrainedAppend(drained, es, app, iface);
  }

  /** The drained entries are of different pairs, none of them cached any more. */
  ghost predicate Fresh(es: seq<Entry>, ies: Cache) {
    && AtMostOne(es)
    && forall k :: 0 <= k < |es| ==> !(es[k].iface in ies && es[k].app in ies[es[k].iface].apps)
  }

  /** The next key of a range over a map. */
  method Any(keys: set<int64>) returns (k: int64)
    requires keys != {}
    ensures k in keys
  {
    k :| k in keys;
  }

  /** `statsCache`; the ghost fields record all that was put in and taken out. */
  class Stats {
    var ies: Cache
    var ees: seq<ErrorEntry>
    ghost var calls: seq<Call>
    ghost var drained: seq<Entry>
    ghost var failures: seq<ErrorEntry>
    ghost var drainedErrors: seq<ErrorEntry>

    /** For every application and interface, what was drained and what is cached make up
        what was recorded; and errors are kept in order. */
    ghost predicate Valid()
      reads this
    {
      Filed(ies) && Balanced(calls, drained, ies) && failures == drainedErrors + ees
    }

    constructor ()
      ensures Valid() && calls == [] && failures == []
    {
      ies, ees, calls, drained, failures, drainedErrors := map[], [], [], [], [], [];
      new;
      hide Balanced;
      NothingYet();
    }

    /** `failed`. */
    method Failed(e: ErrorEntry)
      requires Valid()
      modifies this`ees, this`failures
      ensures Valid() && failures == old(failures) + [e]
    {
      hide Balanced;
      ees, failures := ees + [e], failures + [e];
      assert drainedErrors + ees == old(failures) + [e];
    }

    /** `success`. */
    method Success(c: Call)
      requires Valid()
      modifies this`ies, this`calls
      ensures Valid() && calls == old(calls) + [c]
    {
      hide Balanced;
      CallBalanced(calls, drained, ies, c);
      var apps := if c.iface in ies then ies[c.iface].apps else map[];
      var e := if c.app in apps then apps[c.app] else Entry(c.app, c.iface, 0, 0);
      apps := apps[c.app := e.(count := e.count + 1, time := e.time + c.time)];
      calls, ies := calls + [c], ies[c.iface := IfaceEntry(apps)];
    }

    /** `entrys`: the cache is emptied, in any order of its maps, and each pair comes out
        in at most one entry. */
    method Entrys() returns (es: seq<Entry>)
      requires Valid()
      modifies this`ies, this`drained
      ensures Valid() && ies == map[] && drained == old(drained) + es && AtMostOne(es)
      ensures forall app, iface :: Drained(es, app, iface) == Cached(old(ies), app, iface)
    {
      hide Balanced, Split, Drained;
      es := [];
      NothingDrained(ies);
      while ies.Keys != {}
        invariant drained == old(drained)
        invariant Filed(ies) && Fresh(es, ies) && Split(old(ies), es, ies)
        decreases |ies.Keys|
      {
        var i := Any(ies.Keys);
        es := DrainIface(i, es, old(ies));
        EmptySplit(old(ies), es, ies, i);
        ghost var keys := ies.Keys;
        ies := ies - {i};
        assert ies.Keys == keys - {i};
      }
      assert ies == map[];
      AllDrained(old(ies), es);
      DrainBalanced(calls, drained, old(ies), es);
      drained := drained + es;
    }

    /** The inner loop of that, over one interface. */
    method DrainIface(i: int64, before: seq<Entry>, ghost was: Cache) returns (es: seq<Entry>)
      requires i in ies && Filed(ies) && Fresh(before, ies) && Split(was, before, ies)
      modifies this`ies
      ensures ies.Keys == old(ies).Keys && ies[i].apps.Keys == {}
      ensures Filed(ies) && Fresh(es, ies) && Split(was, es, ies)
    {
      hide Split, Filed, Fresh;
      es := before;
      while ies[i].apps.Keys != {}
        invariant i in ies && ies.Keys == old(ies).Keys && Filed(ies) && Fresh(es, ies) && Split(was, es, ies)
        decreases |ies[i].apps.Keys|
      {
        var a := Any(ies[i].apps.Keys);
        MovedSplit(was, es, ies, i, a);
        es := es + [ies[i].apps[a]];
        ghost var keys := ies[i].apps.Keys;
        ies := ies[i := IfaceEntry(ies[i].apps - {a})];
        assert ies[i].apps.Keys == keys - {a};
      }
    }

    /** `errorEntrys`. */
    method ErrorEntrys() returns (errors: seq<ErrorEntry>)
      requires Valid()
      modifies this`ees, this`drainedErrors
      ensures Valid() && ees == [] && errors == old(ees) && drainedErrors == old(drainedErrors) + errors
    {
      hide Balanced;
      errors := ees;
      ees, drainedErrors := [], drainedErrors + errors;
      assert drainedErrors + ees == failures;
    }
  }
}
