/**
 The runs of `merge`: it replaces every anonymous field of a level by its children, in
 place, until none is left, and does the same below.  Go ranges over a map in any order,
 and an entry added during a range may or may not be visited.
 */
module DocumentRuns {
  import opened Wrappers
  import opened DocumentMerge

  // ---------- the possible outcomes ----------

  /** One range over a level, visiting `ks` in order: every anonymous field visited is
      replaced by its children.  Also whether there was one. */
  ghost function Walk(m: Fields, ks: seq<string>): (Fields, bool) {
    if ks == [] then (m, false)
    else
      var (n, ok) := Walk(m, ks[..|ks| - 1]);
      var k := ks[|ks| - 1];
      if k in n && n[k].anonymous then (Promote(n, k), true) else (n, ok)
  }

  /** Entries that are there from the beginning to the end are visited. */
  ghost predicate Pass(m: Fields, ks: seq<string>) {
    forall k :: k in m && k in Walk(m, ks).0 ==> k in ks
  }

  lemma {:induction false} WalkShrinks(m: Fields, ks: seq<string>)
    requires AllRanked(m)
    ensures var (n, ok) := Walk(m, ks);
            AllRanked(n) && Size(n) <= Size(m) && (if ok then Size(n) < Size(m) else n == m)
    decreases |ks|
  {
    hide Size;
    if ks != [] {
      WalkShrinks(m, ks[..|ks| - 1]);
      var (n, ok) := Walk(m, ks[..|ks| - 1]);
      var k := ks[|ks| - 1];
      if k in n && n[k].anonymous {
        PromoteShrinks(n, k);
      }
    }
  }

  /** `r` may come out of `merge` on `m`: a range over the level and then `merge` on
      everything below, until a range met no anonymous field. */
  ghost predicate Outcome(m: Fields, r: Fields)
    requires AllRanked(m)
    decreases Size(m), 1
  {
    exists ks: seq<string>, n: Fields :: Pass(m, ks) && (WalkShrinks(m, ks); Merged(Walk(m, ks).0, n)) && AllRanked(n)
      && if Walk(m, ks).1 then Size(n) < Size(m) && Outcome(n, r) else r == n
  }

  /** `n` is `m` with everything below merged. */
  ghost predicate Merged(m: Fields, n: Fields)
    requires AllRanked(m)
    decreases Size(m), 0
  {
    && n.Keys == m.Keys
    && forall k :: k in m ==> (ChildSmaller(m, k);
         && n[k] == m[k].(child := n[k].child) && n[k].child.Some? == m[k].child.Some?
         && (m[k].child.Some? ==> Outcome(Kids(m[k]), Kids(n[k]))))
  }

  /** One field with everything below merged. */
  ghost predicate Settled(f: Field, g: Field)
    requires Ranked(f)
  {
    && g == f.(child := g.child) && g.child.Some? == f.child.Some?
    && (f.child.Some? ==> Outcome(Kids(f), Kids(g)))
  }

  lemma MergedAt(m: Fields, n: Fields)
    requires AllRanked(m)
    ensures Merged(m, n) <==> n.Keys == m.Keys && forall k :: k in m ==> Settled(m[k], n[k])
  {
    hide Outcome;
  }

  /** One round more. */
  lemma RoundStep(m: Fields, ks: seq<string>, n: Fields)
    requires AllRanked(m) && Pass(m, ks) && AllRanked(Walk(m, ks).0) && Merged(Walk(m, ks).0, n)
    requires AllRanked(n) && (Walk(m, ks).1 ==> Size(n) < Size(m))
    ensures if Walk(m, ks).1 then forall z :: Outcome(n, z) ==> Outcome(m, z) else Outcome(m, n)
  {
    hide Merged, Size, Walk, Pass;
  }

  // ---------- what every outcome is like ----------

  lemma {:induction false} WalkBecomes(m: Fields, ks: seq<string>, bound: nat)
    requires AllRanked(m) && Under(m, bound)
    ensures Becomes(m, Walk(m, ks).0, bound)
    ensures !Walk(m, ks).1 ==> Walk(m, ks).0 == m && forall k :: k in ks && k in m ==> !m[k].anonymous
    decreases |ks|
  {
    hide Size, Items, Distinct, Ranked;
    if ks != [] {
      WalkBecomes(m, ks[..|ks| - 1], bound);
      var (n, ok) := Walk(m, ks[..|ks| - 1]);
      var k := ks[|ks| - 1];
      if k in n && n[k].anonymous {
        PromoteStep(m, n, k, bound);
      }
    }
  }

  /** Every outcome is no larger, no deeper, free of anonymous fields at every depth, and
      with distinct names the flattened level. */
  lemma {:induction false} OutcomeFacts(m: Fields, r: Fields, bound: nat)
    requires AllRanked(m) && Under(m, bound) && Outcome(m, r)
    ensures AllRanked(r) && Under(r, bound) && Size(r) <= Size(m) && Clean(r)
    ensures Distinct(m) ==> r == Flat(m)
    decreases Size(m), 2
  {
    OutcomeBecomes(m, r, bound);
    hide Size, Outcome, Items, Distinct;
    if Distinct(m) {
      CleanLevel(r);
    }
  }

  lemma {:induction false} OutcomeBecomes(m: Fields, r: Fields, bound: nat)
    requires AllRanked(m) && Under(m, bound) && Outcome(m, r)
    ensures Becomes(m, r, bound) && AllRanked(r) && Clean(r)
    decreases Size(m), 1
  {
    hide Size, Items, Distinct, Walk, Merged, CleanBelow;
    var ks: seq<string>, n: Fields :| Pass(m, ks) && (WalkShrinks(m, ks); Merged(Walk(m, ks).0, n)) && AllRanked(n)
      && if Walk(m, ks).1 then Size(n) < Size(m) && Outcome(n, r) else r == n;
    WalkShrinks(m, ks);
    WalkBecomes(m, ks, bound);
    MergedBecomes(Walk(m, ks).0, n, bound);
    BecomesTrans(m, Walk(m, ks).0, n, bound);
    if Walk(m, ks).1 {
      OutcomeBecomes(n, r, bound);
      BecomesTrans(m, n, r, bound);
    }
  }

  lemma {:induction false} MergedBecomes(m: Fields, n: Fields, bound: nat)
    requires AllRanked(m) && Under(m, bound) && Merged(m, n)
    ensures Becomes(m, n, bound) && n.Keys == m.Keys && AllRanked(n)
    ensures forall k :: k in m ==> n[k].anonymous == m[k].anonymous && CleanBelow(n[k])
    decreases Size(m), 0
  {
    hide Size, Items, Distinct, CleanBelow, Ranked, Outcome;
    MergedAt(m, n);
    assert n == Mixed(m, n, m.Keys);
    MixedBecomes(m, n, m.Keys, bound);
  }

  ghost function Mixed(m: Fields, n: Fields, done: set<string>): Fields
    requires m.Keys == n.Keys
  {
    map k | k in m :: if k in done then n[k] else m[k]
  }

  lemma {:induction false} MixedBecomes(m: Fields, n: Fields, done: set<string>, bound: nat)
    requires AllRanked(m) && Under(m, bound) && n.Keys == m.Keys && done <= m.Keys
    requires forall k :: k in m ==> Settled(m[k], n[k])
    ensures Becomes(m, Mixed(m, n, done), bound)
    ensures forall k :: k in done ==> Ranked(n[k]) && n[k].anonymous == m[k].anonymous && CleanBelow(n[k])
    decreases Size(m), 0, |done|
  {
    hide Size, Items, Distinct, CleanBelow, Ranked, Outcome, Flat;
    if done == {} {
      assert Mixed(m, n, done) == m;
    } else {
      var k :| k in done;
      var before := Mixed(m, n, done - {k});
      MixedBecomes(m, n, done - {k}, bound);
      assert Mixed(m, n, done) == before[k := n[k]] && before[k] == m[k];
      ChildSmaller(m, k);
      if m[k].child.Some? {
        OutcomeFacts(Kids(m[k]), Kids(n[k]), m[k].depth);
        ChildMerged(m, before, k, Kids(n[k]), bound);
      } else {
        NoChildClean(m[k]);
        assert before[k := n[k]] == before;
      }
    }
  }

  // ---------- the code ----------

  /** The first half of a round: one range over the level.  Fields present from the start
      are visited, added ones perhaps. */
  method ClearLevel(fm: Fields) returns (r: Fields, ok: bool, ghost visits: seq<string>)
    requires AllRanked(fm)
    ensures (r, ok) == Walk(fm, visits) && Pass(fm, visits)
  {
    hide Size, Ranked;
    r, ok, visits := fm, false, [];
    var pending, added := fm.Keys, {};
    while true
      invariant AllRanked(r) && (r, ok) == Walk(fm, visits)
      invariant forall k :: k in fm ==> k in pending || k in visits
      decreases Size(r), |pending + added|
    {
      var stop: bool := *;
      var open := (pending + added) * r.Keys;
      assert pending * r.Keys <= open;
      if pending * r.Keys == {} && (stop || open == {}) {
        break;
      }
      var k :| k in open;
      ghost var before := pending + added;
      pending, added := pending - {k}, added - {k};
      assert pending + added == before - {k};
      assert (visits + [k])[..|visits|] == visits;
      visits := visits + [k];
      if r[k].anonymous {
        PromoteShrinks(r, k);
        added := added + Kids(r[k]).Keys;
        r := Promote(r, k);
        ok := true;
      }
    }
    assert forall k :: k in fm && k in r ==> k !in pending * r.Keys;
  }

  /** The second half: everything below is merged. */
  method MergeChildren(m: Fields) returns (r: Fields)
    requires AllRanked(m)
    ensures Merged(m, r)
    decreases Size(m), 0
  {
    hide Size, Ranked, Outcome;
    r := m;
    var todo := m.Keys;
    while todo != {}
      invariant todo <= m.Keys == r.Keys
      invariant forall k :: k in todo ==> r[k] == m[k]
      invariant forall k :: k in m && k !in todo ==> Settled(m[k], r[k])
    {
      var k :| k in todo;
      todo := todo - {k};
      ChildSmaller(m, k);
      if r[k].child.Some? {
        var c := Merge(r[k].child.value);
        r := r[k := r[k].(child := Some(c))];
      }
    }
    MergedAt(m, r);
  }

  /** `merge`: it ends for every order of visits, with one of the outcomes; so it leaves no
      anonymous field at any depth, and with distinct names the flattened level. */
  method Merge(fm: Fields) returns (r: Fields)
    requires AllRanked(fm)
    ensures Outcome(fm, r) && AllRanked(r) && Clean(r) && (Distinct(fm) ==> r == Flat(fm))
    decreases Size(fm), 1
  {
    hide Size, Outcome, Merged, Walk, Pass, Ranked;
    var ok := true;
    r := fm;
    while ok
      invariant AllRanked(r) && Size(r) <= Size(fm)
      invariant if ok then forall z :: Outcome(r, z) ==> Outcome(fm, z) else Outcome(fm, r)
      decreases Size(r), ok
    {
      ghost var before, visits := r, [];
      r, ok, visits := ClearLevel(r);
      WalkShrinks(before, visits);
      ghost var cleared := r;
      r := MergeChildren(r);
      ghost var bound := Bound(cleared);
      MergedBecomes(cleared, r, bound);
      RoundStep(before, visits, r);
    }
    OutcomeFacts(fm, r, Bound(fm));
  }

  /** A bound on the depths of a level. */
  ghost function Bound(m: Fields): (b: nat)
    ensures Under(m, b)
    decreases |m|
  {
    if m == map[] then 0
    else
      var k :| k in m;
      var b := Bound(m - {k});
      assert forall j :: j in m && j != k ==> j in m - {k} && (m - {k})[j] == m[j];
      if m[k].depth < b then b else m[k].depth + 1
  }
}
