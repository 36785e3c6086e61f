/**
 When the outcome of `merge` depends on the order of the maps, for levels where no field
 takes the name of an anonymous one.  A name of a level may be contributed by a plain field
 and by several anonymous ones; what stays is what was put there last.  On such a level a
 plain field gives way, and the deeper of two contributions along one chain of anonymous
 fields comes later; all others compete.
 */
module DocumentOrder {
  import opened Wrappers
  import opened DocumentMerge
  import opened DocumentRuns

  // ---------- who may be last ----------

  /** The fields that may be the last ones put under name `x` from among the children of a
      field: those that anonymous children put there, and else the child of that name. */
  ghost function LastOf(f: Field, x: string): set<Field>
    requires Ranked(f)
    decreases f.depth
  {
    var c := Kids(f);
    var promoted := set k, g | k in c && c[k].anonymous && g in LastOf(c[k], x) :: g;
    if promoted != {} then promoted else Own(c, x)
  }

  ghost function Own(m: Fields, x: string): set<Field> { if x in m && !m[x].anonymous then {m[x]} else {} }

  ghost function Promoted(m: Fields, x: string): set<Field>
    requires AllRanked(m)
  {
    set k, g | k in m && m[k].anonymous && g in LastOf(m[k], x) :: g
  }

  /** The same for a level. */
  ghost function Last(m: Fields, x: string): set<Field>
    requires AllRanked(m)
  {
    if Promoted(m, x) != {} then Promoted(m, x) else Own(m, x)
  }

  lemma PromotedHas(m: Fields, x: string, g: Field)
    requires AllRanked(m)
    ensures g in Promoted(m, x) <==> exists k :: k in m && m[k].anonymous && g in LastOf(m[k], x)
  {
    hide LastOf;
  }

  lemma LastOfIs(f: Field, x: string)
    requires Ranked(f)
    ensures AllRanked(Kids(f)) && LastOf(f, x) == Last(Kids(f), x)
  {
    var c := Kids(f);
    var promoted := set k, g | k in c && c[k].anonymous && g in LastOf(c[k], x) :: g;
    assert LastOf(f, x) == if promoted != {} then promoted else Own(c, x);
    assert promoted == Promoted(c, x) by {
      forall g ensures g in promoted <==> g in Promoted(c, x) {
        PromotedHas(c, x, g);
      }
    }
  }

  lemma {:induction false} LastOfFacts(f: Field, x: string, g: Field)
    requires Ranked(f) && g in LastOf(f, x)
    ensures Ranked(g) && !g.anonymous && g.depth < f.depth && FieldSize(g) < FieldSize(f)
    decreases f.depth
  {
    hide FieldSize;
    LastOfIs(f, x);
    FieldSizeIs(f);
    LastFacts(Kids(f), x, g, f.depth);
  }

  lemma {:induction false} LastFacts(m: Fields, x: string, g: Field, bound: nat)
    requires AllRanked(m) && Under(m, bound) && g in Last(m, x)
    ensures Ranked(g) && !g.anonymous && g.depth < bound && FieldSize(g) <= Size(m)
    decreases bound, 0
  {
    hide FieldSize, Size, LastOf;
    if Promoted(m, x) != {} {
      PromotedHas(m, x, g);
      var k :| k in m && m[k].anonymous && g in LastOf(m[k], x);
      LastOfFacts(m[k], x, g);
      SizeSplit(m, k);
    } else {
      SizeSplit(m, x);
    }
  }

  // ---------- anonymous fields that nothing overwrites ----------

  /** The names of anonymous fields that a field may put into its level. */
  ghost function Hidden(k: string, f: Field): set<string>
    requires Ranked(f)
    decreases f.depth
  {
    if !f.anonymous then {} else {k} + set j, x | j in Kids(f) && x in Hidden(j, Kids(f)[j]) :: x
  }

  ghost predicate Free(m: Fields)
    requires AllRanked(m)
  {
    forall i, j :: i in m && j in m && i != j ==> Hidden(i, m[i]) !! Names(j, m[j])
  }

  ghost predicate UntangledBelow(f: Field)
    requires Ranked(f)
    decreases f.depth
  {
    Free(Kids(f)) && forall k :: k in Kids(f) ==> UntangledBelow(Kids(f)[k])
  }

  /** No field ever takes the name of an anonymous one, here or below. */
  ghost predicate Untangled(m: Fields)
    requires AllRanked(m)
  {
    Free(m) && forall k :: k in m ==> UntangledBelow(m[k])
  }

  lemma HiddenOwn(k: string, f: Field)
    requires Ranked(f)
    ensures k in Names(k, f) && (f.anonymous ==> k in Hidden(k, f))
  {
  }

  lemma KidHidden(k: string, f: Field, j: string)
    requires Ranked(f) && f.anonymous && j in Kids(f)
    ensures Names(j, Kids(f)[j]) <= Names(k, f) && Hidden(j, Kids(f)[j]) <= Hidden(k, f) && j in Names(k, f)
    ensures Kids(f)[j].anonymous ==> j in Hidden(k, f)
  {
    HiddenOwn(j, Kids(f)[j]);
  }

  lemma UntangledKids(f: Field)
    requires Ranked(f) && UntangledBelow(f)
    ensures AllRanked(Kids(f)) && Untangled(Kids(f))
  {
  }

  /** Promotion overwrites no anonymous field and puts none over a plain one. */
  lemma PromoteClear(m: Fields, k: string, j: string)
    requires AllRanked(m) && Free(m) && k in m && m[k].anonymous && j in m && j != k && j in Kids(m[k])
    ensures !m[j].anonymous && !Kids(m[k])[j].anonymous
  {
    hide Names, Hidden;
    HiddenOwn(j, m[j]);
    KidHidden(k, m[k], j);
  }

  lemma PromoteFree(m: Fields, k: string)
    requires AllRanked(m) && Free(m) && k in m && m[k].anonymous && AllRanked(Kids(m[k])) && Free(Kids(m[k]))
    ensures AllRanked(Promote(m, k)) && Free(Promote(m, k))
  {
    hide Names, Hidden;
    var c, p := Kids(m[k]), Promote(m, k);
    forall i, j | i in p && j in p && i != j ensures Hidden(i, p[i]) !! Names(j, p[j]) {
      if i in c {
        KidHidden(k, m[k], i);
      }
      if j in c {
        KidHidden(k, m[k], j);
      }
    }
  }

  lemma PromoteUntangled(m: Fields, k: string)
    requires AllRanked(m) && Untangled(m) && k in m && m[k].anonymous
    ensures AllRanked(Promote(m, k)) && Untangled(Promote(m, k))
  {
    hide Names, Hidden, UntangledBelow, Free;
    UntangledKids(m[k]);
    PromoteFree(m, k);
  }

  // ---------- what promotion does to them ----------

  lemma PromotedSplit(m: Fields, k: string, x: string)
    requires AllRanked(m) && k in m && m[k].anonymous
    ensures AllRanked(Kids(m[k])) && Promoted(m, x) == Promoted(m - {k}, x) + Last(Kids(m[k]), x)
  {
    hide LastOf, Last;
    LastOfIs(m[k], x);
    forall g ensures g in Promoted(m, x) <==> g in Promoted(m - {k}, x) + LastOf(m[k], x) {
      PromotedHas(m, x, g);
      PromotedHas(m - {k}, x, g);
      if g in Promoted(m, x) {
        var j :| j in m && m[j].anonymous && g in LastOf(m[j], x);
        assert j != k ==> j in m - {k} && (m - {k})[j] == m[j];
      }
    }
  }

  lemma PromotedPut(a: Fields, b: Fields, x: string)
    requires AllRanked(a) && AllRanked(b) && forall j :: j in a && j in b ==> !a[j].anonymous
    ensures AllRanked(a + b) && Promoted(a + b, x) == Promoted(a, x) + Promoted(b, x)
  {
    hide LastOf, Ranked;
    forall g ensures g in Promoted(a + b, x) <==> g in Promoted(a, x) + Promoted(b, x) {
      PromotedHas(a, x, g);
      PromotedHas(b, x, g);
      PromotedHas(a + b, x, g);
      if j :| j in a && a[j].anonymous && g in LastOf(a[j], x) {
        assert j in a + b && (a + b)[j] == a[j];
      }
      if j :| j in b && b[j].anonymous && g in LastOf(b[j], x) {
        assert j in a + b && (a + b)[j] == b[j];
      }
    }
  }

  /** The sets of a level before and after a promotion. */
  lemma PromoteParts(m: Fields, k: string, x: string)
    requires AllRanked(m) && Untangled(m) && k in m && m[k].anonymous
    ensures AllRanked(Promote(m, k)) && AllRanked(Kids(m[k])) && AllRanked(m - {k})
    ensures Promoted(m, x) == Promoted(m - {k}, x) + Last(Kids(m[k]), x)
    ensures Promoted(Promote(m, k), x) == Promoted(m - {k}, x) + Promoted(Kids(m[k]), x)
    ensures x in Kids(m[k]) ==> Own(Promote(m, k), x) == Own(Kids(m[k]), x)
    ensures x !in Kids(m[k]) ==> Own(Promote(m, k), x) == Own(m, x)
    ensures x in Kids(m[k]) && Own(Kids(m[k]), x) == {} ==> Own(m, x) == {}
  {
    hide Promoted, Last, Names, Hidden, UntangledBelow, Ranked;
    PromotedSplit(m, k, x);
    forall j | j in m - {k} && j in Kids(m[k]) ensures !(m - {k})[j].anonymous && !Kids(m[k])[j].anonymous {
      PromoteClear(m, k, j);
    }
    PromotedPut(m - {k}, Kids(m[k]), x);
  }

  /** Promotion never brings new competitors, and leaves some if there were any. */
  lemma PromoteLast(m: Fields, k: string, x: string)
    requires AllRanked(m) && Untangled(m) && k in m && m[k].anonymous
    ensures AllRanked(Promote(m, k)) && Last(Promote(m, k), x) <= Last(m, x)
    ensures Last(Promote(m, k), x) == {} <==> Last(m, x) == {}
  {
    hide Promoted, Untangled, Promote;
    PromoteParts(m, k, x);
  }

  /** Any competitor can survive some promotion: that of another field, or at last of its own. */
  lemma PromoteFor(m: Fields, x: string, g: Field) returns (j: string)
    requires AllRanked(m) && Untangled(m) && g in Last(m, x) && exists k :: k in m && m[k].anonymous
    ensures j in m && m[j].anonymous && AllRanked(Promote(m, j)) && g in Last(Promote(m, j), x)
  {
    hide Own, Untangled, Promote, LastOf;
    if Promoted(m, x) == {} {
      j :| j in m && m[j].anonymous;
      PromoteParts(m, j, x);
      PromoteLast(m, j, x);
    } else {
      PromotedHas(m, x, g);
      var k :| k in m && m[k].anonymous && g in LastOf(m[k], x);
      if i :| i in m && m[i].anonymous && i != k {
        j := i;
        PromoteParts(m, j, x);
        assert g in Promoted(m - {j}, x) by {
          PromotedHas(m - {j}, x, g);
          assert k in m - {j} && (m - {j})[k] == m[k];
        }
      } else {
        j := k;
        PromoteParts(m, k, x);
        LastOfIs(m[k], x);
        assert Promoted(m - {k}, x) == {} by {
          forall h ensures h !in Promoted(m - {k}, x) {
            PromotedHas(m - {k}, x, h);
          }
        }
        OwnKids(m, k, x, g);
      }
    }
  }

  lemma OwnKids(m: Fields, k: string, x: string, g: Field)
    requires AllRanked(m) && k in m && AllRanked(Kids(m[k])) && AllRanked(Promote(m, k)) && g in Last(Kids(m[k]), x)
    requires Promoted(Promote(m, k), x) == Promoted(Kids(m[k]), x)
    requires x in Kids(m[k]) ==> Own(Promote(m, k), x) == Own(Kids(m[k]), x)
    ensures g in Last(Promote(m, k), x)
  {
    hide Promoted;
  }

  // ---------- runs that exist ----------

  lemma {:induction false} WalkCons(m: Fields, j: string, ks: seq<string>)
    requires j in m && m[j].anonymous
    ensures Walk(m, [j] + ks) == (Walk(Promote(m, j), ks).0, true)
    decreases |ks|
  {
    hide Promote;
    if ks == [] {
      assert [j] + ks == [j] && [j][..0] == [];
    } else {
      assert ([j] + ks)[..|[j] + ks| - 1] == [j] + ks[..|ks| - 1];
      WalkCons(m, j, ks[..|ks| - 1]);
    }
  }

  ghost predicate Plain(m: Fields) { forall k :: k in m ==> !m[k].anonymous }

  lemma {:induction false} WalkPlain(m: Fields, ks: seq<string>, more: seq<string>)
    requires Plain(Walk(m, ks).0)
    ensures Walk(m, ks + more) == Walk(m, ks)
    decreases |more|
  {
    if more == [] {
      assert ks + more == ks;
    } else {
      assert (ks + more)[..|ks + more| - 1] == ks + more[..|more| - 1];
      WalkPlain(m, ks, more[..|more| - 1]);
    }
  }

  ghost function Listed(s: set<string>): (r: seq<string>)
    ensures forall k :: k in s ==> k in r
  {
    if s == {} then []
    else
      var k :| k in s;
      [k] + Listed(s - {k})
  }

  /** Visiting the rest of a level that has no anonymous fields left completes the range. */
  lemma WholePass(m: Fields, ks: seq<string>)
    requires Plain(Walk(m, ks).0)
    ensures var all := ks + Listed(m.Keys); Pass(m, all) && Walk(m, all) == Walk(m, ks)
  {
    hide Walk;
    WalkPlain(m, ks, Listed(m.Keys));
  }

  /** A level without anonymous fields at any depth is its only outcome. */
  lemma {:induction false} CleanOutcome(m: Fields, r: Fields)
    requires AllRanked(m) && Clean(m)
    ensures Outcome(m, r) <==> r == m
    decreases Size(m)
  {
    forall k | k in m && m[k].child.Some?
      ensures AllRanked(Kids(m[k])) && forall c :: Outcome(Kids(m[k]), c) <==> c == Kids(m[k])
    {
      ChildSmaller(m, k);
      forall c ensures Outcome(Kids(m[k]), c) <==> c == Kids(m[k]) {
        CleanOutcome(Kids(m[k]), c);
      }
    }
    forall n ensures Merged(m, n) <==> n == m {
      MergedClean(m, n);
    }
    OnlyItself(m, r);
  }

  lemma MergedClean(m: Fields, n: Fields)
    requires AllRanked(m)
    requires forall k :: k in m && m[k].child.Some? ==>
            AllRanked(Kids(m[k])) && forall c :: Outcome(Kids(m[k]), c) <==> c == Kids(m[k])
    ensures Merged(m, n) <==> n == m
  {
    hide Outcome, Ranked;
    MergedAt(m, n);
  }

  lemma OnlyItself(m: Fields, r: Fields)
    requires AllRanked(m) && Plain(m) && forall n :: Merged(m, n) <==> n == m
    ensures Outcome(m, r) <==> r == m
  {
    hide Merged, Size, Walk, Ranked;
    forall ks ensures Walk(m, ks) == (m, false) {
      WalkNothing(m);
      WalkPlain(m, [], ks);
      assert [] + ks == ks;
    }
    WalkNothing(m);
    WholePass(m, []);
    var all := [] + Listed(m.Keys);
    assert Pass(m, all) && Merged(Walk(m, all).0, m);
  }

  lemma WalkNothing(m: Fields)
    ensures Walk(m, []) == (m, false)
  {
  }

  /** A range that leaves no anonymous field, then `merge` below: an outcome. */
  lemma EagerOutcome(m: Fields, ks: seq<string>, r: Fields)
    requires AllRanked(m) && AllRanked(Walk(m, ks).0) && Plain(Walk(m, ks).0) && Merged(Walk(m, ks).0, r)
    ensures Outcome(m, r)
  {
    hide Size, Walk, Merged, Outcome, Ranked, CleanBelow;
    WholePass(m, ks);
    var all := ks + Listed(m.Keys);
    WalkShrinks(m, all);
    var n := Walk(m, all).0;
    MergedBecomes(n, r, Bound(n));
    CleanOutcome(r, r);
    RoundStep(m, all, r);
  }

  lemma {:induction false} SomeEager(m: Fields) returns (ks: seq<string>)
    requires AllRanked(m)
    ensures AllRanked(Walk(m, ks).0) && Plain(Walk(m, ks).0)
    decreases Size(m)
  {
    hide Size, Ranked;
    if j :| j in m && m[j].anonymous {
      PromoteShrinks(m, j);
      var more := SomeEager(Promote(m, j));
      WalkCons(m, j, more);
      ks := [j] + more;
    } else {
      ks := [];
    }
  }

  ghost function AnOutcome(m: Fields): (r: Fields)
    requires AllRanked(m)
    ensures Outcome(m, r)
    decreases Size(m), 1
  {
    HasOutcome(m);
    var r :| Outcome(m, r);
    r
  }

  lemma {:induction false} HasOutcome(m: Fields)
    requires AllRanked(m)
    ensures exists r :: Outcome(m, r)
    decreases Size(m), 0
  {
    hide Outcome, Size, Walk, Ranked;
    var ks := SomeEager(m);
    WalkShrinks(m, ks);
    var n := Walk(m, ks).0;
    forall k | k in n ensures AllRanked(Kids(n[k])) && Size(Kids(n[k])) < Size(n) {
      ChildSmaller(n, k);
    }
    var r := map k | k in n :: n[k].(child := if n[k].child.None? then None else Some(AnOutcome(Kids(n[k]))));
    MergedAt(n, r);
    EagerOutcome(m, ks, r);
  }

  /** Whoever competes for a name can be last. */
  lemma {:induction false} EagerFor(m: Fields, x: string, g: Field) returns (ks: seq<string>)
    requires AllRanked(m) && Untangled(m) && g in Last(m, x)
    ensures AllRanked(Walk(m, ks).0) && Plain(Walk(m, ks).0) && x in Walk(m, ks).0 && Walk(m, ks).0[x] == g
    decreases Size(m)
  {
    hide Size, Ranked, Untangled, LastOf;
    if exists k :: k in m && m[k].anonymous {
      var j := PromoteFor(m, x, g);
      PromoteShrinks(m, j);
      PromoteUntangled(m, j);
      var more := EagerFor(Promote(m, j), x, g);
      WalkCons(m, j, more);
      ks := [j] + more;
    } else {
      ks := [];
      if Promoted(m, x) != {} {
        PromotedHas(m, x, g);
      }
    }
  }

  lemma ReachOutcome(m: Fields, x: string, g: Field, v: Field) returns (r: Fields)
    requires AllRanked(m) && Untangled(m) && g in Last(m, x) && Ranked(g) && Settled(g, v)
    ensures Outcome(m, r) && x in r && r[x] == v
  {
    hide Outcome, Size, Walk, Ranked, Untangled, Last;
    var ks := EagerFor(m, x, g);
    var n := Walk(m, ks).0;
    forall k | k in n ensures AllRanked(Kids(n[k])) {
      ChildSmaller(n, k);
    }
    r := map k | k in n :: if k == x then v
                           else n[k].(child := if n[k].child.None? then None else Some(AnOutcome(Kids(n[k]))));
    MergedAt(n, r);
    EagerOutcome(m, ks, r);
  }

  // ---------- no other outcomes ----------

  /** `v` is a competitor for `x` with everything below it merged. */
  ghost predicate From(m: Fields, x: string, v: Field)
    requires AllRanked(m)
  {
    exists g :: g in Last(m, x) && Ranked(g) && Settled(g, v)
  }

  lemma {:induction false} WalkLast(m: Fields, ks: seq<string>, x: string)
    requires AllRanked(m) && Untangled(m)
    ensures var n := Walk(m, ks).0;
            AllRanked(n) && Untangled(n) && Last(n, x) <= Last(m, x) && (Last(n, x) == {} <==> Last(m, x) == {})
    decreases |ks|
  {
    hide Ranked, Untangled, Last, Promote;
    if ks != [] {
      WalkLast(m, ks[..|ks| - 1], x);
      var n, k := Walk(m, ks[..|ks| - 1]).0, ks[|ks| - 1];
      if k in n && n[k].anonymous {
        PromoteUntangled(n, k);
        PromoteLast(n, k, x);
      }
    }
  }

  lemma PlainLast(m: Fields, x: string)
    requires AllRanked(m) && Plain(m)
    ensures Last(m, x) == Own(m, x)
  {
    hide LastOf;
    forall g ensures g !in Promoted(m, x) {
      PromotedHas(m, x, g);
    }
  }

  lemma NoKids(f: Field, x: string)
    requires Ranked(f) && Kids(f) == map[]
    ensures LastOf(f, x) == {}
  {
    LastOfIs(f, x);
    PlainLast(Kids(f), x);
  }

  /** A field merged below puts under each name what one of its competitors became. */
  lemma {:induction false} KidLast(f: Field, g: Field, x: string)
    requires Ranked(f) && Ranked(g) && UntangledBelow(f) && Settled(f, g) && AllRanked(Kids(f))
    ensures LastOf(g, x) == {} <==> LastOf(f, x) == {}
    ensures forall v :: v in LastOf(g, x) ==> exists h :: h in LastOf(f, x) && Ranked(h) && Settled(h, v)
    decreases Size(Kids(f)), 2
  {
    hide Outcome, Size, LastOf, Last, Ranked, CleanBelow;
    if f.child.None? {
      NoKids(f, x);
    } else {
      UntangledKids(f);
      LastOfIs(f, x);
      LastOfIs(g, x);
      OutcomeFrom(Kids(f), Kids(g), x);
      OutcomeFacts(Kids(f), Kids(g), Bound(Kids(f)));
      PlainLast(Kids(g), x);
      if x in Kids(g) {
        var h :| h in Last(Kids(f), x) && Ranked(h) && Settled(h, Kids(g)[x]);
      }
    }
  }

  lemma {:induction false} MergedLast(m: Fields, n: Fields, x: string)
    requires AllRanked(m) && AllRanked(n) && Untangled(m) && Merged(m, n)
    ensures Last(n, x) == {} <==> Last(m, x) == {}
    ensures forall v :: v in Last(n, x) ==> From(m, x, v)
    decreases Size(m), 0
  {
    hide Outcome, Size, LastOf, Ranked, UntangledBelow;
    MergedAt(m, n);
    forall k | k in m && m[k].anonymous
      ensures LastOf(n[k], x) == {} <==> LastOf(m[k], x) == {}
      ensures forall v :: v in LastOf(n[k], x) ==> exists h :: h in LastOf(m[k], x) && Ranked(h) && Settled(h, v)
    {
      ChildSmaller(m, k);
      KidLast(m[k], n[k], x);
    }
    MergedCompetitors(m, n, x);
  }

  lemma MergedCompetitors(m: Fields, n: Fields, x: string)
    requires AllRanked(m) && AllRanked(n) && n.Keys == m.Keys && forall k :: k in m ==> Settled(m[k], n[k])
    requires forall k :: k in m && m[k].anonymous ==> (LastOf(n[k], x) == {} <==> LastOf(m[k], x) == {})
    requires forall k, v :: k in m && m[k].anonymous && v in LastOf(n[k], x) ==>
               exists h :: h in LastOf(m[k], x) && Ranked(h) && Settled(h, v)
    ensures Last(n, x) == {} <==> Last(m, x) == {}
    ensures forall v :: v in Last(n, x) ==> From(m, x, v)
  {
    hide LastOf, Ranked, Settled;
    PromotedBoth(m, n, x);
    if Promoted(n, x) == {} && x in m {
      assert From(m, x, n[x]) || m[x].anonymous by {
        assert !m[x].anonymous ==> m[x] in Last(m, x);
      }
      SettledKind(m[x], n[x]);
    }
  }

  lemma SettledKind(f: Field, g: Field)
    requires Ranked(f) && Settled(f, g)
    ensures g.anonymous == f.anonymous
  {
    hide Outcome;
  }

  lemma PromotedBoth(m: Fields, n: Fields, x: string)
    requires AllRanked(m) && AllRanked(n) && n.Keys == m.Keys && forall k :: k in m ==> Settled(m[k], n[k])
    requires forall k :: k in m && m[k].anonymous ==> (LastOf(n[k], x) == {} <==> LastOf(m[k], x) == {})
    requires forall k, v :: k in m && m[k].anonymous && v in LastOf(n[k], x) ==>
               exists h :: h in LastOf(m[k], x) && Ranked(h) && Settled(h, v)
    ensures Promoted(n, x) == {} <==> Promoted(m, x) == {}
    ensures forall v :: v in Promoted(n, x) ==> exists h :: h in Promoted(m, x) && Ranked(h) && Settled(h, v)
  {
    hide LastOf, Ranked, Settled, Promoted;
    forall k | k in m ensures n[k].anonymous == m[k].anonymous {
      SettledKind(m[k], n[k]);
    }
    if g :| g in Promoted(m, x) {
      PromotedHas(m, x, g);
      var k :| k in m && m[k].anonymous && g in LastOf(m[k], x);
      var v :| v in LastOf(n[k], x);
      PromotedHas(n, x, v);
    }
    forall v | v in Promoted(n, x) ensures exists h :: h in Promoted(m, x) && Ranked(h) && Settled(h, v) {
      PromotedHas(n, x, v);
      var k :| k in n && n[k].anonymous && v in LastOf(n[k], x);
      var h :| h in LastOf(m[k], x) && Ranked(h) && Settled(h, v);
      PromotedHas(m, x, h);
    }
  }

  lemma {:induction false} CleanUntangled(f: Field)
    requires Ranked(f) && CleanBelow(f)
    ensures UntangledBelow(f)
    decreases f.depth
  {
    forall k | k in Kids(f) ensures UntangledBelow(Kids(f)[k]) && Hidden(k, Kids(f)[k]) == {} {
      CleanUntangled(Kids(f)[k]);
    }
  }

  /** Merging below keeps a level untangled. */
  lemma {:induction false} MergedUntangled(m: Fields, n: Fields)
    requires AllRanked(m) && AllRanked(n) && Untangled(m) && Merged(m, n)
    ensures Untangled(n)
    decreases Size(m), 0
  {
    hide Outcome, Size, LastOf, Ranked, UntangledBelow, CleanBelow;
    MergedBecomes(m, n, Bound(m));
    MergedAt(m, n);
    forall k | k in m
      ensures UntangledBelow(n[k]) && Names(k, n[k]) <= Names(k, m[k]) && Hidden(k, n[k]) <= Hidden(k, m[k])
    {
      CleanUntangled(n[k]);
      ChildSmaller(m, k);
      SettledNames(k, m[k], n[k]);
    }
    hide Names, Hidden, Merged;
  }

  lemma {:induction false} SettledNames(k: string, f: Field, g: Field)
    requires Ranked(f) && Ranked(g) && UntangledBelow(f) && CleanBelow(g) && Settled(f, g) && AllRanked(Kids(f))
    ensures Names(k, g) <= Names(k, f) && Hidden(k, g) <= Hidden(k, f)
    decreases Size(Kids(f)), 2
  {
    hide Outcome, Size, LastOf, Ranked, UntangledBelow;
    if f.anonymous && f.child.Some? {
      UntangledKids(f);
      KidsRanked(g);
      forall x | x in Names(k, g) && x != k ensures x in Names(k, f) {
        var j :| j in Kids(g) && x in Names(j, Kids(g)[j]);
        OutcomeFrom(Kids(f), Kids(g), x);
        NamedKid(k, f, x);
      }
    }
  }

  /** Names that are competed for are names that may be used. */
  lemma {:induction false} NamedKid(k: string, f: Field, x: string)
    requires Ranked(f) && f.anonymous && AllRanked(Kids(f)) && Last(Kids(f), x) != {}
    ensures x in Names(k, f)
    decreases f.depth
  {
    hide LastOf;
    var g :| g in Last(Kids(f), x);
    if Promoted(Kids(f), x) != {} {
      PromotedHas(Kids(f), x, g);
      var j :| j in Kids(f) && Kids(f)[j].anonymous && g in LastOf(Kids(f)[j], x);
      LastOfIs(Kids(f)[j], x);
      NamedKid(j, Kids(f)[j], x);
    } else {
      HiddenOwn(x, Kids(f)[x]);
    }
  }

  /** Every outcome holds, under each name there is, what one of the competitors became. */
  lemma {:induction false} OutcomeFrom(m: Fields, r: Fields, x: string)
    requires AllRanked(m) && Untangled(m) && Outcome(m, r)
    ensures x in r <==> Last(m, x) != {}
    ensures x in r ==> From(m, x, r[x])
    decreases Size(m), 1
  {
    hide Size, Last, LastOf, Untangled, Walk, Merged, Ranked, From;
    var ks: seq<string>, n: Fields :| Pass(m, ks) && (WalkShrinks(m, ks); Merged(Walk(m, ks).0, n)) && AllRanked(n)
      && if Walk(m, ks).1 then Size(n) < Size(m) && Outcome(n, r) else r == n;
    WalkShrinks(m, ks);
    WalkLast(m, ks, x);
    var w := Walk(m, ks).0;
    MergedLast(w, n, x);
    MergedBecomes(w, n, Bound(w));
    if Walk(m, ks).1 {
      MergedUntangled(w, n);
      OutcomeFrom(n, r, x);
      if x in r {
        OnceMore(m, w, n, x, r[x]);
      }
    } else {
      WalkBecomes(m, ks, Bound(m));
      PlainLast(n, x);
      if x in r {
        FromMore(m, w, x, r[x]);
      }
    }
  }

  lemma FromMore(m: Fields, w: Fields, x: string, v: Field)
    requires AllRanked(m) && AllRanked(w) && Last(w, x) <= Last(m, x) && From(w, x, v)
    ensures From(m, x, v)
  {
    hide Last, Settled, Ranked;
  }

  /** What came out of a level that was merged below does not change any more. */
  lemma OnceMore(m: Fields, w: Fields, n: Fields, x: string, v: Field)
    requires AllRanked(m) && AllRanked(w) && AllRanked(n) && Last(w, x) <= Last(m, x)
    requires (forall u :: u in Last(n, x) ==> From(w, x, u)) && From(n, x, v)
    ensures From(m, x, v)
  {
    hide Last, Ranked, Settled, From;
    var u := FromWhom(n, x, v);
    var g := FromWhom(w, x, u);
    SettledTwice(g, u, v);
    FromMore(m, w, x, u);
  }

  lemma FromWhom(m: Fields, x: string, v: Field) returns (g: Field)
    requires AllRanked(m) && From(m, x, v)
    ensures g in Last(m, x) && Ranked(g) && Settled(g, v)
  {
    hide Last, Ranked, Settled;
    g :| g in Last(m, x) && Ranked(g) && Settled(g, v);
  }

  lemma SettledTwice(g: Field, u: Field, v: Field)
    requires Ranked(g) && Ranked(u) && Settled(g, u) && Settled(u, v)
    ensures v == u
  {
    hide Ranked, Outcome;
    if g.child.Some? {
      KidsRanked(g);
      KidsRanked(u);
      OutcomeFacts(Kids(g), Kids(u), Bound(Kids(g)));
      CleanOutcome(Kids(u), Kids(v));
    }
  }

  lemma KidsRanked(f: Field)
    requires Ranked(f)
    ensures AllRanked(Kids(f))
  {
  }

  // ---------- when all outcomes agree ----------

  /** Two fields that document the same; the bounds on depth do not count. */
  ghost predicate Alike(f: Field, g: Field)
    decreases f.depth
  {
    && f.info == g.info && f.anonymous == g.anonymous && f.child.Some? == g.child.Some? && Kids(f).Keys == Kids(g).Keys
    && forall k :: k in Kids(f) && Kids(f)[k].depth < f.depth ==> Alike(Kids(f)[k], Kids(g)[k])
  }

  ghost predicate AllAlike(m: Fields, n: Fields) {
    m.Keys == n.Keys && forall k :: k in m ==> Alike(m[k], n[k])
  }

  /** Two competitors that cannot be told apart in the end: they document the same, and below
      them, name by name, no two competitors can be told apart either. */
  ghost predicate Match(f: Field, g: Field)
    requires Ranked(f) && Ranked(g)
    decreases f.depth
  {
    && f.info == g.info && f.anonymous == g.anonymous && f.child.Some? == g.child.Some?
    && (forall x :: LastOf(f, x) == {} <==> LastOf(g, x) == {})
    && (forall x, a, b :: a in LastOf(f, x) && b in LastOf(g, x) ==>
          (LastOfFacts(f, x, a); LastOfFacts(g, x, b); Match(a, b)))
  }

  /** The same for two levels. */
  ghost predicate Matching(m: Fields, n: Fields)
    requires AllRanked(m) && AllRanked(n)
  {
    && (forall x :: Last(m, x) == {} <==> Last(n, x) == {})
    && (forall x, a, b :: a in Last(m, x) && b in Last(n, x) && Ranked(a) && Ranked(b) ==> Match(a, b))
  }

  /** All outcomes of two levels document the same. */
  ghost predicate Agreeing(m: Fields, n: Fields)
    requires AllRanked(m) && AllRanked(n)
  {
    forall r, s :: Outcome(m, r) && Outcome(n, s) ==> AllAlike(r, s)
  }

  lemma MatchBelow(f: Field, g: Field)
    requires Ranked(f) && Ranked(g)
    ensures AllRanked(Kids(f)) && AllRanked(Kids(g))
    ensures Match(f, g) <==> f.info == g.info && f.anonymous == g.anonymous && f.child.Some? == g.child.Some?
                             && Matching(Kids(f), Kids(g))
  {
    hide LastOf, Last;
    forall x ensures LastOf(f, x) == Last(Kids(f), x) && LastOf(g, x) == Last(Kids(g), x) {
      LastOfIs(f, x);
      LastOfIs(g, x);
    }
    forall x, a | a in LastOf(f, x) ensures Ranked(a) {
      LastOfFacts(f, x, a);
    }
    forall x, b | b in LastOf(g, x) ensures Ranked(b) {
      LastOfFacts(g, x, b);
    }
  }

  lemma AlikeBelow(f: Field, g: Field)
    requires Ranked(f)
    ensures Alike(f, g) <==> f.info == g.info && f.anonymous == g.anonymous && f.child.Some? == g.child.Some?
                             && AllAlike(Kids(f), Kids(g))
  {
  }

  /** The main result, for two levels at once: all their outcomes document the same if and
      only if no two of their competitors for a name can be told apart. */
  lemma {:induction false} AgreeIffMatching(m: Fields, n: Fields)
    requires AllRanked(m) && AllRanked(n) && Untangled(m) && Untangled(n)
    ensures Agreeing(m, n) <==> Matching(m, n)
    decreases Size(m)
  {
    hide Size, Last, LastOf, Untangled, Ranked, Outcome, Alike, Match, Matching, From;
    if Matching(m, n) {
      forall r, s | Outcome(m, r) && Outcome(n, s) ensures AllAlike(r, s) {
        MatchingAgree(m, n, r, s);
      }
    } else {
      var r, s := Disagree(m, n);
    }
  }

  lemma {:induction false} MatchingAgree(m: Fields, n: Fields, r: Fields, s: Fields)
    requires AllRanked(m) && AllRanked(n) && Untangled(m) && Untangled(n) && Matching(m, n)
    requires Outcome(m, r) && Outcome(n, s)
    ensures AllAlike(r, s)
    decreases Size(m), 0
  {
    hide Size, Last, LastOf, Untangled, Ranked, Outcome, Alike, Match, From, Settled;
    forall x ensures x in r <==> x in s {
      OutcomeFrom(m, r, x);
      OutcomeFrom(n, s, x);
    }
    forall x | x in r ensures Alike(r[x], s[x]) {
      OutcomeFrom(m, r, x);
      OutcomeFrom(n, s, x);
      var g := FromWhom(m, x, r[x]);
      var h := FromWhom(n, x, s[x]);
      CompetitorSmaller(m, x, g);
      CompetitorSmaller(n, x, h);
      MatchSettles(g, h, r[x], s[x]);
    }
  }

  /** Competitors are smaller than their level, and untangled below. */
  lemma CompetitorSmaller(m: Fields, x: string, g: Field)
    requires AllRanked(m) && Untangled(m) && g in Last(m, x)
    ensures Ranked(g) && AllRanked(Kids(g)) && Size(Kids(g)) < Size(m) && UntangledBelow(g)
  {
    hide Size, Last, FieldSize, Untangled, Ranked, UntangledBelow;
    LastFacts(m, x, g, Bound(m));
    FieldSizeIs(g);
    CompetitorUntangled(m, x, g);
  }

  lemma {:induction false} CompetitorUntangled(m: Fields, x: string, g: Field)
    requires AllRanked(m) && Untangled(m) && g in Last(m, x)
    ensures Ranked(g) && UntangledBelow(g)
    decreases Size(m)
  {
    hide LastOf, Size, Ranked;
    LastFacts(m, x, g, Bound(m));
    if Promoted(m, x) != {} {
      PromotedHas(m, x, g);
      var k :| k in m && m[k].anonymous && g in LastOf(m[k], x);
      ChildSmaller(m, k);
      UntangledKids(m[k]);
      LastOfIs(m[k], x);
      CompetitorUntangled(Kids(m[k]), x, g);
    }
  }

  lemma {:induction false} MatchSettles(g: Field, h: Field, v: Field, w: Field)
    requires Ranked(g) && Ranked(h) && AllRanked(Kids(g)) && UntangledBelow(g) && UntangledBelow(h)
    requires Match(g, h) && Settled(g, v) && Settled(h, w)
    ensures Alike(v, w)
    decreases Size(Kids(g)), 1
  {
    hide Size, Last, LastOf, Untangled, Ranked, Outcome, Alike, Match, Matching, UntangledBelow;
    MatchBelow(g, h);
    SettledRanked(g, v);
    AlikeBelow(v, w);
    if g.child.Some? {
      UntangledKids(g);
      UntangledKids(h);
      MatchingAgree(Kids(g), Kids(h), Kids(v), Kids(w));
    }
  }

  lemma SettledRanked(f: Field, g: Field)
    requires Ranked(f) && Settled(f, g)
    ensures Ranked(g)
  {
    hide Outcome, Size;
    if f.child.Some? {
      KidsRanked(f);
      OutcomeFacts(Kids(f), Kids(g), f.depth);
    }
  }

  /** Two levels that do not match have outcomes that differ. */
  lemma {:induction false} Disagree(m: Fields, n: Fields) returns (r: Fields, s: Fields)
    requires AllRanked(m) && AllRanked(n) && Untangled(m) && Untangled(n) && !Matching(m, n)
    ensures Outcome(m, r) && Outcome(n, s) && !AllAlike(r, s)
    decreases Size(m), 0
  {
    hide Size, Last, LastOf, Untangled, Ranked, Outcome, Alike, Match, From, Settled;
    if x :| !(Last(m, x) == {} <==> Last(n, x) == {}) {
      r, s := AnOutcome(m), AnOutcome(n);
      OutcomeFrom(m, r, x);
      OutcomeFrom(n, s, x);
    } else {
      var x, a, b :| a in Last(m, x) && b in Last(n, x) && Ranked(a) && Ranked(b) && !Match(a, b);
      CompetitorSmaller(m, x, a);
      CompetitorSmaller(n, x, b);
      var v, w := TellApart(a, b);
      r := ReachOutcome(m, x, a, v);
      s := ReachOutcome(n, x, b, w);
    }
  }

  lemma {:induction false} TellApart(a: Field, b: Field) returns (v: Field, w: Field)
    requires Ranked(a) && Ranked(b) && AllRanked(Kids(a)) && UntangledBelow(a) && UntangledBelow(b) && !Match(a, b)
    ensures Settled(a, v) && Settled(b, w) && !Alike(v, w)
    decreases Size(Kids(a)), 1
  {
    hide Size, Last, LastOf, Untangled, Ranked, Outcome, Alike, Match, Matching, UntangledBelow;
    MatchBelow(a, b);
    UntangledKids(a);
    UntangledKids(b);
    if a.child.Some? && b.child.Some? && !Matching(Kids(a), Kids(b)) {
      var c, d := Disagree(Kids(a), Kids(b));
      v, w := a.(child := Some(c)), b.(child := Some(d));
    } else {
      v := a.(child := if a.child.None? then None else Some(AnOutcome(Kids(a))));
      w := b.(child := if b.child.None? then None else Some(AnOutcome(Kids(b))));
      if a.child.None? && b.child.None? {
        BothEmpty(a, b);
      }
    }
    SettledRanked(a, v);
    AlikeBelow(v, w);
  }

  lemma BothEmpty(a: Field, b: Field)
    requires Ranked(a) && Ranked(b) && a.child.None? && b.child.None?
    ensures AllRanked(Kids(a)) && AllRanked(Kids(b)) && Matching(Kids(a), Kids(b))
  {
    hide Match, LastOf;
    forall x ensures Last(Kids(a), x) == {} && Last(Kids(b), x) == {} {
      PlainLast(Kids(a), x);
      PlainLast(Kids(b), x);
    }
  }

  /** The order of the maps never shows in what `merge` makes of an untangled level if and only
      if no two competitors for a name, here or below, can be told apart. */
  lemma UntangledOrder(m: Fields)
    requires AllRanked(m) && Untangled(m)
    ensures (forall r, s :: Outcome(m, r) && Outcome(m, s) ==> AllAlike(r, s)) <==> Matching(m, m)
  {
    hide Size, Last, LastOf, Untangled, Ranked, Outcome, AllAlike, Match, Matching;
    AgreeIffMatching(m, m);
  }

  // ---------- some levels ----------

  function Leaf(info: string): Field { Field(info, false, None, 0) }

  function Anonymous(info: string, child: Fields): Field { Field(info, true, Some(child), 1) }

  lemma LeafFacts(info: string)
    ensures Ranked(Leaf(info)) && Settled(Leaf(info), Leaf(info))
    ensures forall v :: Settled(Leaf(info), v) ==> v == Leaf(info)
  {
  }

  lemma AnonymousFacts(info: string, child: Fields)
    requires forall k :: k in child ==> child[k].child.None? && child[k].depth == 0
    ensures Ranked(Anonymous(info, child)) && AllRanked(child) && Kids(Anonymous(info, child)) == child
  {
  }

  /** Two visits in a row of a range. */
  lemma WalkTwice(m: Fields, a: string, b: string)
    requires a in m && m[a].anonymous
    ensures var n := Promote(m, a);
            Walk(m, [a, b]) == (if b in n && n[b].anonymous then Promote(n, b) else n, true)
  {
    hide Promote;
    assert [a, b][..1] == [a] && [a][..0] == [];
    assert Walk(m, [a]) == (Promote(m, a), true) by {
      assert Walk(m, [a][..0]) == (m, false);
    }
  }

  lemma LeavesMerged(n: Fields)
    requires forall k :: k in n ==> n[k].child.None? && n[k].depth == 0
    ensures AllRanked(n) && Merged(n, n)
  {
    MergedAt(n, n);
  }

  /** Two anonymous fields that promote the same name: one run of `merge` leaves the child of
      the one, another run that of the other. */
  lemma OrderMatters(f: string, g: string)
    ensures var m := map["A" := Anonymous("A", map["x" := Leaf(f)]), "B" := Anonymous("B", map["x" := Leaf(g)])];
            AllRanked(m) && Outcome(m, map["x" := Leaf(g)]) && Outcome(m, map["x" := Leaf(f)])
  {
    hide Walk, Merged, Outcome, Ranked;
    var a, b := Anonymous("A", map["x" := Leaf(f)]), Anonymous("B", map["x" := Leaf(g)]);
    var m := map["A" := a, "B" := b];
    AnonymousFacts("A", map["x" := Leaf(f)]);
    AnonymousFacts("B", map["x" := Leaf(g)]);
    assert Promote(m, "A") == map["x" := Leaf(f), "B" := b];
    assert Promote(m, "B") == map["A" := a, "x" := Leaf(g)];
    assert Promote(Promote(m, "A"), "B") == map["x" := Leaf(g)];
    assert Promote(Promote(m, "B"), "A") == map["x" := Leaf(f)];
    WalkTwice(m, "A", "B");
    WalkTwice(m, "B", "A");
    LeavesMerged(map["x" := Leaf(g)]);
    LeavesMerged(map["x" := Leaf(f)]);
    EagerOutcome(m, ["A", "B"], map["x" := Leaf(g)]);
    EagerOutcome(m, ["B", "A"], map["x" := Leaf(f)]);
  }

  /** A plain field beside an anonymous one that promotes its name: names are not distinct,
      and yet every run gives the promoted child. */
  lemma PlainGivesWay(f: string, g: string, r: Fields)
    ensures var m := map["x" := Leaf(f), "A" := Anonymous("A", map["x" := Leaf(g)])];
            AllRanked(m) && !Distinct(m) && (Outcome(m, r) ==> r == map["x" := Leaf(g)])
  {
    hide Outcome, Settled, Untangled, Distinct, Ranked, Last;
    var m := map["x" := Leaf(f), "A" := Anonymous("A", map["x" := Leaf(g)])];
    GivesWayFacts(f, g);
    LeafFacts(g);
    if Outcome(m, r) {
      forall y ensures y in r <==> y == "x" {
        OutcomeFrom(m, r, y);
        OneCompetitor(m, f, g, y);
      }
      OutcomeFrom(m, r, "x");
      OneCompetitor(m, f, g, "x");
      var h := FromWhom(m, "x", r["x"]);
      assert r["x"] == Leaf(g);
    }
  }

  lemma GivesWayFacts(f: string, g: string)
    ensures var m := map["x" := Leaf(f), "A" := Anonymous("A", map["x" := Leaf(g)])];
            AllRanked(m) && !Distinct(m) && Untangled(m)
  {
    hide Distinct, Untangled;
    AnonymousFacts("A", map["x" := Leaf(g)]);
    LeafFacts(f);
    GivesWayShares(f, g);
    GivesWayUntangled(f, g);
  }

  lemma GivesWayShares(f: string, g: string)
    requires Ranked(Leaf(f)) && Ranked(Anonymous("A", map["x" := Leaf(g)]))
    ensures var m := map["x" := Leaf(f), "A" := Anonymous("A", map["x" := Leaf(g)])]; AllRanked(m) && !Distinct(m)
  {
    var a := Anonymous("A", map["x" := Leaf(g)]);
    var m := map["x" := Leaf(f), "A" := a];
    assert "x" in Names("x", m["x"]) && "x" in Names("A", m["A"]) by {
      KidNames("A", a, "x");
    }
    assert !Apart(m);
  }

  lemma GivesWayUntangled(f: string, g: string)
    requires Ranked(Leaf(f)) && Ranked(Anonymous("A", map["x" := Leaf(g)]))
    ensures var m := map["x" := Leaf(f), "A" := Anonymous("A", map["x" := Leaf(g)])]; AllRanked(m) && Untangled(m)
  {
    hide Hidden, Names, UntangledBelow, Ranked;
    var a := Anonymous("A", map["x" := Leaf(g)]);
    var m := map["x" := Leaf(f), "A" := a];
    LeafFacts(g);
    PlainHidden("x", Leaf(f));
    ChildlessUntangled(Leaf(f));
    OneKidUntangled("A", a, "x", Leaf(g));
    assert Free(m);
  }

  lemma PlainHidden(k: string, f: Field)
    requires Ranked(f) && !f.anonymous
    ensures Hidden(k, f) == {} && Names(k, f) == {k}
  {
  }

  lemma ChildlessUntangled(f: Field)
    requires Ranked(f) && f.child.None?
    ensures UntangledBelow(f)
  {
  }

  lemma OneKidUntangled(k: string, f: Field, j: string, g: Field)
    requires Ranked(f) && f.anonymous && Kids(f) == map[j := g] && !g.anonymous && g.child.None?
    ensures Hidden(k, f) == {k} && UntangledBelow(f)
  {
    assert j in Kids(f) && Ranked(g);
    PlainHidden(j, g);
    ChildlessUntangled(g);
    assert forall i :: i in Kids(f) ==> i == j;
  }

  lemma OneCompetitor(m: Fields, f: string, g: string, y: string)
    requires m == map["x" := Leaf(f), "A" := Anonymous("A", map["x" := Leaf(g)])] && AllRanked(m)
    ensures Last(m, y) == if y == "x" then {Leaf(g)} else {}
  {
    hide LastOf;
    var c, a := map["x" := Leaf(g)], Anonymous("A", map["x" := Leaf(g)]);
    AnonymousFacts("A", c);
    LastOfIs(a, y);
    PlainLast(c, y);
    forall h ensures h in Promoted(m, y) <==> h in LastOf(a, y) {
      PromotedHas(m, y, h);
      assert m["A"] == a && m["A"].anonymous;
    }
    assert Promoted(m, y) == LastOf(a, y);
  }

  /** With a third field that takes the name of the anonymous one, the plain field may stay. */
  lemma PlainMayStay(f: string, g: string, h: string)
    ensures var m := map["x" := Leaf(f), "A" := Anonymous("A", map["x" := Leaf(g)]),
                         "B" := Anonymous("B", map["A" := Leaf(h)])];
            AllRanked(m) && Outcome(m, map["x" := Leaf(f), "A" := Leaf(h)])
            && Outcome(m, map["x" := Leaf(g), "A" := Leaf(h)])
  {
    hide Walk, Merged, Outcome, Ranked;
    var a, b := Anonymous("A", map["x" := Leaf(g)]), Anonymous("B", map["A" := Leaf(h)]);
    var m := map["x" := Leaf(f), "A" := a, "B" := b];
    AnonymousFacts("A", map["x" := Leaf(g)]);
    AnonymousFacts("B", map["A" := Leaf(h)]);
    LeafFacts(f);
    assert Promote(m, "B") == map["x" := Leaf(f), "A" := Leaf(h)];
    assert Promote(m, "A") == map["x" := Leaf(g), "B" := b];
    assert Promote(Promote(m, "A"), "B") == map["x" := Leaf(g), "A" := Leaf(h)];
    WalkTwice(m, "B", "A");
    WalkTwice(m, "A", "B");
    LeavesMerged(map["x" := Leaf(f), "A" := Leaf(h)]);
    LeavesMerged(map["x" := Leaf(g), "A" := Leaf(h)]);
    EagerOutcome(m, ["B", "A"], map["x" := Leaf(f), "A" := Leaf(h)]);
    EagerOutcome(m, ["A", "B"], map["x" := Leaf(g), "A" := Leaf(h)]);
  }

  /** A field that takes the name of an anonymous one: whether that was visited before decides
      whether its children appear at all. */
  lemma TangledOrder(p: string, q: string)
    ensures var m := map["A" := Anonymous("A", map["B" := Leaf(p)]), "B" := Anonymous("B", map["y" := Leaf(q)])];
            AllRanked(m) && !Untangled(m) && Outcome(m, map["B" := Leaf(p)])
            && Outcome(m, map["B" := Leaf(p), "y" := Leaf(q)])
  {
    hide Walk, Merged, Outcome, Untangled, Ranked;
    var a, b := Anonymous("A", map["B" := Leaf(p)]), Anonymous("B", map["y" := Leaf(q)]);
    var m := map["A" := a, "B" := b];
    TangledFacts(p, q);
    assert Promote(m, "A") == map["B" := Leaf(p)];
    assert Promote(m, "B") == map["A" := a, "y" := Leaf(q)];
    assert Promote(Promote(m, "B"), "A") == map["B" := Leaf(p), "y" := Leaf(q)];
    WalkTwice(m, "A", "B");
    WalkTwice(m, "B", "A");
    LeavesMerged(map["B" := Leaf(p)]);
    LeavesMerged(map["B" := Leaf(p), "y" := Leaf(q)]);
    EagerOutcome(m, ["A", "B"], map["B" := Leaf(p)]);
    EagerOutcome(m, ["B", "A"], map["B" := Leaf(p), "y" := Leaf(q)]);
  }

  lemma TangledFacts(p: string, q: string)
    ensures var m := map["A" := Anonymous("A", map["B" := Leaf(p)]), "B" := Anonymous("B", map["y" := Leaf(q)])];
            AllRanked(m) && !Untangled(m)
  {
    var a, b := Anonymous("A", map["B" := Leaf(p)]), Anonymous("B", map["y" := Leaf(q)]);
    var m := map["A" := a, "B" := b];
    AnonymousFacts("A", map["B" := Leaf(p)]);
    AnonymousFacts("B", map["y" := Leaf(q)]);
    assert "B" in Hidden("B", m["B"]) && "B" in Names("A", m["A"]) by {
      HiddenOwn("B", b);
      KidNames("A", a, "B");
    }
    assert !Free(m);
  }

  /** An anonymous field `k` that holds an anonymous `j`, beside a plain `j`. */
  function Holder(child: Fields): Field { Field("k", true, Some(child), 2) }

  lemma WalkOnce(m: Fields, a: string)
    requires a in m && m[a].anonymous
    ensures Walk(m, [a]) == (Promote(m, a), true)
  {
    hide Promote;
    assert [a][..0] == [];
    assert Walk(m, [a][..0]) == (m, false);
  }

  /** One field, whose children are such a pair: if `k` is visited in the first range, its `j`
      takes the place of the plain one and is promoted in its turn; if it is left for the
      second, it was merged below by then and the plain `j` stays. */
  lemma EarlyOrLate(p: string, q: string)
    ensures var k := Holder(map["j" := Anonymous("j", map["y" := Leaf(q)])]);
            var m := map["z" := Field("z", true, Some(map["j" := Leaf(p), "k" := k]), 3)];
            AllRanked(m) && Outcome(m, map["y" := Leaf(q)]) && Outcome(m, map["j" := Leaf(p), "y" := Leaf(q)])
  {
    hide Walk, Merged, Outcome, Size, Pass;
    var i := Anonymous("j", map["y" := Leaf(q)]);
    var k := Holder(map["j" := i]);
    var w := map["j" := Leaf(p), "k" := k];
    var m := map["z" := Field("z", true, Some(w), 3)];
    AnonymousFacts("j", map["y" := Leaf(q)]);
    assert Ranked(i) && Ranked(k) && Ranked(m["z"]);
    assert Promote(m, "z") == w;
    Early(m, w, k, i, p, q);
    Late(m, w, k, i, p, q);
  }

  lemma Early(m: Fields, w: Fields, k: Field, i: Field, p: string, q: string)
    requires i == Anonymous("j", map["y" := Leaf(q)]) && k == Holder(map["j" := i])
    requires w == map["j" := Leaf(p), "k" := k] && AllRanked(m)
    requires "z" in m && m["z"].anonymous && Promote(m, "z") == w
    ensures Outcome(m, map["y" := Leaf(q)])
  {
    hide Walk, Merged, Outcome, Ranked;
    assert Promote(w, "k") == map["j" := i];
    assert Promote(map["j" := i], "j") == map["y" := Leaf(q)];
    WalkTwice(w, "k", "j");
    WalkCons(m, "z", ["k", "j"]);
    LeavesMerged(map["y" := Leaf(q)]);
    EagerOutcome(m, ["z"] + ["k", "j"], map["y" := Leaf(q)]);
  }

  lemma Late(m: Fields, w: Fields, k: Field, i: Field, p: string, q: string)
    requires i == Anonymous("j", map["y" := Leaf(q)]) && k == Holder(map["j" := i])
    requires w == map["j" := Leaf(p), "k" := k] && AllRanked(m) && AllRanked(w) && AllRanked(Kids(k))
    requires m.Keys == {"z"} && m["z"].anonymous && Promote(m, "z") == w
    ensures Outcome(m, map["j" := Leaf(p), "y" := Leaf(q)])
  {
    hide Walk, Merged, Outcome, Size, Ranked, Distinct, Promote, Pass, Holder, Anonymous, Leaf;
    var n := map["j" := Leaf(p), "k" := Holder(map["y" := Leaf(q)])];
    WalkOnce(m, "z");
    WalkShrinks(m, ["z"]);
    MergedInside(w, k, i, p, q);
    MergedBecomes(w, n, Bound(w));
    LastRound(n, p, q);
    OnePass(m, w);
    RoundStep(m, ["z"], n);
  }

  lemma MergedInside(w: Fields, k: Field, i: Field, p: string, q: string)
    requires i == Anonymous("j", map["y" := Leaf(q)]) && k == Holder(map["j" := i])
    requires w == map["j" := Leaf(p), "k" := k] && AllRanked(w) && AllRanked(Kids(k))
    ensures Merged(w, map["j" := Leaf(p), "k" := Holder(map["y" := Leaf(q)])])
  {
    hide Walk, Outcome, Size, Ranked, Merged;
    var y := map["y" := Leaf(q)];
    assert Promote(Kids(k), "j") == y;
    WalkOnce(Kids(k), "j");
    LeavesMerged(y);
    EagerOutcome(Kids(k), ["j"], y);
    LeafFacts(p);
    MergedAt(w, map["j" := Leaf(p), "k" := Holder(y)]);
  }

  lemma LastRound(n: Fields, p: string, q: string)
    requires n == map["j" := Leaf(p), "k" := Holder(map["y" := Leaf(q)])] && AllRanked(n)
    ensures Outcome(n, map["j" := Leaf(p), "y" := Leaf(q)])
  {
    hide Walk, Outcome, Size, Ranked, Merged;
    var r := map["j" := Leaf(p), "y" := Leaf(q)];
    assert Promote(n, "k") == r;
    WalkOnce(n, "k");
    LeavesMerged(r);
    EagerOutcome(n, ["k"], r);
  }

  lemma OnePass(m: Fields, w: Fields)
    requires m.Keys == {"z"} && Walk(m, ["z"]).0 == w && "z" !in w
    ensures Pass(m, ["z"])
  {
    hide Walk;
  }
}
