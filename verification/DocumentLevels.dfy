/**
 What `merge` leaves at a level, before and apart from what it does below.  `merge` works on
 a level and below it in turns, and an anonymous field may be merged below before it is
 promoted.  Still every outcome is a level that dealing with the anonymous fields alone leads
 to, with everything below merged afterwards.  So the order of the maps never shows just when
 all these levels fit, on every level, tangled or not.
 */
module DocumentLevels {
  import opened Wrappers
  import opened DocumentMerge
  import opened DocumentRuns
  import opened DocumentOrder

  // ---------- the levels that may be left ----------

  /** `p` may be left of level `m`: ranges over the level, and between them the same below
      anonymous fields, until a range met none.  Below plain fields nothing is done. */
  ghost predicate Top(m: Fields, p: Fields)
    requires AllRanked(m)
    decreases Size(m), 1
  {
    exists ks: seq<string>, n: Fields :: Pass(m, ks) && (WalkShrinks(m, ks); Folded(Walk(m, ks).0, n)) && AllRanked(n)
      && if Walk(m, ks).1 then Size(n) < Size(m) && Top(n, p) else p == n
  }

  /** `n` is `m` with every anonymous field replaced by what may be left of it. */
  ghost predicate Folded(m: Fields, n: Fields)
    requires AllRanked(m)
    decreases Size(m), 0
  {
    && n.Keys == m.Keys
    && forall k :: k in m ==> (ChildSmaller(m, k);
         if m[k].anonymous && m[k].child.Some? then
           n[k] == m[k].(child := n[k].child) && n[k].child.Some? && Top(Kids(m[k]), Kids(n[k]))
         else n[k] == m[k])
  }

  /** One field of that. */
  ghost predicate FoldedField(f: Field, g: Field)
    requires Ranked(f)
  {
    if f.anonymous && f.child.Some? then
      g == f.(child := g.child) && g.child.Some? && Top(Kids(f), Kids(g))
    else g == f
  }

  lemma FoldedAt(m: Fields, n: Fields)
    requires AllRanked(m)
    ensures Folded(m, n) <==> n.Keys == m.Keys && forall k :: k in m ==> FoldedField(m[k], n[k])
  {
    hide Top;
  }

  lemma TopStep(m: Fields, ks: seq<string>, n: Fields, p: Fields)
    requires AllRanked(m) && Pass(m, ks) && AllRanked(Walk(m, ks).0) && Folded(Walk(m, ks).0, n) && AllRanked(n)
    requires if Walk(m, ks).1 then Size(n) < Size(m) && Top(n, p) else p == n
    ensures Top(m, p)
  {
    hide Folded, Size, Walk, Pass;
  }

  lemma TopUse(m: Fields, p: Fields) returns (ks: seq<string>, n: Fields)
    requires AllRanked(m) && Top(m, p)
    ensures Pass(m, ks) && AllRanked(Walk(m, ks).0) && Folded(Walk(m, ks).0, n) && AllRanked(n)
    ensures if Walk(m, ks).1 then Size(n) < Size(m) && Top(n, p) else p == n
  {
    hide Folded, Size, Walk, Pass;
    ks, n :| Pass(m, ks) && (WalkShrinks(m, ks); Folded(Walk(m, ks).0, n)) && AllRanked(n)
      && if Walk(m, ks).1 then Size(n) < Size(m) && Top(n, p) else p == n;
    WalkShrinks(m, ks);
  }

  lemma OutcomeUse(m: Fields, r: Fields) returns (ks: seq<string>, n: Fields)
    requires AllRanked(m) && Outcome(m, r)
    ensures Pass(m, ks) && AllRanked(Walk(m, ks).0) && Merged(Walk(m, ks).0, n) && AllRanked(n)
    ensures if Walk(m, ks).1 then Size(n) < Size(m) && Outcome(n, r) else r == n
  {
    hide Merged, Size, Walk, Pass;
    ks, n :| Pass(m, ks) && (WalkShrinks(m, ks); Merged(Walk(m, ks).0, n)) && AllRanked(n)
      && if Walk(m, ks).1 then Size(n) < Size(m) && Outcome(n, r) else r == n;
    WalkShrinks(m, ks);
  }

  /** A range over a whole level that promotes nothing met only plain fields. */
  lemma IdlePass(m: Fields, ks: seq<string>)
    requires AllRanked(m) && Pass(m, ks) && !Walk(m, ks).1
    ensures Walk(m, ks).0 == m && Plain(m)
  {
    hide Walk, Ranked, Becomes, Distinct, Size;
    WalkBecomes(m, ks, Bound(m));
  }

  lemma PlainFolded(m: Fields, n: Fields)
    requires AllRanked(m) && Plain(m)
    ensures Folded(m, n) <==> n == m
  {
    hide Top;
    FoldedAt(m, n);
  }

  // ---------- sizes and depths ----------

  lemma {:induction false} SizePointwise(m: Fields, n: Fields)
    requires AllRanked(m) && AllRanked(n) && n.Keys == m.Keys
    requires forall k :: k in m ==> FieldSize(n[k]) <= FieldSize(m[k])
    ensures Size(n) <= Size(m)
    decreases |m|
  {
    hide FieldSize, Size, Ranked;
    if k :| k in m {
      SizeSplit(m, k);
      SizeSplit(n, k);
      SizePointwise(m - {k}, n - {k});
    } else {
      assert n == m;
    }
  }

  lemma {:induction false} TopFacts(m: Fields, p: Fields, bound: nat)
    requires AllRanked(m) && Under(m, bound) && Top(m, p)
    ensures AllRanked(p) && Under(p, bound) && Size(p) <= Size(m) && Plain(p)
    decreases Size(m), 1
  {
    hide Size, Top, Folded, Walk, Ranked, Distinct;
    var ks, n := TopUse(m, p);
    WalkShrinks(m, ks);
    WalkBecomes(m, ks, bound);
    FoldedFacts(Walk(m, ks).0, n, bound);
    if Walk(m, ks).1 {
      TopFacts(n, p, bound);
    } else {
      IdlePass(m, ks);
      PlainFolded(m, n);
    }
  }

  lemma {:induction false} FoldedFacts(m: Fields, n: Fields, bound: nat)
    requires AllRanked(m) && Under(m, bound) && Folded(m, n)
    ensures AllRanked(n) && Under(n, bound) && Size(n) <= Size(m)
    decreases Size(m), 0
  {
    hide Size, Top, Ranked, FieldSize;
    FoldedAt(m, n);
    forall k | k in m ensures Ranked(n[k]) && n[k].depth == m[k].depth && FieldSize(n[k]) <= FieldSize(m[k]) {
      FoldedFieldFacts(m, k, n[k]);
    }
    SizePointwise(m, n);
  }

  lemma {:induction false} FoldedFieldFacts(m: Fields, k: string, g: Field)
    requires AllRanked(m) && k in m && FoldedField(m[k], g)
    ensures Ranked(g) && g.depth == m[k].depth && g.anonymous == m[k].anonymous && FieldSize(g) <= FieldSize(m[k])
    decreases Size(m), 0, 0
  {
    hide Size, Top, FieldSize;
    ChildSmaller(m, k);
    if m[k].anonymous && m[k].child.Some? {
      TopFacts(Kids(m[k]), Kids(g), m[k].depth);
      RankedFrom(g);
      FieldSizeIs(g);
      FieldSizeIs(m[k]);
    }
  }

  lemma RankedFrom(f: Field)
    requires AllRanked(Kids(f)) && Under(Kids(f), f.depth)
    ensures Ranked(f)
  {
  }

  // ---------- the same level with some fields merged below ----------

  /** `g` is `f`, under name `j`, with plain fields that may come to the level merged below or
      not.  A field that is `p`'s under its name, if it is merged, became `r`'s. */
  ghost predicate SoftField(j: string, f: Field, g: Field, p: Fields, r: Fields)
    requires Ranked(f)
    decreases f.depth
  {
    if f.anonymous then
      && g == f.(child := g.child) && g.child.Some? == f.child.Some? && Kids(g).Keys == Kids(f).Keys
      && forall i :: i in Kids(f) ==> SoftField(i, Kids(f)[i], Kids(g)[i], p, r)
    else g == f || (Settled(f, g) && (j in p && p[j] == f ==> j in r && r[j] == g))
  }

  ghost predicate Soft(a: Fields, b: Fields, p: Fields, r: Fields)
    requires AllRanked(a)
  {
    b.Keys == a.Keys && forall j :: j in a ==> SoftField(j, a[j], b[j], p, r)
  }

  lemma SoftKind(j: string, f: Field, g: Field, p: Fields, r: Fields)
    requires Ranked(f) && SoftField(j, f, g, p, r)
    ensures g.anonymous == f.anonymous && g.depth == f.depth && g.child.Some? == f.child.Some?
  {
    hide Outcome;
  }

  lemma SoftKids(j: string, f: Field, g: Field, p: Fields, r: Fields)
    requires Ranked(f) && SoftField(j, f, g, p, r) && f.anonymous
    ensures AllRanked(Kids(f)) && Soft(Kids(f), Kids(g), p, r)
  {
  }

  lemma SoftParent(j: string, f: Field, g: Field, p: Fields, r: Fields)
    requires Ranked(f) && f.anonymous && AllRanked(Kids(f)) && Soft(Kids(f), Kids(g), p, r)
    requires g == f.(child := g.child) && g.child.Some? == f.child.Some?
    ensures SoftField(j, f, g, p, r)
  {
  }

  lemma {:induction false} SoftRanked(j: string, f: Field, g: Field, p: Fields, r: Fields)
    requires Ranked(f) && SoftField(j, f, g, p, r)
    ensures Ranked(g)
    decreases f.depth
  {
    hide Outcome;
    if f.anonymous {
      forall i | i in Kids(f) ensures Ranked(Kids(g)[i]) && Kids(g)[i].depth < g.depth {
        SoftRanked(i, Kids(f)[i], Kids(g)[i], p, r);
        SoftKind(i, Kids(f)[i], Kids(g)[i], p, r);
      }
    } else if g != f {
      SettledRanked(f, g);
    }
  }

  lemma SoftAllRanked(a: Fields, b: Fields, p: Fields, r: Fields)
    requires AllRanked(a) && Soft(a, b, p, r)
    ensures AllRanked(b)
  {
    hide SoftField, Ranked;
    forall j | j in b ensures Ranked(b[j]) {
      SoftRanked(j, a[j], b[j], p, r);
    }
  }

  lemma SoftPromote(a: Fields, b: Fields, k: string, p: Fields, r: Fields)
    requires AllRanked(a) && Soft(a, b, p, r) && k in a && a[k].anonymous
    ensures b[k].anonymous && AllRanked(Promote(a, k)) && Soft(Promote(a, k), Promote(b, k), p, r)
  {
    hide SoftField, Ranked;
    SoftKind(k, a[k], b[k], p, r);
    SoftKids(k, a[k], b[k], p, r);
  }

  lemma {:induction false} SoftWalk(a: Fields, b: Fields, ks: seq<string>, p: Fields, r: Fields)
    requires AllRanked(a) && Soft(a, b, p, r)
    ensures AllRanked(Walk(a, ks).0) && Soft(Walk(a, ks).0, Walk(b, ks).0, p, r) && Walk(b, ks).1 == Walk(a, ks).1
    decreases |ks|
  {
    hide SoftField, Ranked, Promote;
    if ks != [] {
      SoftWalk(a, b, ks[..|ks| - 1], p, r);
      var u, v, k := Walk(a, ks[..|ks| - 1]).0, Walk(b, ks[..|ks| - 1]).0, ks[|ks| - 1];
      if k in u {
        SoftKind(k, u[k], v[k], p, r);
        if u[k].anonymous {
          SoftPromote(u, v, k, p, r);
        }
      }
    }
  }

  lemma SoftPass(a: Fields, b: Fields, ks: seq<string>, p: Fields, r: Fields)
    requires AllRanked(a) && Soft(a, b, p, r)
    ensures Pass(b, ks) <==> Pass(a, ks)
  {
    hide SoftField, Ranked, Walk;
    SoftWalk(a, b, ks, p, r);
  }

  // ---------- whatever the one can be left as, so can the other ----------

  ghost function BackTop(a: Fields, b: Fields, pb: Fields, p: Fields, r: Fields): (pa: Fields)
    requires AllRanked(a) && AllRanked(b) && Soft(a, b, p, r) && Top(b, pb)
    ensures Top(a, pa) && AllRanked(pa) && Soft(pa, pb, p, r)
    decreases Size(a), 2
  {
    SoftBack(a, b, pb, p, r);
    var pa :| Top(a, pa) && AllRanked(pa) && Soft(pa, pb, p, r);
    pa
  }

  lemma {:induction false} SoftBack(a: Fields, b: Fields, pb: Fields, p: Fields, r: Fields)
    requires AllRanked(a) && AllRanked(b) && Soft(a, b, p, r) && Top(b, pb)
    ensures exists pa :: Top(a, pa) && AllRanked(pa) && Soft(pa, pb, p, r)
    decreases Size(a), 1
  {
    hide Size, Top, Folded, Walk, Ranked, Soft, Pass, Distinct;
    var ks, nb := TopUse(b, pb);
    SoftPass(a, b, ks, p, r);
    SoftWalk(a, b, ks, p, r);
    WalkShrinks(a, ks);
    var wa, wb := Walk(a, ks).0, Walk(b, ks).0;
    var na := FoldBack(wa, wb, nb, p, r);
    FoldedFacts(wa, na, Bound(wa));
    if Walk(a, ks).1 {
      SoftBack(na, nb, pb, p, r);
      var pa :| Top(na, pa) && AllRanked(pa) && Soft(pa, pb, p, r);
      TopStep(a, ks, na, pa);
    } else {
      TopStep(a, ks, na, na);
    }
  }

  lemma {:induction false} FoldBack(wa: Fields, wb: Fields, nb: Fields, p: Fields, r: Fields) returns (na: Fields)
    requires AllRanked(wa) && AllRanked(wb) && Soft(wa, wb, p, r) && Folded(wb, nb)
    ensures AllRanked(na) && Folded(wa, na) && Soft(na, nb, p, r)
    decreases Size(wa), 0, 2
  {
    hide Size, Ranked, SoftField, FoldedField;
    FoldedAt(wb, nb);
    na := map k | k in wa :: BackField(wa, k, wb[k], nb[k], p, r);
    FoldedAt(wa, na);
  }

  ghost function BackField(wa: Fields, k: string, f: Field, g: Field, p: Fields, r: Fields): (h: Field)
    requires AllRanked(wa) && k in wa && Ranked(f) && SoftField(k, wa[k], f, p, r) && FoldedField(f, g)
    ensures Ranked(h) && FoldedField(wa[k], h) && SoftField(k, h, g, p, r)
    decreases Size(wa), 0, 1
  {
    BackOne(wa, k, f, g, p, r);
    var h :| Ranked(h) && FoldedField(wa[k], h) && SoftField(k, h, g, p, r);
    h
  }

  lemma {:induction false} BackOne(wa: Fields, k: string, f: Field, g: Field, p: Fields, r: Fields)
    requires AllRanked(wa) && k in wa && Ranked(f) && SoftField(k, wa[k], f, p, r) && FoldedField(f, g)
    ensures exists h :: Ranked(h) && FoldedField(wa[k], h) && SoftField(k, h, g, p, r)
    decreases Size(wa), 0, 0
  {
    hide Size, Top, Ranked, SoftField;
    SoftKind(k, wa[k], f, p, r);
    ChildSmaller(wa, k);
    KidsRanked(f);
    if wa[k].anonymous && wa[k].child.Some? {
      SoftKids(k, wa[k], f, p, r);
      SoftSame(k, wa[k], f, p, r);
      var h := wa[k].(child := Some(BackTop(Kids(wa[k]), Kids(f), Kids(g), p, r)));
      FoldedFieldFacts(wa, k, h);
      SoftParent(k, h, g, p, r);
    } else {
      assert g == f;
    }
  }

  lemma SoftSame(j: string, f: Field, g: Field, p: Fields, r: Fields)
    requires Ranked(f) && f.anonymous && SoftField(j, f, g, p, r)
    ensures g == f.(child := g.child)
  {
  }

  ghost function ForthTop(a: Fields, b: Fields, pa: Fields, p: Fields, r: Fields): (pb: Fields)
    requires AllRanked(a) && AllRanked(b) && Soft(a, b, p, r) && Top(a, pa)
    ensures Top(b, pb) && AllRanked(pa) && Soft(pa, pb, p, r)
    decreases Size(a), 2
  {
    SoftForth(a, b, pa, p, r);
    var pb :| Top(b, pb) && Soft(pa, pb, p, r);
    pb
  }

  lemma {:induction false} SoftForth(a: Fields, b: Fields, pa: Fields, p: Fields, r: Fields)
    requires AllRanked(a) && AllRanked(b) && Soft(a, b, p, r) && Top(a, pa)
    ensures AllRanked(pa) && exists pb :: Top(b, pb) && Soft(pa, pb, p, r)
    decreases Size(a), 1
  {
    hide Size, Top, Folded, Walk, Ranked, Soft, Pass, Distinct;
    var ks, na := TopUse(a, pa);
    SoftPass(a, b, ks, p, r);
    SoftWalk(a, b, ks, p, r);
    WalkShrinks(a, ks);
    WalkShrinks(b, ks);
    var wa, wb := Walk(a, ks).0, Walk(b, ks).0;
    var nb := FoldForth(wa, wb, na, p, r);
    FoldedFacts(wb, nb, Bound(wb));
    if Walk(a, ks).1 {
      SoftForth(na, nb, pa, p, r);
      var pb :| Top(nb, pb) && Soft(pa, pb, p, r);
      TopStep(b, ks, nb, pb);
    } else {
      TopStep(b, ks, nb, nb);
    }
  }

  lemma {:induction false} FoldForth(wa: Fields, wb: Fields, na: Fields, p: Fields, r: Fields) returns (nb: Fields)
    requires AllRanked(wa) && AllRanked(wb) && Soft(wa, wb, p, r) && Folded(wa, na)
    ensures AllRanked(na) && AllRanked(nb) && Folded(wb, nb) && Soft(na, nb, p, r)
    decreases Size(wa), 0, 2
  {
    hide Size, Ranked, SoftField, FoldedField, Top;
    FoldedFacts(wa, na, Bound(wa));
    FoldedAt(wa, na);
    nb := map k | k in wa :: ForthField(wa, k, wb[k], na[k], p, r);
    FoldedAt(wb, nb);
    FoldedFacts(wb, nb, Bound(wb));
  }

  ghost function ForthField(wa: Fields, k: string, f: Field, g: Field, p: Fields, r: Fields): (h: Field)
    requires AllRanked(wa) && k in wa && Ranked(f) && SoftField(k, wa[k], f, p, r)
    requires Ranked(g) && FoldedField(wa[k], g)
    ensures FoldedField(f, h) && SoftField(k, g, h, p, r)
    decreases Size(wa), 0, 1
  {
    ForthOne(wa, k, f, g, p, r);
    var h :| FoldedField(f, h) && SoftField(k, g, h, p, r);
    h
  }

  lemma {:induction false} ForthOne(wa: Fields, k: string, f: Field, g: Field, p: Fields, r: Fields)
    requires AllRanked(wa) && k in wa && Ranked(f) && SoftField(k, wa[k], f, p, r)
    requires Ranked(g) && FoldedField(wa[k], g)
    ensures exists h :: FoldedField(f, h) && SoftField(k, g, h, p, r)
    decreases Size(wa), 0, 0
  {
    hide Size, Top, Ranked, SoftField;
    SoftKind(k, wa[k], f, p, r);
    ChildSmaller(wa, k);
    KidsRanked(f);
    KidsRanked(g);
    if wa[k].anonymous && wa[k].child.Some? {
      SoftKids(k, wa[k], f, p, r);
      SoftSame(k, wa[k], f, p, r);
      var h := f.(child := Some(ForthTop(Kids(wa[k]), Kids(f), Kids(g), p, r)));
      SoftParent(k, g, h, p, r);
    } else {
      assert FoldedField(f, f);
    }
  }

  // ---------- every outcome is such a level, merged below ----------

  ghost function TopOf(m: Fields, r: Fields): (p: Fields)
    requires AllRanked(m) && Outcome(m, r)
    ensures Top(m, p) && AllRanked(p) && Plain(p) && Merged(p, r)
    decreases Size(m), 2
  {
    OutcomeHasTop(m, r);
    var p :| Top(m, p) && AllRanked(p) && Plain(p) && Merged(p, r);
    p
  }

  /** Whatever turns `merge` takes, its outcome is a level that may be left, with everything
      below merged. */
  lemma {:induction false} OutcomeHasTop(m: Fields, r: Fields)
    requires AllRanked(m) && Outcome(m, r)
    ensures exists p :: Top(m, p) && AllRanked(p) && Plain(p) && Merged(p, r)
    decreases Size(m), 1
  {
    hide Size, Top, Folded, Walk, Ranked, Soft, Pass, Distinct, Outcome, Merged;
    var ks, n := OutcomeUse(m, r);
    WalkShrinks(m, ks);
    var w := Walk(m, ks).0;
    if Walk(m, ks).1 {
      OutcomeHasTop(n, r);
      var q :| Top(n, q) && AllRanked(q) && Plain(q) && Merged(q, r);
      var v := Unmerged(w, n);
      FoldedFacts(w, v, Bound(w));
      SoftBack(v, n, q, map[], map[]);
      var p :| Top(v, p) && AllRanked(p) && Soft(p, q, map[], map[]);
      TopStep(m, ks, v, p);
      TopFacts(m, p, Bound(m));
      BackMerged(p, q, r);
    } else {
      IdlePass(m, ks);
      PlainFolded(m, m);
      TopStep(m, ks, m, m);
    }
  }

  /** A level merged below, with the plain fields as they were. */
  lemma {:induction false} Unmerged(w: Fields, n: Fields) returns (v: Fields)
    requires AllRanked(w) && Merged(w, n)
    ensures AllRanked(v) && Folded(w, v) && Soft(v, n, map[], map[])
    decreases Size(w), 0, 1
  {
    hide Size, Ranked, SoftField, FoldedField, Settled;
    MergedAt(w, n);
    forall k | k in w ensures AllRanked(Kids(w[k])) && Size(Kids(w[k])) < Size(w) {
      ChildSmaller(w, k);
    }
    v := map k | k in w :: UnmergedField(w, k, n[k]);
    FoldedAt(w, v);
  }

  ghost function UnmergedField(w: Fields, k: string, g: Field): (h: Field)
    requires AllRanked(w) && k in w && Settled(w[k], g)
    ensures Ranked(h) && FoldedField(w[k], h) && SoftField(k, h, g, map[], map[])
    decreases Size(w), 0, 0
  {
    ChildSmaller(w, k);
    if w[k].anonymous && w[k].child.Some? then
      var h := w[k].(child := Some(TopOf(Kids(w[k]), Kids(g))));
      UnmergedFacts(w, k, g, h);
      h
    else
      UnmergedPlain(k, w[k], g);
      w[k]
  }

  lemma UnmergedFacts(w: Fields, k: string, g: Field, h: Field)
    requires AllRanked(w) && k in w && Settled(w[k], g) && w[k].anonymous && w[k].child.Some?
    requires h == w[k].(child := h.child) && h.child.Some? && AllRanked(Kids(h)) && Plain(Kids(h))
    requires AllRanked(Kids(w[k])) && Top(Kids(w[k]), Kids(h)) && Merged(Kids(h), Kids(g))
    ensures Ranked(h) && FoldedField(w[k], h) && SoftField(k, h, g, map[], map[])
  {
    hide Size, Top, Ranked, SoftField, Outcome, Merged;
    FoldedFieldFacts(w, k, h);
    MergedSoft(Kids(h), Kids(g));
    SoftParent(k, h, g, map[], map[]);
  }

  lemma MergedSoft(a: Fields, b: Fields)
    requires AllRanked(a) && Plain(a) && Merged(a, b)
    ensures Soft(a, b, map[], map[])
  {
    hide Ranked, Settled;
    MergedAt(a, b);
  }

  lemma UnmergedPlain(k: string, f: Field, g: Field)
    requires Ranked(f) && Settled(f, g) && !(f.anonymous && f.child.Some?)
    ensures FoldedField(f, f) && SoftField(k, f, g, map[], map[])
  {
    hide Outcome, Ranked;
    assert f.anonymous ==> g == f;
  }

  /** Merging what is merged already changes nothing. */
  lemma BackMerged(p: Fields, q: Fields, r: Fields)
    requires AllRanked(p) && AllRanked(q) && Plain(p) && Soft(p, q, map[], map[]) && Merged(q, r)
    ensures Merged(p, r)
  {
    hide Ranked, Settled, Outcome;
    MergedAt(q, r);
    MergedAt(p, r);
    forall k | k in p ensures Settled(p[k], r[k]) {
      if q[k] != p[k] {
        SettledTwice(p[k], q[k], r[k]);
      }
    }
  }

  // ---------- and every such level gives outcomes ----------

  ghost function SomeSettled(f: Field): (g: Field)
    requires Ranked(f)
    ensures Settled(f, g)
  {
    KidsRanked(f);
    f.(child := if f.child.None? then None else Some(AnOutcome(Kids(f))))
  }

  /** The field `f` under name `j` merged below: as in `r`, if it is the one that stays. */
  ghost function Chosen(j: string, f: Field, p: Fields, r: Fields): Field
    requires Ranked(f)
  {
    if j in p && j in r && p[j] == f && Settled(f, r[j]) then r[j] else SomeSettled(f)
  }

  lemma ChosenFacts(j: string, f: Field, p: Fields, r: Fields)
    requires Ranked(f) && !f.anonymous && AllRanked(p) && Merged(p, r)
    ensures Settled(f, Chosen(j, f, p, r)) && SoftField(j, f, Chosen(j, f, p, r), p, r)
  {
    hide Outcome, Ranked, Settled;
    MergedAt(p, r);
  }

  ghost function ChosenLevel(q: Fields, p: Fields, r: Fields): Fields
    requires AllRanked(q)
  {
    map j | j in q :: Chosen(j, q[j], p, r)
  }

  lemma ChosenLevelFacts(q: Fields, p: Fields, r: Fields)
    requires AllRanked(q) && Plain(q) && AllRanked(p) && Merged(p, r)
    ensures Merged(q, ChosenLevel(q, p, r)) && Soft(q, ChosenLevel(q, p, r), p, r)
  {
    hide Settled, SoftField, Chosen, Ranked;
    var c := ChosenLevel(q, p, r);
    forall j | j in q ensures Settled(q[j], c[j]) && SoftField(j, q[j], c[j], p, r) {
      ChosenFacts(j, q[j], p, r);
    }
    MergedAt(q, c);
  }

  /** A level that may be left, with everything below merged in any way, is an outcome of
      `merge`. */
  lemma {:induction false} TopOutcome(m: Fields, p: Fields, r: Fields)
    requires AllRanked(m) && Top(m, p) && AllRanked(p) && Merged(p, r)
    ensures Outcome(m, r)
    decreases Size(m), 1
  {
    hide Size, Top, Folded, Walk, Ranked, Soft, Pass, Distinct, Outcome, Merged;
    var ks, n := TopUse(m, p);
    WalkShrinks(m, ks);
    var w := Walk(m, ks).0;
    if Walk(m, ks).1 {
      var v := Merging(w, n, p, r);
      MergedBecomes(w, v, Bound(w));
      SoftForth(n, v, p, p, r);
      var q :| Top(v, q) && Soft(p, q, p, r);
      SoftAllRanked(p, q, p, r);
      TopFacts(m, p, Bound(m));
      ForthMerged(p, q, r);
      TopOutcome(v, q, r);
      RoundStep(m, ks, v);
    } else {
      IdlePass(m, ks);
      PlainFolded(m, n);
      MergedBecomes(m, r, Bound(m));
      RoundStep(m, ks, r);
    }
  }

  /** A range has left `w`, of which `n` may be left: everything below can be merged so that
      what stays in the end becomes `r`'s. */
  lemma {:induction false} Merging(w: Fields, n: Fields, p: Fields, r: Fields) returns (v: Fields)
    requires AllRanked(w) && Folded(w, n) && AllRanked(n) && AllRanked(p) && Merged(p, r)
    ensures Merged(w, v) && Soft(n, v, p, r)
    decreases Size(w), 0, 1
  {
    hide Size, Ranked, SoftField, FoldedField, Settled, Merged;
    FoldedAt(w, n);
    v := map k | k in w :: MergingField(w, k, n[k], p, r);
    MergedAt(w, v);
  }

  ghost function MergingField(w: Fields, k: string, g: Field, p: Fields, r: Fields): (h: Field)
    requires AllRanked(w) && k in w && Ranked(g) && FoldedField(w[k], g) && AllRanked(p) && Merged(p, r)
    ensures Settled(w[k], h) && SoftField(k, g, h, p, r)
    decreases Size(w), 0, 0
  {
    ChildSmaller(w, k);
    KidsRanked(g);
    if !w[k].anonymous then
      ChosenFacts(k, w[k], p, r);
      Chosen(k, w[k], p, r)
    else if w[k].child.None? then
      ChildlessSoft(k, w[k], p, r);
      w[k]
    else
      var c := ChosenLevel(Kids(g), p, r);
      TopFacts(Kids(w[k]), Kids(g), w[k].depth);
      ChosenLevelFacts(Kids(g), p, r);
      TopOutcome(Kids(w[k]), Kids(g), c);
      SoftParent(k, g, g.(child := Some(c)), p, r);
      g.(child := Some(c))
  }

  lemma ChildlessSoft(k: string, f: Field, p: Fields, r: Fields)
    requires Ranked(f) && f.anonymous && f.child.None?
    ensures Settled(f, f) && SoftField(k, f, f, p, r)
  {
  }

  lemma ForthMerged(p: Fields, q: Fields, r: Fields)
    requires AllRanked(p) && AllRanked(q) && Plain(p) && Soft(p, q, p, r) && Merged(p, r)
    ensures Merged(q, r)
  {
    hide Ranked, Settled, Outcome;
    MergedAt(p, r);
    MergedAt(q, r);
    forall k | k in q ensures Settled(q[k], r[k]) {
      if q[k] != p[k] {
        SettledStays(p[k], r[k]);
      }
    }
  }

  lemma SettledStays(f: Field, g: Field)
    requires Ranked(f) && Settled(f, g)
    ensures Ranked(g) && Settled(g, g)
  {
    hide Ranked, Outcome;
    SettledRanked(f, g);
    if f.child.Some? {
      KidsRanked(f);
      KidsRanked(g);
      OutcomeFacts(Kids(f), Kids(g), Bound(Kids(f)));
      CleanOutcome(Kids(g), Kids(g));
    }
  }

  /** The outcomes of `merge`: first all anonymous fields, then everything below. */
  lemma OutcomeIff(m: Fields, r: Fields)
    requires AllRanked(m)
    ensures Outcome(m, r) <==> exists p :: Top(m, p) && AllRanked(p) && Plain(p) && Merged(p, r)
  {
    hide Outcome, Top, Merged, Ranked;
    if Outcome(m, r) {
      OutcomeHasTop(m, r);
    }
    if p :| Top(m, p) && AllRanked(p) && Plain(p) && Merged(p, r) {
      TopOutcome(m, p, r);
    }
  }

  // ---------- when the order never shows ----------

  /** Two fields that `merge` makes the same of: they document the same, and whatever may be
      left of the levels below them, the names are the same and the fields under them fit. */
  ghost predicate Fit(f: Field, g: Field)
    requires Ranked(f) && Ranked(g)
    decreases f.depth
  {
    && f.info == g.info && f.anonymous == g.anonymous && f.child.Some? == g.child.Some?
    && AllRanked(Kids(f)) && AllRanked(Kids(g))
    && forall p, q :: Top(Kids(f), p) && Top(Kids(g), q) ==>
         && p.Keys == q.Keys
         && forall x :: x in p && p[x].depth < f.depth && Ranked(p[x]) && Ranked(q[x]) ==> Fit(p[x], q[x])
  }

  /** The same for two levels. */
  ghost predicate Fitting(m: Fields, n: Fields)
    requires AllRanked(m) && AllRanked(n)
  {
    forall p, q :: Top(m, p) && Top(n, q) ==>
      p.Keys == q.Keys && forall x :: x in p && Ranked(p[x]) && Ranked(q[x]) ==> Fit(p[x], q[x])
  }

  lemma FitBelow(f: Field, g: Field)
    requires Ranked(f) && Ranked(g)
    ensures AllRanked(Kids(f)) && AllRanked(Kids(g))
    ensures Fit(f, g) <==> f.info == g.info && f.anonymous == g.anonymous && f.child.Some? == g.child.Some?
                           && Fitting(Kids(f), Kids(g))
  {
    hide Top;
    KidsRanked(f);
    KidsRanked(g);
    forall p: Fields, x | Top(Kids(f), p) && x in p ensures p[x].depth < f.depth {
      TopFacts(Kids(f), p, f.depth);
    }
  }

  lemma TopRanked(m: Fields, p: Fields, x: string)
    requires AllRanked(m) && Top(m, p) && x in p
    ensures AllRanked(p) && Plain(p) && Ranked(p[x]) && AllRanked(Kids(p[x])) && Size(Kids(p[x])) < Size(m)
  {
    hide Size, Top;
    TopFacts(m, p, Bound(m));
    ChildSmaller(p, x);
  }

  /** The main result, on every level: all outcomes of two levels document the same if and
      only if whatever may be left of them fits. */
  lemma {:induction false} AgreeIffFitting(m: Fields, n: Fields)
    requires AllRanked(m) && AllRanked(n)
    ensures Agreeing(m, n) <==> Fitting(m, n)
    decreases Size(m)
  {
    hide Size, Top, Ranked, Outcome, Alike, Fit, Fitting;
    if Fitting(m, n) {
      forall r, s | Outcome(m, r) && Outcome(n, s) ensures AllAlike(r, s) {
        FittingAgree(m, n, r, s);
      }
    } else {
      var r, s := Unfit(m, n);
    }
  }

  lemma {:induction false} FittingAgree(m: Fields, n: Fields, r: Fields, s: Fields)
    requires AllRanked(m) && AllRanked(n) && Fitting(m, n) && Outcome(m, r) && Outcome(n, s)
    ensures AllAlike(r, s)
    decreases Size(m), 1
  {
    hide Size, Top, Ranked, Outcome, Alike, Fit, Settled;
    var p, q := TopOf(m, r), TopOf(n, s);
    MergedAt(p, r);
    MergedAt(q, s);
    assert p.Keys == q.Keys;
    forall x | x in r ensures Alike(r[x], s[x]) {
      TopRanked(m, p, x);
      TopRanked(n, q, x);
      FitSettles(p[x], q[x], r[x], s[x]);
    }
  }

  lemma {:induction false} FitSettles(g: Field, h: Field, v: Field, w: Field)
    requires Ranked(g) && Ranked(h) && AllRanked(Kids(g)) && Fit(g, h) && Settled(g, v) && Settled(h, w)
    ensures Alike(v, w)
    decreases Size(Kids(g)), 2
  {
    hide Size, Top, Ranked, Outcome, Alike, Fit, Fitting;
    FitBelow(g, h);
    SettledRanked(g, v);
    AlikeBelow(v, w);
    if g.child.Some? {
      FittingAgree(Kids(g), Kids(h), Kids(v), Kids(w));
    }
  }

  /** Two levels that do not fit have outcomes that differ. */
  lemma {:induction false} Unfit(m: Fields, n: Fields) returns (r: Fields, s: Fields)
    requires AllRanked(m) && AllRanked(n) && !Fitting(m, n)
    ensures Outcome(m, r) && Outcome(n, s) && !AllAlike(r, s)
    decreases Size(m), 1
  {
    hide Size, Top, Ranked, Outcome, Alike, Fit, Settled;
    var p, q :| Top(m, p) && Top(n, q)
      && !(p.Keys == q.Keys && forall x :: x in p && Ranked(p[x]) && Ranked(q[x]) ==> Fit(p[x], q[x]));
    if p.Keys != q.Keys {
      r := SomeMerged(m, p, map[]);
      s := SomeMerged(n, q, map[]);
    } else {
      var x :| x in p && Ranked(p[x]) && Ranked(q[x]) && !Fit(p[x], q[x]);
      r, s := UnfitAt(m, n, p, q, x);
    }
  }

  lemma {:induction false} UnfitAt(m: Fields, n: Fields, p: Fields, q: Fields, x: string) returns (r: Fields, s: Fields)
    requires AllRanked(m) && AllRanked(n) && Top(m, p) && Top(n, q)
    requires x in p && x in q && Ranked(p[x]) && Ranked(q[x]) && !Fit(p[x], q[x])
    ensures Outcome(m, r) && Outcome(n, s) && !AllAlike(r, s)
    decreases Size(m), 0
  {
    hide Size, Top, Ranked, Outcome, Alike, Fit, Settled;
    TopRanked(m, p, x);
    TopRanked(n, q, x);
    var v, w := Unlike(p[x], q[x]);
    r := SomeMerged(m, p, map[x := v]);
    s := SomeMerged(n, q, map[x := w]);
    assert r[x] == v && s[x] == w;
  }

  /** Some outcome that `p` leads to, with the given fields in it. */
  lemma SomeMerged(m: Fields, p: Fields, given: Fields) returns (r: Fields)
    requires AllRanked(m) && Top(m, p)
    requires forall x :: x in given ==> x in p && Ranked(p[x]) && Settled(p[x], given[x])
    ensures Outcome(m, r) && r.Keys == p.Keys && forall x :: x in given ==> r[x] == given[x]
  {
    hide Size, Top, Ranked, Outcome, Settled;
    TopFacts(m, p, Bound(m));
    r := map k | k in p :: if k in given then given[k] else SomeSettled(p[k]);
    MergedAt(p, r);
    TopOutcome(m, p, r);
  }

  lemma {:induction false} Unlike(a: Field, b: Field) returns (v: Field, w: Field)
    requires Ranked(a) && Ranked(b) && AllRanked(Kids(a)) && !Fit(a, b)
    ensures Settled(a, v) && Settled(b, w) && !Alike(v, w)
    decreases Size(Kids(a)), 2
  {
    hide Size, Top, Ranked, Outcome, Alike, Fit, Fitting;
    FitBelow(a, b);
    if a.child.Some? && b.child.Some? && !Fitting(Kids(a), Kids(b)) {
      var c, d := Unfit(Kids(a), Kids(b));
      v, w := a.(child := Some(c)), b.(child := Some(d));
    } else {
      v, w := SomeSettled(a), SomeSettled(b);
      if a.child.None? && b.child.None? {
        NothingFits(a, b);
      }
    }
    SettledRanked(a, v);
    AlikeBelow(v, w);
  }

  lemma NothingFits(a: Field, b: Field)
    requires a.child.None? && b.child.None?
    ensures AllRanked(Kids(a)) && AllRanked(Kids(b)) && Fitting(Kids(a), Kids(b))
  {
    hide Top, Fit;
    forall p | Top(map[], p) ensures p == map[] {
      EmptyTop(p);
    }
  }

  lemma EmptyTop(p: Fields)
    requires Top(map[], p)
    ensures p == map[]
  {
    hide Size, Top, Walk;
    var ks, n := TopUse(map[], p);
    WalkNothing(map[]);
    WalkPlain(map[], [], ks);
    assert [] + ks == ks;
    PlainFolded(map[], n);
  }

  /** The order of the maps never shows in what `merge` makes of a level if and only if all
      levels that may be left of it fit. */
  lemma OrderNeverShows(m: Fields)
    requires AllRanked(m)
    ensures (forall r, s :: Outcome(m, r) && Outcome(m, s) ==> AllAlike(r, s)) <==> Fitting(m, m)
  {
    hide Size, Ranked, Outcome, AllAlike, Fitting;
    AgreeIffFitting(m, m);
  }

  /** On levels where no field takes the name of an anonymous one, these are the levels of
      competitors: they fit just when the competitors match. */
  lemma UntangledFits(m: Fields, n: Fields)
    requires AllRanked(m) && AllRanked(n) && Untangled(m) && Untangled(n)
    ensures Fitting(m, n) <==> Matching(m, n)
  {
    hide Size, Ranked, Agreeing, Fitting, Matching, Untangled;
    AgreeIffFitting(m, n);
    AgreeIffMatching(m, n);
  }

  // ---------- a name that may be lost ----------

  /** No field can put name `y` into the level, other than one that stands under it. */
  ghost predicate Nobody(m: Fields, y: string)
    requires AllRanked(m)
  {
    forall k :: k in m && k != y ==> y !in Names(k, m[k])
  }

  lemma NobodyPromotes(m: Fields, k: string, y: string)
    requires AllRanked(m) && Nobody(m, y) && k in m && k != y && m[k].anonymous
    ensures AllRanked(Promote(m, k)) && Nobody(Promote(m, k), y) && y !in Kids(m[k])
  {
    hide Names;
    forall j | j in Kids(m[k]) ensures j != y && Ranked(Kids(m[k])[j]) && y !in Names(j, Kids(m[k])[j]) {
      KidNames(k, m[k], j);
    }
  }

  /** Then whether there is a plain field under `y` never changes. */
  lemma {:induction false} NobodyWalks(m: Fields, ks: seq<string>, y: string)
    requires AllRanked(m) && Nobody(m, y) && (y in m ==> !m[y].anonymous)
    ensures var n := Walk(m, ks).0;
            AllRanked(n) && Nobody(n, y) && (y in n <==> y in m) && (y in n ==> !n[y].anonymous)
    decreases |ks|
  {
    hide Names, Ranked;
    if ks != [] {
      NobodyWalks(m, ks[..|ks| - 1], y);
      var n, k := Walk(m, ks[..|ks| - 1]).0, ks[|ks| - 1];
      if k in n && n[k].anonymous {
        NobodyPromotes(n, k, y);
      }
    }
  }

  lemma NobodyOutcome(m: Fields, k: string, y: string) returns (r: Fields)
    requires AllRanked(m) && k in m && m[k].anonymous && AllRanked(Promote(m, k)) && Nobody(Promote(m, k), y)
    requires y in Promote(m, k) ==> !Promote(m, k)[y].anonymous
    ensures Outcome(m, r) && (y in r <==> y in Promote(m, k))
  {
    hide Names, Ranked, Size, Walk, Outcome, Promote, Nobody;
    var ks := SomeEager(Promote(m, k));
    NobodyWalks(Promote(m, k), ks, y);
    WalkCons(m, k, ks);
    var n := Walk(m, [k] + ks).0;
    r := map j | j in n :: SomeSettled(n[j]);
    MergedAt(n, r);
    EagerOutcome(m, [k] + ks, r);
  }

  /** If an anonymous field can be overwritten by a child of another one and only it would
      bring a name, the order decides whether that name is there. */
  lemma LostName(m: Fields, a: string, b: string, y: string) returns (r: Fields, s: Fields)
    requires AllRanked(m) && a in m && b in m && a != b && m[a].anonymous && m[b].anonymous && b in Kids(m[a])
    requires y in Kids(m[b]) && !Kids(m[b])[y].anonymous && AllRanked(Kids(m[b])) && Nobody(Kids(m[b]), y)
    requires forall k :: k in m && k != b ==> y !in Names(k, m[k])
    ensures Outcome(m, r) && Outcome(m, s) && y in r && y !in s && !Fitting(m, m)
  {
    hide Names, Ranked, Size, Outcome, Top, Fitting;
    forall j | j in Kids(m[a]) ensures j != y && Ranked(Kids(m[a])[j]) && y !in Names(j, Kids(m[a])[j]) {
      KidsRanked(m[a]);
      KidNames(a, m[a], j);
    }
    forall k | k in m && k != b ensures k != y {
      HiddenOwn(k, m[k]);
    }
    r := NobodyOutcome(m, b, y);
    s := NobodyOutcome(m, a, y);
    AgreeIffFitting(m, m);
  }
}
