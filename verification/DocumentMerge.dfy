/**
 The flattening of anonymous struct fields in a method's documentation: fields, what a
 level of them should become, and what each step of `merge` keeps of that.
 */
module DocumentMerge {
  import opened Wrappers

  /** A documented field.  `depth` bounds the nesting below it, so that recursion over
      fields is well-founded; `info` stands for name, type, comment and required. */
  datatype Field = Field(info: string, anonymous: bool, child: Option<map<string, Field>>, depth: nat)

  type Fields = map<string, Field>

  function Kids(f: Field): Fields { if f.child.None? then map[] else f.child.value }

  ghost predicate Ranked(f: Field)
    decreases f.depth
  {
    forall k :: k in Kids(f) ==> Kids(f)[k].depth < f.depth && Ranked(Kids(f)[k])
  }

  ghost predicate AllRanked(m: Fields) { forall k :: k in m ==> Ranked(m[k]) }

  ghost predicate Under(m: Fields, bound: nat) { forall k :: k in m ==> m[k].depth < bound }

  // ---------- sizes ----------

  ghost function Total(w: map<string, nat>): nat
    decreases |w|
  {
    if w == map[] then 0
    else
      var k :| k in w;
      w[k] + Total(w - {k})
  }

  lemma {:induction false} TotalSplit(w: map<string, nat>, k: string)
    requires k in w
    ensures Total(w) == w[k] + Total(w - {k})
    decreases |w|
  {
    var j :| j in w && Total(w) == w[j] + Total(w - {j});
    if j != k {
      TotalSplit(w - {j}, k);
      TotalSplit(w - {k}, j);
      assert w - {j} - {k} == w - {k} - {j};
    }
  }

  /** Putting entries into a map adds at most their weights. */
  lemma {:induction false} TotalPut(a: map<string, nat>, b: map<string, nat>)
    ensures Total(a + b) <= Total(a) + Total(b)
    decreases |b|
  {
    hide Total;
    if b == map[] {
      assert a + b == a;
    } else {
      var k :| k in b;
      TotalSplit(b, k);
      TotalSplit(a + b, k);
      TotalDrop(a, k);
      DropBoth(a, b, k);
      TotalPut(a - {k}, b - {k});
    }
  }

  lemma DropBoth<V>(a: map<string, V>, b: map<string, V>, k: string)
    ensures (a + b) - {k} == (a - {k}) + (b - {k})
  {
  }

  lemma TotalDrop(a: map<string, nat>, k: string)
    ensures Total(a - {k}) <= Total(a)
  {
    if k in a {
      TotalSplit(a, k);
    } else {
      assert a - {k} == a;
    }
  }

  /** The number of fields in a field's tree. */
  ghost function FieldSize(f: Field): nat
    requires Ranked(f)
    decreases f.depth
  {
    1 + Total(map k | k in Kids(f) :: FieldSize(Kids(f)[k]))
  }

  ghost function Sizes(m: Fields): map<string, nat>
    requires AllRanked(m)
  {
    map k | k in m :: FieldSize(m[k])
  }

  ghost function Size(m: Fields): nat
    requires AllRanked(m)
  {
    Total(Sizes(m))
  }

  lemma FieldSizeIs(f: Field)
    requires Ranked(f)
    ensures AllRanked(Kids(f)) && FieldSize(f) == 1 + Size(Kids(f))
  {
    assert Sizes(Kids(f)) == map k | k in Kids(f) :: FieldSize(Kids(f)[k]);
  }

  lemma SizeSplit(m: Fields, k: string)
    requires AllRanked(m) && k in m
    ensures AllRanked(m - {k}) && Size(m) == FieldSize(m[k]) + Size(m - {k})
  {
    hide FieldSize, Total;
    TotalSplit(Sizes(m), k);
    assert Sizes(m) - {k} == Sizes(m - {k});
  }

  // ---------- promoting an anonymous field ----------

  /** A level after a field was replaced by its children. */
  function Promote(m: Fields, k: string): Fields
    requires k in m
  {
    (m - {k}) + Kids(m[k])
  }

  lemma PromoteShrinks(m: Fields, k: string)
    requires AllRanked(m) && k in m
    ensures AllRanked(Promote(m, k)) && Size(Promote(m, k)) < Size(m)
  {
    hide Total, FieldSize, Sizes;
    SizeSplit(m, k);
    FieldSizeIs(m[k]);
    TotalPut(Sizes(m - {k}), Sizes(Kids(m[k])));
    SizesPut(m - {k}, Kids(m[k]));
  }

  lemma SizesPut(a: Fields, b: Fields)
    requires AllRanked(a) && AllRanked(b)
    ensures AllRanked(a + b) && Sizes(a + b) == Sizes(a) + Sizes(b)
  {
    hide FieldSize, Ranked;
  }

  // ---------- names that occupy a level ----------

  /** The names a field may put into its level: its own and, when it is anonymous, those
      its children may put there. */
  ghost function Names(k: string, f: Field): set<string>
    requires Ranked(f)
    decreases f.depth
  {
    {k} + if f.anonymous then (set j, x | j in Kids(f) && x in Names(j, Kids(f)[j]) :: x) else {}
  }

  ghost predicate Apart(m: Fields)
    requires AllRanked(m)
  {
    forall i, j :: i in m && j in m && i != j ==> Names(i, m[i]) !! Names(j, m[j])
  }

  /** No two fields of a level, here or below, ever compete for a name. */
  ghost predicate Distinct(m: Fields)
    requires AllRanked(m)
  {
    Apart(m) && forall k :: k in m ==> DistinctBelow(m[k])
  }

  ghost predicate DistinctBelow(f: Field)
    requires Ranked(f)
    decreases f.depth
  {
    Apart(Kids(f)) && forall k :: k in Kids(f) ==> DistinctBelow(Kids(f)[k])
  }

  // ---------- the flattened level ----------

  /** The map with the given entries. */
  ghost function MapOf(s: set<(string, Field)>): Fields {
    map k | k in (set e | e in s :: e.0) :: Entry(s, k)
  }

  ghost function Entry(s: set<(string, Field)>, k: string): (f: Field)
    requires k in (set e | e in s :: e.0)
    ensures (k, f) in s
  {
    var f :| (k, f) in s;
    f
  }

  /** The entries a field contributes to its level once everything is flattened. */
  ghost function FieldItems(k: string, f: Field): set<(string, Field)>
    requires Ranked(f)
    decreases f.depth
  {
    var inner := set j, e | j in Kids(f) && e in FieldItems(j, Kids(f)[j]) :: e;
    if f.anonymous then inner
    else {(k, f.(child := if f.child.None? then None else Some(MapOf(inner))))}
  }

  ghost function Items(m: Fields): set<(string, Field)>
    requires AllRanked(m)
  {
    set j, e | j in m && e in FieldItems(j, m[j]) :: e
  }

  ghost function Flat(m: Fields): Fields
    requires AllRanked(m)
  {
    MapOf(Items(m))
  }

  /** A field with everything below it flattened. */
  ghost function FlatBelow(f: Field): Field
    requires Ranked(f)
  {
    f.(child := if f.child.None? then None else Some(Flat(Kids(f))))
  }

  lemma FieldItemsIs(k: string, f: Field)
    requires Ranked(f)
    ensures AllRanked(Kids(f))
    ensures FieldItems(k, f) == if f.anonymous then Items(Kids(f)) else {(k, FlatBelow(f))}
  {
    var c := Kids(f);
    var inner := set j, e | j in Kids(f) && e in FieldItems(j, Kids(f)[j]) :: e;
    assert FieldItems(k, f) == if f.anonymous then inner
                               else {(k, f.(child := if f.child.None? then None else Some(MapOf(inner))))};
    assert inner == Items(c) by {
      forall e ensures e in inner <==> e in Items(c) {
        ItemsHas(c, e);
      }
    }
  }

  lemma ItemsHas(m: Fields, e: (string, Field))
    requires AllRanked(m)
    ensures e in Items(m) <==> exists j :: j in m && e in FieldItems(j, m[j])
  {
    hide FieldItems;
  }

  // ---------- entries of levels ----------

  lemma ItemsSplit(m: Fields, k: string)
    requires AllRanked(m) && k in m
    ensures Items(m) == Items(m - {k}) + FieldItems(k, m[k])
  {
    hide FieldItems, Ranked;
    forall e ensures e in Items(m) <==> e in Items(m - {k}) + FieldItems(k, m[k]) {
      ItemsHas(m, e);
      ItemsHas(m - {k}, e);
      if e in Items(m) {
        var j :| j in m && e in FieldItems(j, m[j]);
        assert j != k ==> j in m - {k} && (m - {k})[j] == m[j];
      }
    }
  }

  lemma ItemsPut(a: Fields, b: Fields)
    requires AllRanked(a) && AllRanked(b) && a.Keys !! b.Keys
    ensures AllRanked(a + b) && Items(a + b) == Items(a) + Items(b)
  {
    hide FieldItems, Ranked;
    forall e ensures e in Items(a + b) <==> e in Items(a) + Items(b) {
      ItemsHas(a, e);
      ItemsHas(b, e);
      ItemsHas(a + b, e);
      if j :| j in a && e in FieldItems(j, a[j]) {
        assert j in a + b && (a + b)[j] == a[j];
      }
      if j :| j in b && e in FieldItems(j, b[j]) {
        assert j in a + b && (a + b)[j] == b[j];
      }
    }
  }

  // ---------- levels that are flat already ----------

  /** No anonymous field below. */
  ghost predicate CleanBelow(f: Field)
    requires Ranked(f)
    decreases f.depth
  {
    forall k :: k in Kids(f) ==> !Kids(f)[k].anonymous && CleanBelow(Kids(f)[k])
  }

  /** No anonymous field at any depth. */
  ghost predicate Clean(m: Fields)
    requires AllRanked(m)
  {
    forall k :: k in m ==> !m[k].anonymous && CleanBelow(m[k])
  }

  lemma {:induction false} CleanIsFixed(f: Field)
    requires Ranked(f) && CleanBelow(f)
    ensures FlatBelow(f) == f
    decreases f.depth
  {
    if f.child.Some? {
      assert AllRanked(Kids(f)) && Clean(Kids(f));
      forall k | k in Kids(f) ensures FlatBelow(Kids(f)[k]) == Kids(f)[k] {
        CleanIsFixed(Kids(f)[k]);
      }
      FixedLevel(Kids(f));
    }
  }

  lemma FixedLevel(m: Fields)
    requires AllRanked(m) && Clean(m) && forall k :: k in m ==> FlatBelow(m[k]) == m[k]
    ensures Items(m) == m.Items && Flat(m) == m
  {
    hide FieldItems, CleanBelow, FlatBelow;
    forall e ensures e in Items(m) <==> e in m.Items {
      ItemsHas(m, e);
      forall k | k in m ensures FieldItems(k, m[k]) == {(k, m[k])} {
        FieldItemsIs(k, m[k]);
      }
      if e in m.Items {
        assert e in FieldItems(e.0, m[e.0]);
      }
    }
    MapOfItems(m);
  }

  lemma MapOfItems(m: Fields)
    ensures MapOf(m.Items) == m
  {
    forall k ensures k in MapOf(m.Items) <==> k in m {
      if k in m {
        assert (k, m[k]) in m.Items;
      }
    }
  }

  lemma CleanLevel(m: Fields)
    requires AllRanked(m) && Clean(m)
    ensures Items(m) == m.Items && Flat(m) == m
  {
    forall k | k in m ensures FlatBelow(m[k]) == m[k] {
      CleanIsFixed(m[k]);
    }
    FixedLevel(m);
  }

  /** What is contributed to a level is flat, whatever the names. */
  lemma {:induction false} ItemsClean(k: string, f: Field, e: (string, Field))
    requires Ranked(f) && e in FieldItems(k, f)
    ensures Ranked(e.1) && !e.1.anonymous && CleanBelow(e.1) && e.1.depth <= f.depth && e.0 in Names(k, f)
    decreases f.depth
  {
    FieldItemsIs(k, f);
    var c := Kids(f);
    if f.anonymous {
      ItemsHas(c, e);
      var j :| j in c && e in FieldItems(j, c[j]);
      ItemsClean(j, c[j], e);
    } else if f.child.Some? {
      forall i | i in Flat(c)
        ensures Flat(c)[i].depth < f.depth && Ranked(Flat(c)[i]) && !Flat(c)[i].anonymous && CleanBelow(Flat(c)[i])
      {
        var g := (i, Flat(c)[i]);
        ItemsHas(c, g);
        var j :| j in c && g in FieldItems(j, c[j]);
        ItemsClean(j, c[j], g);
      }
      assert Kids(e.1) == Flat(c);
    }
  }

  /** A flattened level is clean, and names only what could be named there. */
  lemma FlatClean(m: Fields)
    requires AllRanked(m)
    ensures AllRanked(Flat(m)) && Clean(Flat(m))
    ensures forall i :: i in Flat(m) ==> exists j :: j in m && Flat(m)[i].depth <= m[j].depth && i in Names(j, m[j])
  {
    hide FieldItems, Ranked, CleanBelow, Names;
    forall i | i in Flat(m)
      ensures Ranked(Flat(m)[i]) && !Flat(m)[i].anonymous && CleanBelow(Flat(m)[i])
      ensures exists j :: j in m && Flat(m)[i].depth <= m[j].depth && i in Names(j, m[j])
    {
      var g := (i, Flat(m)[i]);
      ItemsHas(m, g);
      var j :| j in m && g in FieldItems(j, m[j]);
      ItemsClean(j, m[j], g);
    }
  }

  // ---------- distinct names ----------

  ghost predicate Functional(s: set<(string, Field)>) {
    forall d, e :: d in s && e in s && d.0 == e.0 ==> d == e
  }

  lemma MapOfFunctional(s: set<(string, Field)>)
    requires Functional(s)
    ensures MapOf(s).Items == s
  {
    forall e ensures e in MapOf(s).Items <==> e in s {
      assert e == (e.0, e.1);
      if e in s {
        assert e.0 in MapOf(s);
      }
      if e.0 in MapOf(s) {
        assert (e.0, MapOf(s)[e.0]) in s;
      }
    }
  }

  lemma {:induction false} FieldFunctional(k: string, f: Field)
    requires Ranked(f) && DistinctBelow(f)
    ensures Functional(FieldItems(k, f))
    decreases f.depth
  {
    FieldItemsIs(k, f);
    var c := Kids(f);
    if f.anonymous {
      forall j | j in c ensures Functional(FieldItems(j, c[j])) {
        FieldFunctional(j, c[j]);
      }
      LevelFunctional(c);
    }
  }

  lemma LevelFunctional(m: Fields)
    requires AllRanked(m) && Apart(m) && forall j :: j in m ==> Functional(FieldItems(j, m[j]))
    ensures Functional(Items(m))
  {
    hide FieldItems, Ranked, Names, CleanBelow;
    forall d, e | d in Items(m) && e in Items(m) && d.0 == e.0 ensures d == e {
      ItemsHas(m, d);
      ItemsHas(m, e);
      var i :| i in m && d in FieldItems(i, m[i]);
      var j :| j in m && e in FieldItems(j, m[j]);
      ItemsClean(i, m[i], d);
      ItemsClean(j, m[j], e);
      assert i == j;
    }
  }

  /** With distinct names the flattened level holds exactly the contributed entries. */
  lemma FlatItems(m: Fields)
    requires AllRanked(m) && Distinct(m)
    ensures Flat(m).Items == Items(m)
  {
    forall j | j in m ensures Functional(FieldItems(j, m[j])) {
      FieldFunctional(j, m[j]);
    }
    LevelFunctional(m);
    MapOfFunctional(Items(m));
  }

  lemma {:induction false} CleanDistinct(f: Field)
    requires Ranked(f) && CleanBelow(f)
    ensures DistinctBelow(f)
    decreases f.depth
  {
    forall k | k in Kids(f) ensures DistinctBelow(Kids(f)[k]) && Names(k, Kids(f)[k]) == {k} {
      CleanDistinct(Kids(f)[k]);
    }
  }

  // ---------- each step keeps the entries ----------

  lemma KidNames(k: string, f: Field, j: string)
    requires Ranked(f) && f.anonymous && j in Kids(f)
    ensures j in Names(j, Kids(f)[j]) && Names(j, Kids(f)[j]) <= Names(k, f) && k in Names(k, f)
  {
  }

  /** Promoting an anonymous field loses nothing when names are distinct. */
  lemma PromoteKeeps(m: Fields, k: string)
    requires AllRanked(m) && Distinct(m) && k in m && m[k].anonymous
    ensures AllRanked(Promote(m, k)) && Distinct(Promote(m, k)) && Items(Promote(m, k)) == Items(m)
  {
    hide FieldItems, Items, Names, DistinctBelow;
    var c := Kids(m[k]);
    assert Apart(c) && forall j :: j in c ==> DistinctBelow(c[j]) by {
      DistinctKids(m[k]);
    }
    forall j | j in c ensures Names(j, c[j]) <= Names(k, m[k]) && j in Names(j, c[j]) {
      KidNames(k, m[k], j);
    }
    forall i | i in m ensures i in Names(i, m[i]) {
      OwnName(i, m[i]);
    }
    assert (m - {k}).Keys !! c.Keys;
    ItemsSplit(m, k);
    FieldItemsIs(k, m[k]);
    ItemsPut(m - {k}, c);
  }

  lemma OwnName(k: string, f: Field)
    requires Ranked(f)
    ensures k in Names(k, f)
  {
  }

  lemma DistinctKids(f: Field)
    requires Ranked(f) && DistinctBelow(f)
    ensures AllRanked(Kids(f)) && Apart(Kids(f)) && forall j :: j in Kids(f) ==> DistinctBelow(Kids(f)[j])
  {
  }

  /** A field that was flattened below contributes the same entries, under no new names. */
  lemma FlattenBelowKeeps(k: string, f: Field)
    requires Ranked(f) && DistinctBelow(f)
    ensures var g := FlatBelow(f);
            Ranked(g) && CleanBelow(g) && DistinctBelow(g) && FieldItems(k, g) == FieldItems(k, f)
                && Names(k, g) <= Names(k, f)
  {
    var c, g := Kids(f), FlatBelow(f);
    FlatClean(c);
    assert Kids(g) == if f.child.None? then map[] else Flat(c);
    assert Ranked(g) && CleanBelow(g);
    CleanDistinct(g);
    CleanIsFixed(g);
    FieldItemsIs(k, f);
    FieldItemsIs(k, g);
    if f.anonymous {
      SameEntries(f);
      FlatNames(k, f);
    }
  }

  lemma SameEntries(f: Field)
    requires Ranked(f) && DistinctBelow(f)
    ensures AllRanked(Kids(f)) && AllRanked(Kids(FlatBelow(f))) && Items(Kids(FlatBelow(f))) == Items(Kids(f))
  {
    hide FieldItems, Names;
    if f.child.Some? {
      var c := Kids(f);
      FlatClean(c);
      CleanLevel(Flat(c));
      FlatItems(c);
    }
  }

  lemma FlatNames(k: string, f: Field)
    requires Ranked(f) && f.anonymous && Ranked(FlatBelow(f)) && CleanBelow(FlatBelow(f))
    ensures Names(k, FlatBelow(f)) <= Names(k, f)
  {
    var c, g := Kids(f), FlatBelow(f);
    FlatClean(c);
    forall x | x in Names(k, g) ensures x in Names(k, f) {
      if x != k {
        var j :| j in Kids(g) && x in Names(j, Kids(g)[j]);
        assert x == j && j in Flat(c);
      }
    }
  }

  /** Replacing one field of a level by one that contributes the same. */
  lemma ReplaceKeeps(m: Fields, k: string, g: Field)
    requires AllRanked(m) && Distinct(m) && k in m && Ranked(g) && DistinctBelow(g)
    requires FieldItems(k, g) == FieldItems(k, m[k]) && Names(k, g) <= Names(k, m[k])
    ensures AllRanked(m[k := g]) && Distinct(m[k := g]) && Items(m[k := g]) == Items(m)
  {
    hide FieldItems, Items, Names, DistinctBelow;
    ItemsSplit(m, k);
    ItemsSplit(m[k := g], k);
    assert m[k := g] - {k} == m - {k};
  }

  lemma SizeReplace(m: Fields, k: string, g: Field)
    requires AllRanked(m) && k in m && Ranked(g) && FieldSize(g) <= FieldSize(m[k])
    ensures AllRanked(m[k := g]) && Size(m[k := g]) <= Size(m)
  {
    hide FieldSize, Size, Ranked;
    SizeSplit(m, k);
    SizeSplit(m[k := g], k);
    assert m[k := g] - {k} == m - {k};
  }

  lemma ChildSmaller(m: Fields, k: string)
    requires AllRanked(m) && k in m
    ensures AllRanked(Kids(m[k])) && Under(Kids(m[k]), m[k].depth) && Size(Kids(m[k])) < Size(m)
  {
    hide FieldSize, Size;
    SizeSplit(m, k);
    FieldSizeIs(m[k]);
  }

  // ---------- a level in the making ----------

  /** `now` is a level that `merge` may have made of `was`: no larger, no deeper, and with
      the same entries in the end if names are distinct. */
  ghost predicate Becomes(was: Fields, now: Fields, bound: nat)
    requires AllRanked(was) && Under(was, bound)
  {
    && AllRanked(now) && Under(now, bound) && Size(now) <= Size(was)
    && (Distinct(was) ==> Distinct(now) && Items(now) == Items(was))
  }

  lemma PromoteStep(fm: Fields, r: Fields, k: string, bound: nat)
    requires AllRanked(fm) && Under(fm, bound) && Becomes(fm, r, bound) && k in r && r[k].anonymous
    ensures Becomes(fm, Promote(r, k), bound) && Size(Promote(r, k)) < Size(r)
  {
    hide Size, Items, Distinct;
    PromoteShrinks(r, k);
    if Distinct(fm) {
      PromoteKeeps(r, k);
    }
  }

  lemma NoChildClean(f: Field)
    requires Ranked(f) && f.child.None?
    ensures CleanBelow(f)
  {
  }

  lemma ChildClean(f: Field, c: Fields)
    requires AllRanked(c) && Under(c, f.depth) && Clean(c)
    ensures var g := f.(child := Some(c)); Ranked(g) && CleanBelow(g)
  {
    assert Kids(f.(child := Some(c))) == c;
  }

  /** Storing a merged child. */
  lemma ChildMerged(m: Fields, r: Fields, k: string, c: Fields, bound: nat)
    requires AllRanked(m) && Under(m, bound) && Becomes(m, r, bound)
    requires k in r && r[k].child.Some? && AllRanked(r[k].child.value)
    requires AllRanked(c) && Under(c, r[k].depth) && Clean(c) && Size(c) <= Size(r[k].child.value)
    requires Distinct(r[k].child.value) ==> c == Flat(r[k].child.value)
    ensures var g := r[k].(child := Some(c)); Ranked(g) && CleanBelow(g) && Becomes(m, r[k := g], bound)
  {
    hide Size, Items, Distinct, CleanBelow, FlatBelow, Names, FieldItems, DistinctBelow, Clean;
    var g := r[k].(child := Some(c));
    ChildClean(r[k], c);
    FieldSizeIs(g);
    FieldSizeIs(r[k]);
    SizeReplace(r, k, g);
    if Distinct(m) {
      MergedKeeps(r, k, c);
    }
  }

  lemma MergedKeeps(r: Fields, k: string, c: Fields)
    requires AllRanked(r) && Distinct(r) && k in r && r[k].child.Some? && AllRanked(r[k].child.value)
    requires Distinct(r[k].child.value) ==> c == Flat(r[k].child.value)
    ensures var g := r[k].(child := Some(c));
            AllRanked(r[k := g]) && Distinct(r[k := g]) && Items(r[k := g]) == Items(r)
  {
    hide Names, FieldItems;
    DistinctKids(r[k]);
    assert Distinct(Kids(r[k]));
    FlattenBelowKeeps(k, r[k]);
    ReplaceKeeps(r, k, FlatBelow(r[k]));
  }

  lemma BecomesTrans(a: Fields, b: Fields, c: Fields, bound: nat)
    requires AllRanked(a) && Under(a, bound) && Becomes(a, b, bound) && Becomes(b, c, bound)
    ensures Becomes(a, c, bound)
  {
    hide Size, Items, Distinct;
  }
}
