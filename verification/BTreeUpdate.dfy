/**
 Insertion with pre-emptive splitting and deletion with steal, merge and retry,
 as functions from tree to tree, and their refinement of the sorted set.
 */
module BTreeUpdate {
  import opened Wrappers
  import opened SortedSet
  import opened BTreeShape

  // ---------- insertion ----------

  /** `maybeSplitChild`: a full child becomes two around its middle item. */
  function SplitChild<T>(t: Tree<T>, i: nat, d: nat): Tree<T>
    requires |t.children| == |t.items| + 1 && i <= |t.items| && d >= 1
  {
    var c := t.children[i];
    if |c.items| < MaxItems(d) then t
    else
      var k := MaxItems(d) / 2;
      Node(t.items[..i] + [c.items[k]] + t.items[i..],
           t.children[..i] + [LeftPart(c, k), RightPart(c, k)] + t.children[i + 1..])
  }

  lemma SplitChildShape<T>(t: Tree<T>, i: nat, h: nat, d: nat)
    requires d >= 2 && h > 0 && Kids(t, h, d) && i <= |t.items|
    ensures var t' := SplitChild(t, i, d);
            && Kids(t', h, d)
            && Flat(t') == Flat(t)
            && (|t.children[i].items| < MaxItems(d) ==> t' == t)
            && (|t.children[i].items| >= MaxItems(d) ==>
                  && |t'.items| == |t.items| + 1
                  && |t'.children[i].items| < MaxItems(d) && |t'.children[i + 1].items| < MaxItems(d))
  {
    hide Flat, Row, LRow, Left, Right, Kids, LeftPart, RightPart;
    Arity(t, h, d);
    var c := t.children[i];
    ChildWF(t, i, h, d);
    if |c.items| >= MaxItems(d) {
      var k := MaxItems(d) / 2;
      assert k == d - 1;
      SplitParts(c, k, h - 1, d);
      SplitSizes(c, k);
      Around(t, i);
      ReplaceOneByTwo(t, i, LeftPart(c, k), c.items[k], RightPart(c, k));
      ReplaceOneByTwoKids(t, i, LeftPart(c, k), c.items[k], RightPart(c, k), h, d);
    }
  }

  lemma SplitSizes<T>(t: Tree<T>, i: nat)
    requires i < |t.items|
    ensures |LeftPart(t, i).items| == i && |RightPart(t, i).items| == |t.items| - i - 1
  {
  }

  /** Which child the insertion goes on into after the split, or `None` when the
      item moved up is itself equivalent to the new one. */
  function Descent<T>(lt: (T, T) -> bool, t: Tree<T>, t': Tree<T>, i: nat, x: T): (r: Option<nat>)
    requires i < |t'.items| || t' == t
    ensures r.Some? ==> r.value == i || (r.value == i + 1 && i < |t'.items|)
    ensures r.None? ==> i < |t'.items|
  {
    if |t'.items| == |t.items| || lt(x, t'.items[i]) then Some(i)
    else if lt(t'.items[i], x) then Some(i + 1)
    else None
  }

  /** `node.insert`. */
  function Insert<T>(lt: (T, T) -> bool, t: Tree<T>, x: T, ghost h: nat, d: nat): (Tree<T>, Option<T>)
    requires d >= 2 && Kids(t, h, d)
    decreases h
  {
    var (i, found) := Find(lt, t.items, x);
    if found then (t.(items := t.items[i := x]), Some(t.items[i]))
    else if |t.children| == 0 then (t.(items := t.items[..i] + [x] + t.items[i..]), None)
    else
      SplitChildShape(t, i, h, d);
      var t' := SplitChild(t, i, d);
      match Descent(lt, t, t', i, x)
      case None => (t'.(items := t'.items[i := x]), Some(t'.items[i]))
      case Some(j) =>
        ChildWF(t', j, h, d);
        var (c, out) := Insert(lt, t'.children[j], x, h - 1, d);
        (t'.(children := t'.children[j := c]), out)
  }

  /** Insertion keeps the shape; a node gains at most one item. */
  lemma {:induction false} InsertShape<T>(lt: (T, T) -> bool, t: Tree<T>, x: T, h: nat, d: nat)
    requires d >= 2 && Kids(t, h, d)
    ensures var t' := Insert(lt, t, x, h, d).0;
            Kids(t', h, d) && |t.items| <= |t'.items| <= |t.items| + 1
    decreases h
  {
    var (i, found) := Find(lt, t.items, x);
    if found {
      SameKids(t, t.(items := t.items[i := x]), h, d);
    } else if h > 0 {
      SplitChildShape(t, i, h, d);
      InsertShapeDescent(lt, t, x, h, d, i, SplitChild(t, i, d));
    }
  }

  lemma {:induction false} InsertShapeDescent<T>(lt: (T, T) -> bool, t: Tree<T>, x: T, h: nat, d: nat, i: nat,
                                                 t': Tree<T>)
    requires d >= 2 && h > 0 && Kids(t, h, d) && Find(lt, t.items, x) == (i, false)
    requires t' == SplitChild(t, i, d) && Kids(t', h, d)
    requires t' == t || |t'.items| == |t.items| + 1
    requires forall j :: i <= j <= |t'.items| && j <= i + |t'.items| - |t.items| ==>
            |t'.children[j].items| < MaxItems(d)
    ensures var r := Insert(lt, t, x, h, d).0;
            Kids(r, h, d) && |t.items| <= |r.items| <= |t.items| + 1
    decreases h, 0
  {
    match Descent(lt, t, t', i, x) {
      case None => SameKids(t', t'.(items := t'.items[i := x]), h, d);
      case Some(j) =>
        ChildWF(t', j, h, d);
        InsertShape(lt, t'.children[j], x, h - 1, d);
        var (c, out) := Insert(lt, t'.children[j], x, h - 1, d);
        ReplaceChildKids(t', j, c, h, d);
        assert Insert(lt, t, x, h, d) == (t'.(children := t'.children[j := c]), out);
    }
  }

  /** Insertion refines insert-or-replace on the sorted set of the tree's items. */
  lemma {:induction false} InsertRefines<T(!new)>(lt: (T, T) -> bool, t: Tree<T>, x: T, h: nat, d: nat)
    requires StrictWeakOrder(lt) && d >= 2 && Kids(t, h, d) && Sorted(lt, Flat(t))
    ensures Insert(lt, t, x, h, d).1 == SetInsert(lt, Flat(t), x).1
    ensures Flat(Insert(lt, t, x, h, d).0) == SetInsert(lt, Flat(t), x).0
    decreases h
  {
    if h > 0 {
      var (i, found) := Find(lt, t.items, x);
      assert Cut(lt, t.items, x, i, found) by { FindSides(lt, t, x); }
      if found {
        InsertFound(lt, t, x, i);
      } else {
        InsertDescent(lt, t, x, h, d, i);
        InsertRefinesDescent(lt, t, x, h, d, i);
      }
    }
  }

  lemma {:induction false} InsertRefinesDescent<T(!new)>(lt: (T, T) -> bool, t: Tree<T>, x: T, h: nat, d: nat, i: nat)
    requires StrictWeakOrder(lt) && d >= 2 && h > 0 && Kids(t, h, d) && Sorted(lt, Flat(t))
    requires Find(lt, t.items, x) == (i, false)
    requires InsertGoesTo(lt, t, SplitChild(t, i, d), x, i, h, d)
    ensures Insert(lt, t, x, h, d).1 == SetInsert(lt, Flat(t), x).1
    ensures Flat(Insert(lt, t, x, h, d).0) == SetInsert(lt, Flat(t), x).0
    decreases h, 0
  {
    hide StrictWeakOrder, Flat, Row, LRow, Left, Right, Kids, WF, Sorted, Below, Above, SetInsert, Find, Insert,
      Descent, SplitChild;
    Arity(t, h, d);
    InsertUnfolds(lt, t, x, h, d, i);
    var t' := SplitChild(t, i, d);
    var go := Descent(lt, t, t', i, x);
    Arity(t', h, d);
    match go {
      case None => InsertFound(lt, t', x, i);
      case Some(j) =>
        ChildWF(t', j, h, d);
        assert Sorted(lt, Flat(t'.children[j])) by { Separated(lt, t', j); }
        InsertRefines(lt, t'.children[j], x, h - 1, d);
        InsertBelow(lt, t', x, j, Insert(lt, t'.children[j], x, h - 1, d).0);
    }
  }

  /** Insertion into a node that holds an equivalent item, or into a leaf. */
  lemma InsertHere<T>(lt: (T, T) -> bool, t: Tree<T>, x: T, h: nat, d: nat)
    requires d >= 2 && Kids(t, h, d)
    ensures var (i, found) := Find(lt, t.items, x);
            && (found ==> Insert(lt, t, x, h, d) == (t.(items := t.items[i := x]), Some(t.items[i])))
            && (!found && |t.children| == 0 ==>
                  Insert(lt, t, x, h, d) == (t.(items := t.items[..i] + [x] + t.items[i..]), None))
  {
  }

  lemma InsertUnfolds<T>(lt: (T, T) -> bool, t: Tree<T>, x: T, h: nat, d: nat, i: nat)
    requires d >= 2 && h > 0 && Kids(t, h, d) && Find(lt, t.items, x) == (i, false)
    requires Kids(SplitChild(t, i, d), h, d) && (i < |SplitChild(t, i, d).items| || SplitChild(t, i, d) == t)
    ensures var t' := SplitChild(t, i, d);
            var go := Descent(lt, t, t', i, x);
            go.Some? ==> WF(t'.children[go.value], h - 1, d)
    ensures var t' := SplitChild(t, i, d);
            Insert(lt, t, x, h, d) ==
            match Descent(lt, t, t', i, x)
            case None => (t'.(items := t'.items[i := x]), Some(t'.items[i]))
            case Some(j) =>
              var (c, out) := Insert(lt, t'.children[j], x, h - 1, d);
              (t'.(children := t'.children[j := c]), out)
  {
  }

  /** Overwriting an equivalent item of a node is a replacement in the set. */
  lemma InsertFound<T(!new)>(lt: (T, T) -> bool, t: Tree<T>, x: T, i: nat)
    requires StrictWeakOrder(lt) && Sorted(lt, Flat(t)) && |t.children| == |t.items| + 1
    requires i < |t.items| && Equiv(lt, t.items[i], x)
    ensures SetInsert(lt, Flat(t), x) == (Flat(t.(items := t.items[i := x])), Some(t.items[i]))
  {
    var a := Left(t, i) + Flat(t.children[i]);
    var b := Flat(t.children[i + 1]) + Right(t, i + 1);
    var t' := t.(items := t.items[i := x]);
    AroundItem(t, i);
    assert Flat(t') == a + [x] + b by {
      AroundItem(t', i);
      assert t'.items[..i] == t.items[..i] && t'.items[i + 1..] == t.items[i + 1..];
    }
    assert Below(lt, a, x) && Above(lt, x, b) by { RightAbove(lt, t, i, x); }
    HitContext(lt, a, t.items[i], b, x);
  }

  /** `t'` is `t` with child `i` split when full, and `insert` goes where `x` belongs. */
  ghost predicate InsertGoesTo<T>(lt: (T, T) -> bool, t: Tree<T>, t': Tree<T>, x: T, i: nat, h: nat, d: nat) {
    && h > 0 && Kids(t', h, d) && Flat(t') == Flat(t) && (i < |t'.items| || (t' == t && i == |t.items|))
    && match Descent(lt, t, t', i, x)
       case None => Equiv(lt, t'.items[i], x)
       case Some(j) => Below(lt, Left(t', j), x) && Above(lt, x, Right(t', j))
  }

  /** The child `insert` descends into, before or after a split, is where `x` belongs. */
  lemma InsertDescent<T(!new)>(lt: (T, T) -> bool, t: Tree<T>, x: T, h: nat, d: nat, i: nat)
    requires StrictWeakOrder(lt) && d >= 2 && h > 0 && Kids(t, h, d) && Sorted(lt, Flat(t))
    requires Cut(lt, t.items, x, i, false)
    ensures InsertGoesTo(lt, t, SplitChild(t, i, d), x, i, h, d)
  {
    hide StrictWeakOrder, Flat, Row, LRow, Left, Right, Kids, WF, Sorted, Below, Above, SplitChild, Cut;
    Arity(t, h, d);
    CutSides(lt, t.items, x, i);
    SplitChildShape(t, i, h, d);
    var t' := SplitChild(t, i, d);
    Arity(t', h, d);
    SplitChildItems(t, i, d);
    var j := Descent(lt, t, t', i, x);
    if j.Some? {
      SidesOf(lt, t', j.value, x);
    }
  }

  lemma SplitChildItems<T>(t: Tree<T>, i: nat, d: nat)
    requires |t.children| == |t.items| + 1 && i <= |t.items| && d >= 1
    ensures var t' := SplitChild(t, i, d);
            t' == t || exists y :: t'.items == t.items[..i] + [y] + t.items[i..]
  {
  }

  lemma CutSides<T(!new)>(lt: (T, T) -> bool, s: seq<T>, x: T, i: nat)
    requires Cut(lt, s, x, i, false)
    ensures i <= |s| && (i > 0 ==> lt(s[i - 1], x)) && (i < |s| ==> lt(x, s[i]))
  {
  }

  lemma SidesOf<T(!new)>(lt: (T, T) -> bool, t: Tree<T>, j: nat, x: T)
    requires StrictWeakOrder(lt) && Sorted(lt, Flat(t)) && |t.children| == |t.items| + 1 && j <= |t.items|
    requires j > 0 ==> lt(t.items[j - 1], x)
    requires j < |t.items| ==> lt(x, t.items[j])
    ensures Below(lt, Left(t, j), x) && Above(lt, x, Right(t, j))
  {
    if j > 0 { LeftBelow(lt, t, j, x); }
    if j < |t.items| { RightAbove(lt, t, j, x); }
  }

  /** Inserting into the child where `x` belongs inserts into the whole node. */
  lemma InsertBelow<T(!new)>(lt: (T, T) -> bool, t: Tree<T>, x: T, j: nat, c: Tree<T>)
    requires StrictWeakOrder(lt) && Sorted(lt, Flat(t)) && |t.children| == |t.items| + 1 && j <= |t.items|
    requires Below(lt, Left(t, j), x) && Above(lt, x, Right(t, j))
    requires Flat(c) == SetInsert(lt, Flat(t.children[j]), x).0
    ensures SetInsert(lt, Flat(t), x)
         == (Flat(t.(children := t.children[j := c])), SetInsert(lt, Flat(t.children[j]), x).1)
  {
    Around(t, j);
    InsertContext(lt, Left(t, j), Flat(t.children[j]), Right(t, j), x);
    ReplaceChild(t, j, c);
  }

  // ---------- deletion ----------

  /** The child a deletion goes on into, and whether the item sits in this node. */
  function Where<T>(lt: (T, T) -> bool, t: Tree<T>, what: Removal<T>): (r: (nat, bool))
    ensures r.0 <= |t.items| && (r.1 ==> r.0 < |t.items| && what.RemoveItem?)
  {
    match what
    case RemoveItem(x) => Find(lt, t.items, x)
    case RemoveMin => (0, false)
    case RemoveMax => (|t.items|, false)
  }

  /** The child to descend into is too small to lose an item. */
  predicate NeedsGrow<T>(lt: (T, T) -> bool, t: Tree<T>, what: Removal<T>, d: nat) {
    |t.children| == |t.items| + 1 && |t.children[Where(lt, t, what).0].items| <= MinItems(d)
  }

  /** `remove` can be called on a node: it has an item, or a single child with items to spare. */
  predicate Removable<T>(t: Tree<T>, h: nat, d: nat) {
    |t.items| > 0 || (h > 0 && |t.children| == 1 && |t.children[0].items| > MinItems(d))
  }

  function StealLeft<T>(t: Tree<T>, i: nat): Tree<T>
    requires |t.children| == |t.items| + 1 && 0 < i <= |t.items| && |t.children[i - 1].items| > 0
  {
    var l, c := t.children[i - 1], t.children[i];
    var m := |l.items| - 1;
    Node(t.items[i - 1 := l.items[m]],
         t.children[i - 1 := LeftPart(l, m)]
                   [i := Node([t.items[i - 1]] + c.items, RightPart(l, m).children + c.children)])
  }

  function StealRight<T>(t: Tree<T>, i: nat): Tree<T>
    requires |t.children| == |t.items| + 1 && i < |t.items| && |t.children[i + 1].items| > 0
  {
    var c, r := t.children[i], t.children[i + 1];
    Node(t.items[i := r.items[0]],
         t.children[i := Node(c.items + [t.items[i]], c.children + LeftPart(r, 0).children)]
                   [i + 1 := RightPart(r, 0)])
  }

  function Merge<T>(t: Tree<T>, i: nat): Tree<T>
    requires |t.children| == |t.items| + 1 && i < |t.items|
  {
    Node(t.items[..i] + t.items[i + 1..],
         t.children[..i] + [Join(t.children[i], t.items[i], t.children[i + 1])] + t.children[i + 2..])
  }

  /** `growChildAndRemove`, up to its retry. */
  function Grow<T>(t: Tree<T>, i: nat, d: nat): Tree<T>
    requires d >= 1 && |t.children| == |t.items| + 1 && i <= |t.items| && |t.items| > 0
  {
    if i > 0 && |t.children[i - 1].items| > MinItems(d) then StealLeft(t, i)
    else if i < |t.items| && |t.children[i + 1].items| > MinItems(d) then StealRight(t, i)
    else Merge(t, if i >= |t.items| then i - 1 else i)
  }

  /** Moving the boundary between two neighbours keeps contents and shape. */
  lemma ShiftBoundary<T>(t: Tree<T>, i: nat, l: Tree<T>, x: T, r: Tree<T>, h: nat, d: nat)
    requires h > 0 && Kids(t, h, d) && i < |t.items|
    requires WF(l, h - 1, d) && WF(r, h - 1, d)
    requires Flat(l) + [x] + Flat(r) == Flat(t.children[i]) + [t.items[i]] + Flat(t.children[i + 1])
    ensures var t' := Node(t.items[i := x], t.children[i := l][i + 1 := r]);
            Kids(t', h, d) && Flat(t') == Flat(t)
  {
    AroundTwo(t, i);
    ReplaceTwo(t, i, l, x, r);
  }

  lemma Reassociate<T>(a: seq<T>, x: T, m: seq<T>, y: T, b: seq<T>)
    ensures (a + [x] + m) + [y] + b == a + [x] + (m + [y] + b)
  {
  }

  /** Stealing is splitting off an end of the sibling and joining it to the child. */
  lemma StealLeftIs<T>(t: Tree<T>, i: nat)
    requires |t.children| == |t.items| + 1 && 0 < i <= |t.items| && |t.children[i - 1].items| > 0
    ensures var l, x, c := t.children[i - 1], t.items[i - 1], t.children[i];
            var m := |l.items| - 1;
            var l', c' := LeftPart(l, m), Join(RightPart(l, m), x, c);
            && |l'.items| == m && |c'.items| == |c.items| + 1
            && StealLeft(t, i) == Node(t.items[i - 1 := l.items[m]], t.children[i - 1 := l'][i := c'])
  {
    assert RightPart(t.children[i - 1], |t.children[i - 1].items| - 1).items + [t.items[i - 1]] == [t.items[i - 1]];
  }

  lemma StealRightIs<T>(t: Tree<T>, i: nat)
    requires |t.children| == |t.items| + 1 && i < |t.items| && |t.children[i + 1].items| > 0
    ensures var c, x, r := t.children[i], t.items[i], t.children[i + 1];
            var c', r' := Join(c, x, LeftPart(r, 0)), RightPart(r, 0);
            && |c'.items| == |c.items| + 1 && |r'.items| == |r.items| - 1
            && StealRight(t, i) == Node(t.items[i := r.items[0]], t.children[i := c'][i + 1 := r'])
  {
    var c, x, r := t.children[i], t.items[i], t.children[i + 1];
    assert Join(c, x, LeftPart(r, 0)).items == c.items + [x];
  }

  lemma StealLeftShape<T>(t: Tree<T>, i: nat, h: nat, d: nat)
    requires d >= 2 && h > 0 && Kids(t, h, d) && 0 < i <= |t.items|
    requires |t.children[i - 1].items| > MinItems(d) && |t.children[i].items| <= MinItems(d)
    ensures Kids(StealLeft(t, i), h, d) && Flat(StealLeft(t, i)) == Flat(t)
  {
    hide Flat, Kids, LeftPart, RightPart, Join, StealLeft;
    ChildWF(t, i, h, d);
    ChildWF(t, i - 1, h, d);
    Arity(t, h, d);
    StealLeftIs(t, i);
    var l, x, c := t.children[i - 1], t.items[i - 1], t.children[i];
    var m := |l.items| - 1;
    var l', c' := LeftPart(l, m), Join(RightPart(l, m), x, c);
    SplitParts(l, m, h - 1, d);
    JoinKids(RightPart(l, m), x, c, h - 1, d);
    JoinFlat(RightPart(l, m), x, c, h - 1, d);
    Reassociate(Flat(l'), l.items[m], Flat(RightPart(l, m)), x, Flat(c));
    ShiftBoundary(t, i - 1, l', l.items[m], c', h, d);
  }

  lemma StealRightShape<T>(t: Tree<T>, i: nat, h: nat, d: nat)
    requires d >= 2 && h > 0 && Kids(t, h, d) && i < |t.items|
    requires |t.children[i + 1].items| > MinItems(d) && |t.children[i].items| <= MinItems(d)
    ensures Kids(StealRight(t, i), h, d) && Flat(StealRight(t, i)) == Flat(t)
  {
    hide Flat, Kids, LeftPart, RightPart, Join, StealRight;
    ChildWF(t, i, h, d);
    ChildWF(t, i + 1, h, d);
    Arity(t, h, d);
    StealRightIs(t, i);
    var c, x, r := t.children[i], t.items[i], t.children[i + 1];
    var c', r' := Join(c, x, LeftPart(r, 0)), RightPart(r, 0);
    SplitParts(r, 0, h - 1, d);
    JoinKids(c, x, LeftPart(r, 0), h - 1, d);
    JoinFlat(c, x, LeftPart(r, 0), h - 1, d);
    Reassociate(Flat(c), x, Flat(LeftPart(r, 0)), r.items[0], Flat(r'));
    ShiftBoundary(t, i, c', r.items[0], r', h, d);
  }

  lemma MergeShape<T>(t: Tree<T>, i: nat, h: nat, d: nat)
    requires d >= 2 && h > 0 && Kids(t, h, d) && i < |t.items|
    requires |t.children[i].items| <= MinItems(d) && |t.children[i + 1].items| <= MinItems(d)
    ensures Kids(Merge(t, i), h, d) && Flat(Merge(t, i)) == Flat(t)
  {
    var l, r := t.children[i], t.children[i + 1];
    JoinKids(l, t.items[i], r, h - 1, d);
    JoinFlat(l, t.items[i], r, h - 1, d);
    AroundTwo(t, i);
    ReplaceTwoByOne(t, i, Join(l, t.items[i], r));
  }

  /** Growing rearranges a node without changing its contents. */
  lemma GrowShape<T>(t: Tree<T>, i: nat, h: nat, d: nat)
    requires d >= 2 && h > 0 && Kids(t, h, d) && i <= |t.items| && |t.items| > 0
    requires |t.children[i].items| <= MinItems(d)
    ensures var g := Grow(t, i, d);
            && Kids(g, h, d) && Flat(g) == Flat(t) && Removable(g, h, d)
            && |t.items| - 1 <= |g.items| <= |t.items|
  {
    if i > 0 && |t.children[i - 1].items| > MinItems(d) {
      StealLeftShape(t, i, h, d);
    } else if i < |t.items| && |t.children[i + 1].items| > MinItems(d) {
      StealRightShape(t, i, h, d);
    } else {
      MergeShape(t, if i >= |t.items| then i - 1 else i, h, d);
    }
  }

  /** After growing, the retry finds a child with items to spare: it does not grow again. */
  lemma GrowSuffices<T(!new)>(lt: (T, T) -> bool, t: Tree<T>, what: Removal<T>, h: nat, d: nat)
    requires StrictWeakOrder(lt) && d >= 2 && h > 0 && Kids(t, h, d) && Sorted(lt, Flat(t)) && |t.items| > 0
    requires NeedsGrow(lt, t, what, d)
    ensures !NeedsGrow(lt, Grow(t, Where(lt, t, what).0, d), what, d)
  {
    hide Flat, Row, LRow, Left, Right, Sorted;
    var (i, found) := Where(lt, t, what);
    GrownIsBig(t, i, h, d);
    hide Kids, WF, Grow;
    if what.RemoveItem? {
      ItemsSorted(lt, t);
      FindSpec(lt, t.items, what.item);
      GrowFind(lt, t, what.item, i, found, h, d);
    }
  }

  /** Where the grown child sits afterwards. */
  function GrownAt<T>(t: Tree<T>, i: nat, d: nat): int
    requires |t.children| == |t.items| + 1 && i <= |t.items|
  {
    if i == |t.items| && !(i > 0 && |t.children[i - 1].items| > MinItems(d)) then i - 1 else i
  }

  lemma GrownIsBig<T>(t: Tree<T>, i: nat, h: nat, d: nat)
    requires d >= 2 && h > 0 && Kids(t, h, d) && i <= |t.items| && |t.items| > 0
    ensures var g := Grow(t, i, d);
            var j := GrownAt(t, i, d);
            && 0 <= j < |g.children| == |g.items| + 1 && |g.children[j].items| > MinItems(d)
            && (i == 0 ==> j == 0) && (i == |t.items| ==> j == |g.items|)
  {
    ChildWF(t, i, h, d);
  }

  /** Searching again after growing leads to the grown child. */
  lemma GrowFind<T(!new)>(lt: (T, T) -> bool, t: Tree<T>, x: T, i: nat, found: bool, h: nat, d: nat)
    requires StrictWeakOrder(lt) && d >= 2 && h > 0 && Kids(t, h, d) && Sorted(lt, Flat(t)) && |t.items| > 0
    requires Cut(lt, t.items, x, i, found)
    ensures Find(lt, Grow(t, i, d).items, x).0 == GrownAt(t, i, d)
  {
    Arity(t, h, d);
    hide Flat, Kids, Sorted, StrictWeakOrder, Cut, Find, StealLeft, StealRight;
    if i > 0 && |t.children[i - 1].items| > MinItems(d) {
      StealLeftFind(lt, t, x, i, found, h, d);
    } else if i < |t.items| && |t.children[i + 1].items| > MinItems(d) {
      StealRightFind(lt, t, x, i, found, h, d);
    } else {
      MergeFind(lt, t, x, i, found, if i >= |t.items| then i - 1 else i);
    }
  }

  lemma MergeFind<T(!new)>(lt: (T, T) -> bool, t: Tree<T>, x: T, i: nat, found: bool, m: nat)
    requires StrictWeakOrder(lt) && |t.children| == |t.items| + 1 && m < |t.items|
    requires Cut(lt, t.items, x, i, found) && (m == i || (m == i - 1 && i == |t.items|))
    ensures Find(lt, Merge(t, m).items, x) == (m, false)
  {
    FindUnique(lt, Merge(t, m).items, x, m, false);
  }

  lemma StealLeftFind<T(!new)>(lt: (T, T) -> bool, t: Tree<T>, x: T, i: nat, found: bool, h: nat, d: nat)
    requires StrictWeakOrder(lt) && h > 0 && Kids(t, h, d) && Sorted(lt, Flat(t))
    requires Cut(lt, t.items, x, i, found) && i > 0 && |t.children[i - 1].items| > 0
    ensures Find(lt, StealLeft(t, i).items, x) == (i, found)
  {
    EndsInside(lt, t, i - 1, h, d);
    FindUnique(lt, StealLeft(t, i).items, x, i, found);
  }

  lemma StealRightFind<T(!new)>(lt: (T, T) -> bool, t: Tree<T>, x: T, i: nat, found: bool, h: nat, d: nat)
    requires StrictWeakOrder(lt) && h > 0 && Kids(t, h, d) && Sorted(lt, Flat(t))
    requires Cut(lt, t.items, x, i, found) && i < |t.items| && |t.children[i + 1].items| > 0
    ensures Find(lt, StealRight(t, i).items, x) == (i, false)
  {
    EndsInside(lt, t, i + 1, h, d);
    FindUnique(lt, StealRight(t, i).items, x, i, false);
  }

  /** The outermost items of a child lie between the separators around it. */
  lemma EndsInside<T(!new)>(lt: (T, T) -> bool, t: Tree<T>, i: nat, h: nat, d: nat)
    requires h > 0 && Kids(t, h, d) && Sorted(lt, Flat(t)) && i <= |t.items| && |t.children[i].items| > 0
    ensures i < |t.items| ==> lt(t.children[i].items[|t.children[i].items| - 1], t.items[i])
    ensures i > 0 ==> lt(t.items[i - 1], t.children[i].items[0])
  {
    var c := t.children[i];
    ChildWF(t, i, h, d);
    Separated(lt, t, i);
    ItemInside(c, 0, h - 1, d);
    ItemInside(c, |c.items| - 1, h - 1, d);
  }

  lemma ItemInside<T>(t: Tree<T>, j: nat, h: nat, d: nat)
    requires Kids(t, h, d) && j < |t.items|
    ensures t.items[j] in Flat(t)
  {
    if h > 0 { AroundTwo(t, j); }
  }

  /** `node.remove`.  The retry after growing a child terminates because the grown
      child has items to spare, which the second component of the measure records. */
  function Remove<T(!new)>(lt: (T, T) -> bool, t: Tree<T>, what: Removal<T>, ghost h: nat, d: nat): (Tree<T>, Option<T>)
    requires StrictWeakOrder(lt) && d >= 2 && Kids(t, h, d) && Sorted(lt, Flat(t)) && Removable(t, h, d)
    decreases h, if NeedsGrow(lt, t, what, d) then 1 else 0
  {
    var (i, found) := Where(lt, t, what);
    if |t.children| == 0 then
      match what
      case RemoveMax => (t.(items := t.items[..|t.items| - 1]), Some(t.items[|t.items| - 1]))
      case RemoveMin => (t.(items := t.items[1..]), Some(t.items[0]))
      case RemoveItem(_) =>
        if found then (t.(items := t.items[..i] + t.items[i + 1..]), Some(t.items[i])) else (t, None)
    else if |t.children[i].items| <= MinItems(d) then
      GrowShape(t, i, h, d);
      GrowSuffices(lt, t, what, h, d);
      Remove(lt, Grow(t, i, d), what, h, d)
    else
      ChildWF(t, i, h, d);
      Separated(lt, t, i);
      if found then
        var (c, pred) := Remove(lt, t.children[i], RemoveMax, h - 1, d);
        (Node(if pred.Some? then t.items[i := pred.value] else t.items, t.children[i := c]), Some(t.items[i]))
      else
        var (c, out) := Remove(lt, t.children[i], what, h - 1, d);
        (t.(children := t.children[i := c]), out)
  }

  /** Deletion keeps the shape; a node loses at most one item, and none when the
      child it descends into had items to spare. */
  lemma {:induction false} RemoveShape<T(!new)>(lt: (T, T) -> bool, t: Tree<T>, what: Removal<T>, h: nat, d: nat)
    requires StrictWeakOrder(lt) && d >= 2 && Kids(t, h, d) && Sorted(lt, Flat(t)) && Removable(t, h, d)
    ensures var t' := Remove(lt, t, what, h, d).0;
            && Kids(t', h, d) && |t.items| - 1 <= |t'.items| <= |t.items|
            && (h > 0 && !NeedsGrow(lt, t, what, d) ==> |t'.items| == |t.items|)
    decreases h, if NeedsGrow(lt, t, what, d) then 1 else 0
  {
    hide StrictWeakOrder, Sorted, Flat, Find, Grow, Remove, Kids;
    if h == 0 {
      RemoveHere(lt, t, what, d);
      LeafKids(t, SetRemove(lt, t.items, what).0, d);
    } else {
      Arity(t, h, d);
      var (i, found) := Where(lt, t, what);
      if |t.children[i].items| <= MinItems(d) {
        GrowShape(t, i, h, d);
        RemoveRetries(lt, t, what, h, d);
        RemoveShape(lt, Grow(t, i, d), what, h, d);
      } else {
        DescentUnfolds(lt, t, what, h, d, i, found);
        var sub := if found then RemoveMax else what;
        ChildWF(t, i, h, d);
        RemoveShape(lt, t.children[i], sub, h - 1, d);
        var c := Remove(lt, t.children[i], sub, h - 1, d).0;
        ReplaceChildKids(t, i, c, h, d);
        var t' := t.(children := t.children[i := c]);
        SameKids(t', Remove(lt, t, what, h, d).0, h, d);
      }
    }
  }

  /** Deletion refines deletion from the sorted set of the tree's items. */
  lemma {:induction false} RemoveRefines<T(!new)>(lt: (T, T) -> bool, t: Tree<T>, what: Removal<T>, h: nat, d: nat)
    requires StrictWeakOrder(lt) && d >= 2 && Kids(t, h, d) && Sorted(lt, Flat(t)) && Removable(t, h, d)
    ensures var (t', out) := Remove(lt, t, what, h, d);
            (Flat(t'), out) == SetRemove(lt, Flat(t), what)
    decreases h, if NeedsGrow(lt, t, what, d) then 2 else 1
  {
    if h > 0 {
      var (i, found) := Where(lt, t, what);
      if |t.children[i].items| <= MinItems(d) {
        GrowShape(t, i, h, d);
        GrowSuffices(lt, t, what, h, d);
        RemoveRefines(lt, Grow(t, i, d), what, h, d);
      } else {
        RemoveRefinesDescent(lt, t, what, h, d, i, found);
      }
    }
  }

  lemma {:induction false} RemoveRefinesDescent<T(!new)>(lt: (T, T) -> bool, t: Tree<T>, what: Removal<T>, h: nat,
                                                         d: nat, i: nat, found: bool)
    requires StrictWeakOrder(lt) && d >= 2 && h > 0 && Kids(t, h, d) && Sorted(lt, Flat(t)) && Removable(t, h, d)
    requires Where(lt, t, what) == (i, found) && |t.children[i].items| > MinItems(d)
    ensures var (t', out) := Remove(lt, t, what, h, d);
            (Flat(t'), out) == SetRemove(lt, Flat(t), what)
    decreases h, 0
  {
    hide StrictWeakOrder, Flat, Kids, Sorted, Remove, Find;
    Arity(t, h, d);
    DescentUnfolds(lt, t, what, h, d, i, found);
    var sub := if found then RemoveMax else what;
    NonEmpty(t.children[i], h - 1, d);
    RemoveRefines(lt, t.children[i], sub, h - 1, d);
    var (c, out) := Remove(lt, t.children[i], sub, h - 1, d);
    if found {
      RemoveSeparator(lt, t, what.item, i, c, out.value);
    } else {
      RemoveBelow(lt, t, what, i, c);
    }
  }

  /** Deletion from a leaf. */
  lemma RemoveHere<T(!new)>(lt: (T, T) -> bool, t: Tree<T>, what: Removal<T>, d: nat)
    requires StrictWeakOrder(lt) && d >= 2 && Kids(t, 0, d) && Sorted(lt, Flat(t)) && |t.items| > 0
    ensures Remove(lt, t, what, 0, d) == (t.(items := SetRemove(lt, t.items, what).0), SetRemove(lt, t.items, what).1)
  {
  }

  /** Deletion below a child that must grow first is deletion from the rearranged node. */
  lemma RemoveRetries<T(!new)>(lt: (T, T) -> bool, t: Tree<T>, what: Removal<T>, h: nat, d: nat)
    requires StrictWeakOrder(lt) && d >= 2 && h > 0 && Kids(t, h, d) && Sorted(lt, Flat(t)) && |t.items| > 0
    requires NeedsGrow(lt, t, what, d)
    ensures var g := Grow(t, Where(lt, t, what).0, d);
            && Kids(g, h, d) && Sorted(lt, Flat(g)) && Removable(g, h, d) && !NeedsGrow(lt, g, what, d)
            && Remove(lt, t, what, h, d) == Remove(lt, g, what, h, d)
  {
    GrowShape(t, Where(lt, t, what).0, h, d);
    GrowSuffices(lt, t, what, h, d);
  }

  lemma DescentUnfolds<T(!new)>(lt: (T, T) -> bool, t: Tree<T>, what: Removal<T>, h: nat, d: nat, i: nat, found: bool)
    requires StrictWeakOrder(lt) && d >= 2 && h > 0 && Kids(t, h, d) && Sorted(lt, Flat(t)) && Removable(t, h, d)
    requires Where(lt, t, what) == (i, found) && |t.children[i].items| > MinItems(d)
    ensures Kids(t.children[i], h - 1, d) && Sorted(lt, Flat(t.children[i]))
    ensures var (c, out) := Remove(lt, t.children[i], if found then RemoveMax else what, h - 1, d);
            Remove(lt, t, what, h, d)
            == if found then (Node(if out.Some? then t.items[i := out.value] else t.items, t.children[i := c]),
                Some(t.items[i]))
               else (t.(children := t.children[i := c]), out)
  {
    ChildWF(t, i, h, d);
    assert Sorted(lt, Flat(t.children[i])) by { Separated(lt, t, i); }
  }

  lemma NonEmpty<T>(t: Tree<T>, h: nat, d: nat)
    requires Kids(t, h, d) && |t.items| > 0
    ensures Flat(t) != []
  {
    ItemInside(t, 0, h, d);
  }

  /** Replacing a separator by its predecessor, taken out of the child before it. */
  lemma SeparatorReplaced<T>(t: Tree<T>, i: nat, c: Tree<T>, pred: T)
    requires |t.children| == |t.items| + 1 && i < |t.items| && Flat(t.children[i]) == Flat(c) + [pred]
    ensures Flat(Node(t.items[i := pred], t.children[i := c]))
         == Left(t, i) + Flat(t.children[i]) + (Flat(t.children[i + 1]) + Right(t, i + 1))
  {
    hide Flat, Row, LRow;
    var t' := Node(t.items[i := pred], t.children[i := c]);
    AroundItem(t', i);
    assert Left(t', i) == Left(t, i) by {
      assert t'.items[..i] == t.items[..i] && t'.children[..i] == t.children[..i];
    }
    assert Right(t', i + 1) == Right(t, i + 1) by {
      assert t'.items[i + 1..] == t.items[i + 1..] && t'.children[i + 2..] == t.children[i + 2..];
    }
  }

  /** Replacing a separator by its predecessor removes the separator. */
  lemma RemoveSeparator<T(!new)>(lt: (T, T) -> bool, t: Tree<T>, x: T, i: nat, c: Tree<T>, pred: T)
    requires StrictWeakOrder(lt) && Sorted(lt, Flat(t)) && |t.children| == |t.items| + 1
    requires i < |t.items| && Find(lt, t.items, x) == (i, true)
    requires Flat(t.children[i]) == Flat(c) + [pred]
    ensures SetRemove(lt, Flat(t), RemoveItem(x))
         == (Flat(Node(t.items[i := pred], t.children[i := c])), Some(t.items[i]))
  {
    hide StrictWeakOrder, Sorted, Flat, Left, Right, Find, Below, Above;
    var a := Left(t, i) + Flat(t.children[i]);
    var b := Flat(t.children[i + 1]) + Right(t, i + 1);
    AroundItem(t, i);
    SeparatorReplaced(t, i, c, pred);
    FindSides(lt, t, x);
    HitContext(lt, a, t.items[i], b, x);
  }

  /** Deleting from the child where the item belongs deletes from the whole node. */
  lemma RemoveBelow<T(!new)>(lt: (T, T) -> bool, t: Tree<T>, what: Removal<T>, i: nat, c: Tree<T>)
    requires StrictWeakOrder(lt) && Sorted(lt, Flat(t)) && |t.children| == |t.items| + 1
    requires Where(lt, t, what) == (i, false)
    requires Flat(t.children[i]) != [] && Flat(c) == SetRemove(lt, Flat(t.children[i]), what).0
    ensures SetRemove(lt, Flat(t), what)
         == (Flat(t.(children := t.children[i := c])), SetRemove(lt, Flat(t.children[i]), what).1)
  {
    Around(t, i);
    ReplaceChild(t, i, c);
    var a, m, b := Left(t, i), Flat(t.children[i]), Right(t, i);
    match what {
      case RemoveItem(x) =>
        FindSides(lt, t, x);
        RemoveContext(lt, a, m, b, x);
      case _ =>
        EndsContext(lt, a, m, b);
    }
  }

  // ---------- the root ----------

  /** A full root becomes a new root over its two halves. */
  function GrowRoot<T>(t: Tree<T>, d: nat): Tree<T>
    requires d >= 1 && |t.items| >= MaxItems(d)
  {
    var k := MaxItems(d) / 2;
    Node([t.items[k]], [LeftPart(t, k), RightPart(t, k)])
  }

  lemma GrowRootShape<T>(t: Tree<T>, h: nat, d: nat)
    requires RootOk(t, h, d) && |t.items| >= MaxItems(d)
    ensures Kids(GrowRoot(t, d), h + 1, d) && Flat(GrowRoot(t, d)) == Flat(t)
  {
    hide Flat;
    var k := MaxItems(d) / 2;
    SplitParts(t, k, h, d);
    PairFlat(LeftPart(t, k), t.items[k], RightPart(t, k));
    PairKids(LeftPart(t, k), t.items[k], RightPart(t, k), h, d);
  }

  lemma PairFlat<T>(l: Tree<T>, x: T, r: Tree<T>)
    ensures Flat(Node([x], [l, r])) == Flat(l) + [x] + Flat(r)
  {
    assert [l, r][1..] == [r] && [r][1..] == [] && [x][1..] == [];
    assert Row([x], [r]) == [x] + Flat(r) + Row([], []);
  }

  lemma PairKids<T>(l: Tree<T>, x: T, r: Tree<T>, h: nat, d: nat)
    requires WF(l, h, d) && WF(r, h, d)
    ensures Kids(Node([x], [l, r]), h + 1, d)
  {
  }

  /** Insertion into the (possibly grown) root yields a root holding the updated set. */
  lemma InsertRoot<T(!new)>(lt: (T, T) -> bool, t: Tree<T>, x: T, h: nat, d: nat)
    requires StrictWeakOrder(lt) && d >= 2 && Kids(t, h, d) && Sorted(lt, Flat(t)) && |t.items| < MaxItems(d)
    requires h > 0 ==> |t.items| > 0
    ensures var (t', out) := Insert(lt, t, x, h, d);
            && RootOk(t', h, d) && Sorted(lt, Flat(t'))
            && Flat(t') == SetInsert(lt, Flat(t), x).0 && out == SetInsert(lt, Flat(t), x).1
            && |Flat(t')| == |Flat(t)| + (if out.None? then 1 else 0)
  {
    hide StrictWeakOrder, Kids, Flat, Sorted, Insert, SetInsert;
    InsertShape(lt, t, x, h, d);
    InsertRefines(lt, t, x, h, d);
    SetInsertMeaning(lt, Flat(t), x);
  }

  /** What is left when the root loses its last item: its only child, or itself. */
  function ShrinkRoot<T>(t: Tree<T>): Tree<T> {
    if |t.items| == 0 && |t.children| > 0 then t.children[0] else t
  }

  /** Deletion at the root, with the root collapsed when it runs empty, yields a root
      holding the updated set. */
  lemma RemoveRoot<T(!new)>(lt: (T, T) -> bool, t: Tree<T>, what: Removal<T>, h: nat, d: nat)
    requires StrictWeakOrder(lt) && RootOk(t, h, d) && Sorted(lt, Flat(t)) && |t.items| > 0
    ensures var (t', out) := Remove(lt, t, what, h, d);
            var h' := if |t'.items| == 0 && |t'.children| > 0 then h - 1 else h;
            && Kids(t', h, d) && h' >= 0 && RootOk(ShrinkRoot(t'), h', d)
            && Flat(ShrinkRoot(t')) == SetRemove(lt, Flat(t), what).0 && out == SetRemove(lt, Flat(t), what).1
            && Sorted(lt, Flat(ShrinkRoot(t')))
            && |Flat(ShrinkRoot(t'))| == |Flat(t)| - (if out.Some? then 1 else 0)
  {
    hide StrictWeakOrder, Flat, Sorted, Remove, SetRemove;
    RemoveShape(lt, t, what, h, d);
    RemoveRefines(lt, t, what, h, d);
    SetRemoveMeaning(lt, Flat(t), what);
    var t' := Remove(lt, t, what, h, d).0;
    if |t'.items| == 0 && |t'.children| > 0 {
      ChildWF(t', 0, h, d);
      OnlyChild(t');
    }
  }

  lemma OnlyChild<T>(t: Tree<T>)
    requires |t.items| == 0 && |t.children| == 1
    ensures Flat(t) == Flat(t.children[0])
  {
  }
}
