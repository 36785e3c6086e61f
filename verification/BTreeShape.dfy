/**
 A B-tree as a value: the shape every node keeps, the in-order sequence of its
 items, and the two rearrangements (split and join) every update is made of.
 */
module BTreeShape {
  import opened SortedSet

  datatype Tree<+T> = Node(items: seq<T>, children: seq<Tree<T>>)

  function MinItems(d: nat): int { d - 1 }
  function MaxItems(d: nat): int { 2 * d - 1 }

  /** A node all of whose leaves are `h` levels down and whose descendants hold
      between `MinItems` and `MaxItems` items; its own item count is free. */
  predicate Kids<T>(t: Tree<T>, h: nat, d: nat)
    decreases h, 0
  {
    if h == 0 then t.children == []
    else |t.children| == |t.items| + 1 && forall i :: 0 <= i < |t.children| ==> WF(t.children[i], h - 1, d)
  }

  predicate WF<T>(t: Tree<T>, h: nat, d: nat)
    decreases h, 1
  {
    MinItems(d) <= |t.items| <= MaxItems(d) && Kids(t, h, d)
  }

  /** A root: at most `MaxItems` items, and at least one unless it is a leaf. */
  predicate RootOk<T>(t: Tree<T>, h: nat, d: nat) {
    d >= 2 && Kids(t, h, d) && |t.items| <= MaxItems(d) && (h > 0 ==> |t.items| > 0)
  }

  // ---------- in-order items ----------

  function Flat<T>(t: Tree<T>): seq<T> {
    if |t.children| != |t.items| + 1 then t.items
    else Flat(t.children[0]) + Row(t.items, t.children[1..])
  }

  /** The items of `its`, each followed by the contents of the child to its right. */
  function Row<T>(its: seq<T>, cs: seq<Tree<T>>): seq<T>
    requires |its| == |cs|
    decreases cs
  {
    if cs == [] then [] else [its[0]] + Flat(cs[0]) + Row(its[1..], cs[1..])
  }

  /** The contents of each child, followed by the item to its right. */
  function LRow<T>(cs: seq<Tree<T>>, its: seq<T>): seq<T>
    requires |its| == |cs|
  {
    if cs == [] then []
    else LRow(cs[..|cs| - 1], its[..|its| - 1]) + Flat(cs[|cs| - 1]) + [its[|its| - 1]]
  }

  function Left<T>(t: Tree<T>, i: nat): seq<T>
    requires |t.children| == |t.items| + 1 && i <= |t.items|
  {
    LRow(t.children[..i], t.items[..i])
  }

  function Right<T>(t: Tree<T>, i: nat): seq<T>
    requires |t.children| == |t.items| + 1 && i <= |t.items|
  {
    Row(t.items[i..], t.children[i + 1..])
  }

  /** The contents of a node around its child `i`. */
  lemma {:induction false} Around<T>(t: Tree<T>, i: nat)
    requires |t.children| == |t.items| + 1 && i <= |t.items|
    ensures Flat(t) == Left(t, i) + Flat(t.children[i]) + Right(t, i)
  {
    if i == 0 {
      assert t.items[0..] == t.items;
    } else {
      Around(t, i - 1);
      RightStep(t, i - 1);
      LeftStep(t, i - 1);
    }
  }

  lemma LeftStep<T>(t: Tree<T>, i: nat)
    requires |t.children| == |t.items| + 1 && i < |t.items|
    ensures Left(t, i + 1) == Left(t, i) + Flat(t.children[i]) + [t.items[i]]
  {
    assert t.children[..i + 1][..i] == t.children[..i];
    assert t.items[..i + 1][..i] == t.items[..i];
  }

  lemma RightStep<T>(t: Tree<T>, i: nat)
    requires |t.children| == |t.items| + 1 && i < |t.items|
    ensures Right(t, i) == [t.items[i]] + Flat(t.children[i + 1]) + Right(t, i + 1)
  {
    assert t.items[i..][1..] == t.items[i + 1..];
    assert t.children[i + 1..][1..] == t.children[i + 2..];
  }

  /** The contents of a node around two neighbouring children. */
  lemma AroundTwo<T>(t: Tree<T>, i: nat)
    requires |t.children| == |t.items| + 1 && i < |t.items|
    ensures Flat(t) == Left(t, i) + (Flat(t.children[i]) + [t.items[i]] + Flat(t.children[i + 1])) + Right(t, i + 1)
  {
    Around(t, i);
    RightStep(t, i);
  }

  /** The contents of a node around its item `i`. */
  lemma AroundItem<T>(t: Tree<T>, i: nat)
    requires |t.children| == |t.items| + 1 && i < |t.items|
    ensures Flat(t) == (Left(t, i) + Flat(t.children[i])) + [t.items[i]] + (Flat(t.children[i + 1]) + Right(t, i + 1))
  {
    AroundTwo(t, i);
  }

  // ---------- split and join ----------

  /** `split(i)`: what stays, the item at `i`, and the new node to its right. */
  function LeftPart<T>(t: Tree<T>, i: nat): Tree<T>
    requires i < |t.items|
  {
    Node(t.items[..i], if i < |t.children| then t.children[..i + 1] else t.children)
  }

  function RightPart<T>(t: Tree<T>, i: nat): Tree<T>
    requires i < |t.items|
  {
    Node(t.items[i + 1..], if i < |t.children| then t.children[i + 1..] else [])
  }

  /** The merge of two neighbours around the item between them. */
  function Join<T>(l: Tree<T>, x: T, r: Tree<T>): Tree<T> {
    Node(l.items + [x] + r.items, l.children + r.children)
  }

  lemma JoinKids<T>(l: Tree<T>, x: T, r: Tree<T>, h: nat, d: nat)
    requires Kids(l, h, d) && Kids(r, h, d)
    ensures Kids(Join(l, x, r), h, d)
  {
  }

  lemma JoinFlat<T>(l: Tree<T>, x: T, r: Tree<T>, h: nat, d: nat)
    requires Kids(l, h, d) && Kids(r, h, d)
    ensures Flat(Join(l, x, r)) == Flat(l) + [x] + Flat(r)
  {
    if h > 0 {
      JoinRows(l, x, r);
    }
  }

  lemma FlatEnds<T>(t: Tree<T>)
    requires |t.children| == |t.items| + 1
    ensures Flat(t) == Flat(t.children[0]) + Row(t.items, t.children[1..])
    ensures Flat(t) == Left(t, |t.items|) + Flat(t.children[|t.items|])
  {
    Around(t, |t.items|);
    assert Right(t, |t.items|) == [];
  }

  lemma JoinRows<T>(l: Tree<T>, x: T, r: Tree<T>)
    requires |l.children| == |l.items| + 1 && |r.children| == |r.items| + 1
    ensures Flat(Join(l, x, r)) == Flat(l) + [x] + Flat(r)
  {
    hide Flat, Row, LRow;
    var t := Join(l, x, r);
    var i := |l.items|;
    AroundTwo(t, i);
    FlatEnds(l);
    FlatEnds(r);
    assert Left(t, i) == Left(l, i) by {
      assert t.children[..i] == l.children[..i] && t.items[..i] == l.items[..i];
    }
    assert Right(t, i + 1) == Row(r.items, r.children[1..]) by {
      assert t.items[i + 1..] == r.items && t.children[i + 2..] == r.children[1..];
    }
  }

  lemma SplitParts<T>(t: Tree<T>, i: nat, h: nat, d: nat)
    requires Kids(t, h, d) && i < |t.items|
    ensures Kids(LeftPart(t, i), h, d) && Kids(RightPart(t, i), h, d)
    ensures Join(LeftPart(t, i), t.items[i], RightPart(t, i)) == t
    ensures Flat(t) == Flat(LeftPart(t, i)) + [t.items[i]] + Flat(RightPart(t, i))
  {
    assert Join(LeftPart(t, i), t.items[i], RightPart(t, i)) == t;
    JoinFlat(LeftPart(t, i), t.items[i], RightPart(t, i), h, d);
  }

  // ---------- replacing children ----------

  /** Replacing child `i` replaces its stretch of the contents. */
  lemma ReplaceChild<T>(t: Tree<T>, i: nat, c: Tree<T>)
    requires |t.children| == |t.items| + 1 && i <= |t.items|
    ensures Flat(t.(children := t.children[i := c])) == Left(t, i) + Flat(c) + Right(t, i)
  {
    var t' := t.(children := t.children[i := c]);
    Around(t', i);
    assert t'.children[..i] == t.children[..i] && t'.children[i + 1..] == t.children[i + 1..];
  }

  /** Replacing two neighbours and the item between them. */
  lemma ReplaceTwo<T>(t: Tree<T>, i: nat, l: Tree<T>, x: T, r: Tree<T>)
    requires |t.children| == |t.items| + 1 && i < |t.items|
    ensures Flat(Node(t.items[i := x], t.children[i := l][i + 1 := r]))
         == Left(t, i) + (Flat(l) + [x] + Flat(r)) + Right(t, i + 1)
  {
    var t' := Node(t.items[i := x], t.children[i := l][i + 1 := r]);
    AroundTwo(t', i);
    assert t'.children[..i] == t.children[..i] && t'.items[..i] == t.items[..i];
    assert t'.items[i + 1..] == t.items[i + 1..] && t'.children[i + 2..] == t.children[i + 2..];
  }

  /** Putting one child where two neighbours and the item between them were. */
  lemma ReplaceTwoByOne<T>(t: Tree<T>, i: nat, c: Tree<T>)
    requires |t.children| == |t.items| + 1 && i < |t.items|
    ensures Flat(Node(t.items[..i] + t.items[i + 1..], t.children[..i] + [c] + t.children[i + 2..]))
         == Left(t, i) + Flat(c) + Right(t, i + 1)
  {
    var t' := Node(t.items[..i] + t.items[i + 1..], t.children[..i] + [c] + t.children[i + 2..]);
    Around(t', i);
    assert t'.children[..i] == t.children[..i] && t'.items[..i] == t.items[..i];
    assert t'.items[i..] == t.items[i + 1..] && t'.children[i + 1..] == t.children[i + 2..];
  }

  /** Putting two neighbours around an item where one child was. */
  lemma ReplaceOneByTwo<T>(t: Tree<T>, i: nat, l: Tree<T>, x: T, r: Tree<T>)
    requires |t.children| == |t.items| + 1 && i <= |t.items|
    ensures Flat(Node(t.items[..i] + [x] + t.items[i..], t.children[..i] + [l, r] + t.children[i + 1..]))
         == Left(t, i) + (Flat(l) + [x] + Flat(r)) + Right(t, i)
  {
    var t' := Node(t.items[..i] + [x] + t.items[i..], t.children[..i] + [l, r] + t.children[i + 1..]);
    AroundTwo(t', i);
    assert t'.children[..i] == t.children[..i] && t'.items[..i] == t.items[..i];
    assert t'.items[i + 1..] == t.items[i..] && t'.children[i + 2..] == t.children[i + 1..];
  }

  lemma Arity<T>(t: Tree<T>, h: nat, d: nat)
    requires h > 0 && Kids(t, h, d)
    ensures |t.children| == |t.items| + 1
  {
  }

  lemma ChildWF<T>(t: Tree<T>, i: nat, h: nat, d: nat)
    requires h > 0 && Kids(t, h, d) && i <= |t.items|
    ensures WF(t.children[i], h - 1, d) && Kids(t.children[i], h - 1, d)
  {
  }

  lemma LeafKids<T>(t: Tree<T>, items': seq<T>, d: nat)
    requires Kids(t, 0, d)
    ensures Kids(t.(items := items'), 0, d)
  {
  }

  lemma SameKids<T>(t: Tree<T>, t': Tree<T>, h: nat, d: nat)
    requires Kids(t, h, d) && t'.children == t.children && |t'.items| == |t.items|
    ensures Kids(t', h, d)
  {
  }

  lemma ReplaceChildKids<T>(t: Tree<T>, i: nat, c: Tree<T>, h: nat, d: nat)
    requires h > 0 && Kids(t, h, d) && i <= |t.items| && WF(c, h - 1, d)
    ensures Kids(t.(children := t.children[i := c]), h, d)
  {
  }

  lemma ReplaceOneByTwoKids<T>(t: Tree<T>, i: nat, l: Tree<T>, x: T, r: Tree<T>, h: nat, d: nat)
    requires h > 0 && Kids(t, h, d) && i <= |t.items| && WF(l, h - 1, d) && WF(r, h - 1, d)
    ensures Kids(Node(t.items[..i] + [x] + t.items[i..], t.children[..i] + [l, r] + t.children[i + 1..]), h, d)
  {
  }

  // ---------- order ----------

  /** In a tree with sorted contents, the items of a node are sorted and separate
      the contents of its children. */
  lemma {:induction false} Separated<T(!new)>(lt: (T, T) -> bool, t: Tree<T>, i: nat)
    requires Sorted(lt, Flat(t)) && |t.children| == |t.items| + 1 && i <= |t.items|
    ensures Sorted(lt, Flat(t.children[i]))
    ensures forall k, j :: 0 <= k < |Flat(t.children[i])| && i <= j < |t.items| ==>
            lt(Flat(t.children[i])[k], t.items[j])
    ensures forall k, j :: 0 <= k < |Flat(t.children[i])| && 0 <= j < i ==> lt(t.items[j], Flat(t.children[i])[k])
  {
    Around(t, i);
    SortedParts(lt, Left(t, i), Flat(t.children[i]), Right(t, i));
    LeftItems(t, i);
    RightItems(t, i);
  }

  /** Every item left of child `i` occurs in `Left`. */
  lemma {:induction false} LeftItems<T>(t: Tree<T>, i: nat)
    requires |t.children| == |t.items| + 1 && i <= |t.items|
    ensures forall j :: 0 <= j < i ==> t.items[j] in Left(t, i)
  {
    if i > 0 {
      LeftItems(t, i - 1);
      LeftStep(t, i - 1);
    }
  }

  lemma {:induction false} RightItems<T>(t: Tree<T>, i: nat)
    requires |t.children| == |t.items| + 1 && i <= |t.items|
    ensures forall j :: i <= j < |t.items| ==> t.items[j] in Right(t, i)
    decreases |t.items| - i
  {
    if i < |t.items| {
      RightItems(t, i + 1);
      RightStep(t, i);
    }
  }

  lemma ItemsSorted<T(!new)>(lt: (T, T) -> bool, t: Tree<T>)
    requires Sorted(lt, Flat(t))
    ensures Sorted(lt, t.items)
  {
    if |t.children| == |t.items| + 1 {
      forall i, j | 0 <= i < j < |t.items| ensures lt(t.items[i], t.items[j]) {
        AroundItem(t, i);
        RightItems(t, i + 1);
        var a := Left(t, i) + Flat(t.children[i]);
        var b := Flat(t.children[i + 1]) + Right(t, i + 1);
        SortedParts(lt, a, [t.items[i]], b);
        assert t.items[j] in b;
        assert [t.items[i]][0] == t.items[i];
      }
    }
  }

  /** Where `find` leads: everything left of child `i` is smaller than `x`, and
      everything right of it (right of item `i`, when found) is greater. */
  lemma FindSides<T(!new)>(lt: (T, T) -> bool, t: Tree<T>, x: T)
    requires StrictWeakOrder(lt) && Sorted(lt, Flat(t)) && |t.children| == |t.items| + 1
    ensures Sorted(lt, t.items)
    ensures var (i, found) := Find(lt, t.items, x);
            && Cut(lt, t.items, x, i, found)
            && Below(lt, Left(t, i), x)
            && (!found ==> Above(lt, x, Right(t, i)))
            && (found ==> Above(lt, x, Flat(t.children[i + 1]) + Right(t, i + 1))
                          && Below(lt, Left(t, i) + Flat(t.children[i]), x))
  {
    ItemsSorted(lt, t);
    FindSpec(lt, t.items, x);
    var (i, found) := Find(lt, t.items, x);
    if i > 0 { LeftBelow(lt, t, i, x); }
    if i < |t.items| { RightAbove(lt, t, i, x); }
  }

  lemma LeftBelow<T(!new)>(lt: (T, T) -> bool, t: Tree<T>, i: nat, x: T)
    requires StrictWeakOrder(lt) && Sorted(lt, Flat(t))
    requires |t.children| == |t.items| + 1 && 0 < i <= |t.items| && lt(t.items[i - 1], x)
    ensures Below(lt, Left(t, i), x)
  {
    hide Flat, Left, Right, Sorted;
    LeftStep(t, i - 1);
    Around(t, i);
    var a := Left(t, i - 1) + Flat(t.children[i - 1]);
    var m := [t.items[i - 1]];
    var b := Flat(t.children[i]) + Right(t, i);
    assert Flat(t) == a + m + b;
    SortedParts(lt, a, m, b);
    assert m[0] == t.items[i - 1];
    assert Left(t, i) == a + m;
  }

  /** Everything from item `i` on is at least item `i`, and everything before it is smaller. */
  lemma RightAbove<T(!new)>(lt: (T, T) -> bool, t: Tree<T>, i: nat, x: T)
    requires StrictWeakOrder(lt) && Sorted(lt, Flat(t))
    requires |t.children| == |t.items| + 1 && i < |t.items| && !lt(t.items[i], x)
    ensures Above(lt, x, Flat(t.children[i + 1]) + Right(t, i + 1))
    ensures lt(x, t.items[i]) ==> Above(lt, x, Right(t, i))
    ensures Equiv(lt, t.items[i], x) ==> Below(lt, Left(t, i) + Flat(t.children[i]), x)
  {
    RightStep(t, i);
    AroundItem(t, i);
    var a := Left(t, i) + Flat(t.children[i]);
    var m := [t.items[i]];
    var b := Flat(t.children[i + 1]) + Right(t, i + 1);
    SortedParts(lt, a, m, b);
    assert m[0] == t.items[i];
    assert Right(t, i) == m + b;
  }
}
