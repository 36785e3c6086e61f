/**
 Copy-on-write B-trees that share one free list: `FreeList`, `copyOnWriteContext`,
 the node operations that write in place, and the public tree operations.  Every
 method is proved against the tree functions of `BTreeUpdate`; the state invariant
 says that a node owned by a tree's context is reached by that tree alone and that
 freed nodes are reached by none.
 */
module BTreeStore {
  import opened Wrappers
  import opened SortedSet
  import opened BTreeShape
  import opened BTreeUpdate
  import opened BTreeNodes

  /** The free list keeps only empty, ownerless, allocated nodes, each once. */
  ghost predicate FreeOk<T>(m: Nodes<T>, free: seq<Ref>, next: Ref) {
    && (forall i :: 0 <= i < |free| ==> free[i] in m && m[free[i]] == Cell([], [], None))
    && (forall i, j :: 0 <= i < j < |free| ==> free[i] != free[j])
    && (forall r :: r in m ==> r < next)
  }

  class NodeStore<T(!new)> {
    const lt: (T, T) -> bool
    const capacity: nat
    var nodes: Nodes<T>
    var freelist: seq<Ref>
    var nextRef: Ref

    constructor (lt: (T, T) -> bool, capacity: nat)
      ensures this.lt == lt && this.capacity == capacity
      ensures nodes == map[] && freelist == []
      ensures Valid()
    {
      this.lt, this.capacity := lt, capacity;
      nodes, freelist, nextRef := map[], [], 0;
    }

    ghost predicate Valid()
      reads this
    {
      FreeOk(nodes, freelist, nextRef)
    }

    /** `copyOnWriteContext.newNode`: a recycled node or a new one, owned by `c`. */
    method NewNode(c: Context) returns (n: Ref)
      requires Valid()
      modifies this
      ensures Valid()
      ensures n !in old(nodes) || old(nodes)[n].cow.None?
      ensures nodes == old(nodes)[n := Cell([], [], Some(c))]
    {
      if |freelist| == 0 {
        n := nextRef;
        nextRef := nextRef + 1;
        nodes := nodes[n := Cell([], [], None)];
      } else {
        n := freelist[|freelist| - 1];
        freelist := freelist[..|freelist| - 1];
      }
      nodes := nodes[n := nodes[n].(cow := Some(c))];
    }

    /** `copyOnWriteContext.freeNode`: only the owner recycles a node. */
    method FreeNode(n: Ref, c: Context)
      requires Valid() && n in nodes
      modifies this
      ensures Valid()
      ensures nodes == if old(nodes)[n].cow == Some(c) then old(nodes)[n := Cell([], [], None)] else old(nodes)
    {
      if nodes[n].cow == Some(c) {
        nodes := nodes[n := Cell([], [], None)];
        if |freelist| < capacity {
          freelist := freelist + [n];
        }
      }
    }

    /** Assigning the items and children of a live node in place. */
    method Write(n: Ref, items: seq<T>, children: seq<Ref>)
      requires Valid() && n in nodes && nodes[n].cow.Some?
      modifies this
      ensures Valid()
      ensures nodes == old(nodes)[n := Cell(items, children, old(nodes[n].cow))]
    {
      nodes := nodes[n := Cell(items, children, nodes[n].cow)];
    }

    /** `mutableFor`: the node itself when `c` owns it, otherwise a copy `c` owns. */
    method MutableFor(n: Ref, c: Context, ghost h: nat) returns (out: Ref)
      requires Valid() && Ok(nodes, n, h)
      modifies this
      ensures Valid() && Ok(nodes, out, h) && out in nodes && nodes[out].cow == Some(c)
      ensures Abs(nodes, out, h) == old(Abs(nodes, n, h))
      ensures nodes == if old(nodes)[n].cow == Some(c) then old(nodes)
              else old(nodes)[out := old(nodes)[n].(cow := Some(c))]
      ensures old(nodes)[n].cow == Some(c) ==> out == n
      ensures old(nodes)[n].cow != Some(c) ==> out !in old(nodes) || old(nodes)[out].cow.None?
      ensures Writes(old(nodes), old(Reach(nodes, n, h)), nodes, Reach(nodes, out, h), c)
    {
      hide Ok, Oks, Reach, Under, Abs, AbsAll, FreeOk;
      ghost var m := nodes;
      Opened(m, n, h);
      ReachLive(m, n, h);
      if nodes[n].cow == Some(c) {
        return n;
      }
      out := NewNode(c);
      Write(out, nodes[n].items, nodes[n].children);
      Assemble(m, m[n].children, nodes, out, h);
    }

    /** `mutableChild`: child `i` of an owned node, made writable and linked in. */
    method MutableChild(n: Ref, i: nat, c: Context, ghost h: nat) returns (child: Ref)
      requires Valid() && h > 0 && Ok(nodes, n, h) && nodes[n].cow == Some(c) && i < |nodes[n].children|
      modifies this
      ensures Valid() && Ok(nodes, n, h) && n in nodes && nodes[n].cow == Some(c)
      ensures Abs(nodes, n, h) == old(Abs(nodes, n, h))
      ensures nodes[n].items == old(nodes[n].items) && nodes[n].children == old(nodes[n].children)[i := child]
      ensures child in nodes && nodes[child].cow == Some(c)
      ensures Writes(old(nodes), old(Reach(nodes, n, h)), nodes, Reach(nodes, n, h), c)
      ensures forall r :: r in old(nodes) && old(nodes)[r].cow == Some(c) && r != n ==> nodes[r] == old(nodes)[r]
    {
      hide Ok, Oks, Reach, Under, Abs, AbsAll, Writes, FreeOk;
      ghost var m := nodes;
      Opened(m, n, h);
      Pick(m, m[n].children, i, h);
      child := MutableFor(nodes[n].children[i], c, h - 1);
      ghost var m1 := nodes;
      One(m1, child, h);
      assert m[n].children[i := child] == m[n].children[..i] + [child] + m[n].children[i + 1..];
      Write(n, nodes[n].items, nodes[n].children[i := child]);
      Relink(m, n, h, c, m1, i, i + 1, [child], m[n].items, nodes);
      assert Abs(nodes, n, h).children == Abs(m, n, h).children;
    }

    /** `split`: node `n` keeps what is left of item `i`; a new node takes what is right of it. */
    method Split(n: Ref, i: nat, c: Context, ghost h: nat) returns (item: T, next: Ref)
      requires Valid() && Ok(nodes, n, h) && nodes[n].cow == Some(c) && i < |nodes[n].items|
      modifies this
      ensures Valid() && n in nodes && nodes[n].cow == Some(c)
      ensures item == old(nodes[n].items)[i]
      ensures Ok(nodes, n, h) && Ok(nodes, next, h) && Reach(nodes, n, h) !! Reach(nodes, next, h)
      ensures Abs(nodes, n, h) == LeftPart(old(Abs(nodes, n, h)), i)
      ensures Abs(nodes, next, h) == RightPart(old(Abs(nodes, n, h)), i)
      ensures Writes(old(nodes), old(Reach(nodes, n, h)), nodes, Reach(nodes, n, h) + Reach(nodes, next, h), c)
    {
      hide Ok, Oks, Reach, Under, Abs, AbsAll, Writes, LeftPart, RightPart, FreeOk;
      ghost var m := nodes;
      Opened(m, n, h);
      NoneUnder(m, m[n].children, h);
      item := nodes[n].items[i];
      next := NewNode(c);
      if |nodes[n].children| > 0 {
        Write(next, nodes[next].items + nodes[n].items[i + 1..], nodes[next].children + nodes[n].children[i + 1..]);
        Write(n, nodes[n].items[..i], nodes[n].children[..i + 1]);
      } else {
        Write(next, nodes[next].items + nodes[n].items[i + 1..], nodes[next].children);
        Write(n, nodes[n].items[..i], nodes[n].children);
      }
      assert nodes[next].items == m[n].items[i + 1..];
      assert |m[n].children| > 0 ==> nodes[next].children == m[n].children[i + 1..];
      SplitCells(m, n, i, nodes, next, c, h);
    }

    /** `maybeSplitChild`. */
    method MaybeSplitChild(n: Ref, i: nat, d: nat, c: Context, ghost h: nat) returns (split: bool)
      requires Valid() && h > 0 && Ok(nodes, n, h) && nodes[n].cow == Some(c) && i <= |nodes[n].items|
      requires d >= 2 && Kids(Abs(nodes, n, h), h, d)
      modifies this
      ensures Valid() && Ok(nodes, n, h) && n in nodes && nodes[n].cow == Some(c)
      ensures split == (|old(Abs(nodes, n, h)).children[i].items| >= MaxItems(d))
      ensures Abs(nodes, n, h) == SplitChild(old(Abs(nodes, n, h)), i, d)
      ensures Writes(old(nodes), old(Reach(nodes, n, h)), nodes, Reach(nodes, n, h), c)
    {
      hide Ok, Oks, Reach, Under, Abs, AbsAll, Writes, Kids, WF, FreeOk;
      ghost var m0 := nodes;
      Opened(m0, n, h);
      Pick(m0, m0[n].children, i, h);
      Opened(m0, m0[n].children[i], h - 1);
      if |nodes[nodes[n].children[i]].items| < 2 * d - 1 {
        UnderLive(m0, m0[n].children, h);
        WritesNothing(m0, Reach(m0, n, h), c);
        return false;
      }
      var first := MutableChild(n, i, c, h);
      ghost var m1 := nodes;
      Opened(m1, n, h);
      Pick(m1, m1[n].children, i, h);
      Opened(m1, first, h - 1);
      var item, second := Split(first, (2 * d - 1) / 2, c, h - 1);
      ghost var m2 := nodes;
      Untouched(m1, n, i, m2, Reach(m2, first, h - 1) + Reach(m2, second, h - 1), c, h);
      Write(n, nodes[n].items[..i] + [item] + nodes[n].items[i..],
          nodes[n].children[..i + 1] + [second] + nodes[n].children[i + 1..]);
      SplitLinked(m1, n, i, m2, second, nodes, d, c, h);
      WritesTrans(m0, Reach(m0, n, h), m1, Reach(m1, n, h), nodes, Reach(nodes, n, h), c);
      split := true;
    }

    /** `node.insert`, on a node `c` owns. */
    method Insert(n: Ref, x: T, d: nat, c: Context, ghost h: nat) returns (out: Option<T>)
      requires Valid() && Ok(nodes, n, h) && nodes[n].cow == Some(c)
      requires StrictWeakOrder(lt) && d >= 2 && Kids(Abs(nodes, n, h), h, d) && Sorted(lt, Flat(Abs(nodes, n, h)))
      modifies this
      ensures Valid() && Ok(nodes, n, h) && n in nodes && nodes[n].cow == Some(c)
      ensures (Abs(nodes, n, h), out) == BTreeUpdate.Insert(lt, old(Abs(nodes, n, h)), x, h, d)
      ensures Writes(old(nodes), old(Reach(nodes, n, h)), nodes, Reach(nodes, n, h), c)
      decreases h
    {
      hide Ok, Oks, Reach, Under, Abs, AbsAll, Writes, Kids, WF, FreeOk, Flat, StrictWeakOrder, Sorted,
        BTreeUpdate.Insert, SplitChild;
      ghost var m0 := nodes;
      ghost var t := Abs(nodes, n, h);
      Opened(m0, n, h);
      NoneUnder(m0, m0[n].children, h);
      ItemsSorted(lt, t);
      var i, found := FindIndex(lt, nodes[n].items, x);
      if found || |nodes[n].children| == 0 { InsertHere(lt, t, x, h, d); }
      if found {
        out := Some(nodes[n].items[i]);
        Write(n, nodes[n].items[i := x], nodes[n].children);
        Retouch(m0, n, h, c, m0[n].items[i := x], nodes);
        return;
      }
      if |nodes[n].children| == 0 {
        Write(n, nodes[n].items[..i] + [x] + nodes[n].items[i..], nodes[n].children);
        Retouch(m0, n, h, c, m0[n].items[..i] + [x] + m0[n].items[i..], nodes);
        return None;
      }
      SplitChildShape(t, i, h, d);
      var split := MaybeSplitChild(n, i, d, c, h);
      ghost var m1 := nodes;
      ghost var t1 := Abs(m1, n, h);
      Arity(t1, h, d);
      InsertUnfolds(lt, t, x, h, d, i);
      var j := i;
      if split {
        var inTree := nodes[n].items[i];
        if lt(x, inTree) {
        } else if lt(inTree, x) {
          j := i + 1;
        } else {
          out := Some(nodes[n].items[i]);
          Write(n, nodes[n].items[i := x], nodes[n].children);
          Retouch(m1, n, h, c, m1[n].items[i := x], nodes);
          WritesTrans(m0, Reach(m0, n, h), m1, Reach(m1, n, h), nodes, Reach(nodes, n, h), c);
          return;
        }
      }
      var child := MutableChild(n, j, c, h);
      ghost var m2 := nodes;
      WritesTrans(m0, Reach(m0, n, h), m1, Reach(m1, n, h), m2, Reach(m2, n, h), c);
      ChildReady(lt, m2, n, j, h, d);
      out := Insert(child, x, d, c, h - 1);
      Relinked(m2, n, j, nodes, c, h);
      WritesTrans(m0, Reach(m0, n, h), m2, Reach(m2, n, h), nodes, Reach(nodes, n, h), c);
    }

    /** The root split of `ReplaceOrInsert`: a new root over the halves of a full one. */
    method SplitRoot(r: Ref, d: nat, c: Context, ghost h: nat) returns (root: Ref)
      requires Valid() && Ok(nodes, r, h) && nodes[r].cow == Some(c) && d >= 2 && |nodes[r].items| >= MaxItems(d)
      modifies this
      ensures Valid() && Ok(nodes, root, h + 1) && root in nodes && nodes[root].cow == Some(c)
      ensures Abs(nodes, root, h + 1) == GrowRoot(old(Abs(nodes, r, h)), d)
      ensures Writes(old(nodes), old(Reach(nodes, r, h)), nodes, Reach(nodes, root, h + 1), c)
    {
      hide Ok, Oks, Reach, Under, Abs, AbsAll, FreeOk, LeftPart, RightPart;
      ghost var m0 := nodes;
      Opened(m0, r, h);
      var item2, second := Split(r, (2 * d - 1) / 2, c, h);
      ghost var m1 := nodes;
      Two(m1, r, second, h + 1);
      UnderLive(m1, [r, second], h + 1);
      root := NewNode(c);
      Write(root, nodes[root].items + [item2], nodes[root].children + [r, second]);
      assert nodes[root].items == [item2] && nodes[root].children == [r, second];
      Assemble(m1, [r, second], nodes, root, h + 1);
    }

    /** The root collapse of `deleteItem`: an empty inner root gives way to its only child. */
    method CollapseRoot(r: Ref, c: Context, ghost h: nat) returns (root: Ref)
      requires Valid() && h > 0 && Ok(nodes, r, h) && nodes[r].cow == Some(c) && |nodes[r].items| == 0
      modifies this
      ensures Valid() && Ok(nodes, root, h - 1)
      ensures Abs(nodes, root, h - 1) == old(Abs(nodes, r, h)).children[0]
      ensures Writes(old(nodes), old(Reach(nodes, r, h)), nodes, Reach(nodes, root, h - 1), c)
    {
      hide Ok, Oks, Reach, Under, Abs, AbsAll, FreeOk;
      ghost var m0 := nodes;
      Opened(m0, r, h);
      Pick(m0, m0[r].children, 0, h);
      ReachLive(m0, m0[r].children[0], h - 1);
      root := nodes[r].children[0];
      FreeNode(r, c);
      Same(m0, nodes, root, h - 1);
    }

    /** Two neighbouring children made writable, one after the other. */
    method MutablePair(n: Ref, i: nat, j: nat, c: Context, ghost h: nat) returns (first: Ref, second: Ref)
      requires Valid() && h > 0 && Ok(nodes, n, h) && nodes[n].cow == Some(c)
      requires i < |nodes[n].children| && j < |nodes[n].children| && (j == i + 1 || i == j + 1)
      modifies this
      ensures Valid() && Ok(nodes, n, h) && n in nodes && nodes[n].cow == Some(c)
      ensures Abs(nodes, n, h) == old(Abs(nodes, n, h))
      ensures nodes[n].items == old(nodes[n].items)
      ensures nodes[n].children == old(nodes[n].children)[i := first][j := second]
      ensures first in nodes && nodes[first].cow == Some(c) && second in nodes && nodes[second].cow == Some(c)
      ensures Writes(old(nodes), old(Reach(nodes, n, h)), nodes, Reach(nodes, n, h), c)
    {
      hide Ok, Oks, Reach, Under, Abs, AbsAll, Writes, FreeOk;
      ghost var m0 := nodes;
      Opened(m0, n, h);
      first := MutableChild(n, i, c, h);
      ghost var m1 := nodes;
      second := MutableChild(n, j, c, h);
      TwoChildren(nodes, n, if i < j then i else j, h);
      WritesTrans(m0, Reach(m0, n, h), m1, Reach(m1, n, h), nodes, Reach(nodes, n, h), c);
    }

    /** Stealing from the left sibling, in `growChildAndRemove`. */
    method StealFromLeft(n: Ref, i: nat, c: Context, ghost h: nat)
      requires Valid() && h > 0 && Ok(nodes, n, h) && nodes[n].cow == Some(c) && 0 < i <= |nodes[n].items|
      requires |Abs(nodes, n, h).children[i - 1].items| > 0
      modifies this
      ensures Valid() && Ok(nodes, n, h) && n in nodes && nodes[n].cow == Some(c)
      ensures Abs(nodes, n, h) == StealLeft(old(Abs(nodes, n, h)), i)
      ensures Writes(old(nodes), old(Reach(nodes, n, h)), nodes, Reach(nodes, n, h), c)
    {
      hide Ok, Oks, Reach, Under, Abs, AbsAll, Writes, FreeOk, StealLeft;
      ghost var m0 := nodes;
      Opened(m0, n, h);
      var child: Ref, stealFrom: Ref := MutablePair(n, i, i - 1, c, h);
      ghost var m: Nodes<T> := nodes;
      TwoChildren(m, n, i - 1, h);
      var last := |nodes[stealFrom].items| - 1;
      var stolenItem := nodes[stealFrom].items[last];
      if |nodes[stealFrom].children| > 0 {
        var rest := |nodes[stealFrom].children| - 1;
        Write(child, [nodes[n].items[i - 1]] + nodes[child].items,
              [nodes[stealFrom].children[rest]] + nodes[child].children);
        Write(stealFrom, nodes[stealFrom].items[..last], nodes[stealFrom].children[..rest]);
      } else {
        Write(child, [nodes[n].items[i - 1]] + nodes[child].items, nodes[child].children);
        Write(stealFrom, nodes[stealFrom].items[..last], nodes[stealFrom].children);
      }
      Write(n, nodes[n].items[i - 1 := stolenItem], nodes[n].children);
      StoleLeft(m, n, i - 1, nodes, c, h);
      WritesTrans(m0, Reach(m0, n, h), m, Reach(m, n, h), nodes, Reach(nodes, n, h), c);
    }

    /** Stealing from the right sibling, in `growChildAndRemove`. */
    method StealFromRight(n: Ref, i: nat, c: Context, ghost h: nat)
      requires Valid() && h > 0 && Ok(nodes, n, h) && nodes[n].cow == Some(c) && i < |nodes[n].items|
      requires |Abs(nodes, n, h).children[i + 1].items| > 0
      modifies this
      ensures Valid() && Ok(nodes, n, h) && n in nodes && nodes[n].cow == Some(c)
      ensures Abs(nodes, n, h) == StealRight(old(Abs(nodes, n, h)), i)
      ensures Writes(old(nodes), old(Reach(nodes, n, h)), nodes, Reach(nodes, n, h), c)
    {
      hide Ok, Oks, Reach, Under, Abs, AbsAll, Writes, FreeOk, StealRight;
      ghost var m0 := nodes;
      Opened(m0, n, h);
      var child: Ref, stealFrom: Ref := MutablePair(n, i, i + 1, c, h);
      ghost var m := nodes;
      TwoChildren(m, n, i, h);
      var stolenItem := nodes[stealFrom].items[0];
      if |nodes[stealFrom].children| > 0 {
        Write(child, nodes[child].items + [nodes[n].items[i]], nodes[child].children + [nodes[stealFrom].children[0]]);
        Write(stealFrom, nodes[stealFrom].items[1..], nodes[stealFrom].children[1..]);
      } else {
        Write(child, nodes[child].items + [nodes[n].items[i]], nodes[child].children);
        Write(stealFrom, nodes[stealFrom].items[1..], nodes[stealFrom].children);
      }
      Write(n, nodes[n].items[i := stolenItem], nodes[n].children);
      StealRightForm(Abs(m, n, h), i);
      Shifted(m, n, i, nodes, c, h);
      WritesTrans(m0, Reach(m0, n, h), m, Reach(m, n, h), nodes, Reach(nodes, n, h), c);
    }

    /** Merging child `i` with its right sibling, in `growChildAndRemove`. */
    method MergeRight(n: Ref, i: nat, c: Context, ghost h: nat)
      requires Valid() && h > 0 && Ok(nodes, n, h) && nodes[n].cow == Some(c) && i < |nodes[n].items|
      modifies this
      ensures Valid() && Ok(nodes, n, h) && n in nodes && nodes[n].cow == Some(c)
      ensures Abs(nodes, n, h) == Merge(old(Abs(nodes, n, h)), i)
      ensures Writes(old(nodes), old(Reach(nodes, n, h)), nodes, Reach(nodes, n, h), c)
    {
      hide Ok, Oks, Reach, Under, Abs, AbsAll, Writes, FreeOk, Merge;
      ghost var m0 := nodes;
      Opened(m0, n, h);
      var child := MutableChild(n, i, c, h);
      ghost var m := nodes;
      TwoChildren(m, n, i, h);
      var mergeItem := nodes[n].items[i];
      var mergeChild := nodes[n].children[i + 1];
      Write(n, nodes[n].items[..i] + nodes[n].items[i + 1..], nodes[n].children[..i + 1] + nodes[n].children[i + 2..]);
      Write(child, nodes[child].items + [mergeItem] + nodes[mergeChild].items,
          nodes[child].children + nodes[mergeChild].children);
      FreeNode(mergeChild, c);
      Merged(m, n, i, nodes, c, h);
      WritesTrans(m0, Reach(m0, n, h), m, Reach(m, n, h), nodes, Reach(nodes, n, h), c);
    }

    /** The branches of `remove` for a node without children. */
    method RemoveFromLeaf(n: Ref, what: Removal<T>, d: nat, c: Context) returns (out: Option<T>)
      requires Valid() && Ok(nodes, n, 0) && nodes[n].cow == Some(c)
      requires StrictWeakOrder(lt) && d >= 2 && Kids(Abs(nodes, n, 0), 0, d) && Sorted(lt, Flat(Abs(nodes, n, 0)))
      requires Removable(Abs(nodes, n, 0), 0, d)
      modifies this
      ensures Valid() && Ok(nodes, n, 0) && n in nodes && nodes[n].cow == Some(c)
      ensures (Abs(nodes, n, 0), out) == BTreeUpdate.Remove(lt, old(Abs(nodes, n, 0)), what, 0, d)
      ensures Writes(old(nodes), old(Reach(nodes, n, 0)), nodes, Reach(nodes, n, 0), c)
    {
      hide Ok, Oks, Reach, Under, Abs, AbsAll, Writes, Kids, WF, FreeOk, Flat, StrictWeakOrder, Sorted,
        BTreeUpdate.Remove, Find;
      ghost var m0 := nodes;
      ghost var t := Abs(nodes, n, 0);
      Opened(m0, n, 0);
      NoneUnder(m0, m0[n].children, 0);
      RemoveHere(lt, t, what, d);
      match what {
        case RemoveMax =>
          var k := |nodes[n].items| - 1;
          out := Some(nodes[n].items[k]);
          Write(n, nodes[n].items[..k], nodes[n].children);
        case RemoveMin =>
          out := Some(nodes[n].items[0]);
          Write(n, nodes[n].items[1..], nodes[n].children);
        case RemoveItem(x) =>
          ItemsSorted(lt, t);
          var i, found := FindIndex(lt, nodes[n].items, x);
          if !found {
            ReachLive(m0, n, 0);
            WritesNothing(m0, Reach(m0, n, 0), c);
            return None;
          }
          out := Some(nodes[n].items[i]);
          Write(n, nodes[n].items[..i] + nodes[n].items[i + 1..], nodes[n].children);
      }
      Retouch(m0, n, 0, c, nodes[n].items, nodes);
    }

    /** `node.remove` and `growChildAndRemove`, on a node `c` owns. */
    method Remove(n: Ref, what: Removal<T>, d: nat, c: Context, ghost h: nat) returns (out: Option<T>)
      requires Valid() && Ok(nodes, n, h) && nodes[n].cow == Some(c)
      requires StrictWeakOrder(lt) && d >= 2 && Kids(Abs(nodes, n, h), h, d) && Sorted(lt, Flat(Abs(nodes, n, h)))
      requires Removable(Abs(nodes, n, h), h, d)
      modifies this
      ensures Valid() && Ok(nodes, n, h) && n in nodes && nodes[n].cow == Some(c)
      ensures (Abs(nodes, n, h), out) == BTreeUpdate.Remove(lt, old(Abs(nodes, n, h)), what, h, d)
      ensures Writes(old(nodes), old(Reach(nodes, n, h)), nodes, Reach(nodes, n, h), c)
      decreases h, if NeedsGrow(lt, Abs(nodes, n, h), what, d) then 1 else 0
    {
      hide Ok, Oks, Reach, Under, Abs, AbsAll, Writes, Kids, WF, FreeOk, Flat, StrictWeakOrder, Sorted, Grow,
        BTreeUpdate.Remove, Find;
      ghost var m0 := nodes;
      ghost var t := Abs(nodes, n, h);
      Opened(m0, n, h);
      NoneUnder(m0, m0[n].children, h);
      if |nodes[n].children| == 0 {
        out := RemoveFromLeaf(n, what, d, c);
        return;
      }
      var i, found := 0, false;
      match what {
        case RemoveMax =>
          i := |nodes[n].items|;
        case RemoveMin =>
        case RemoveItem(x) =>
          ItemsSorted(lt, t);
          i, found := FindIndex(lt, nodes[n].items, x);
      }
      Pick(m0, m0[n].children, i, h);
      Opened(m0, m0[n].children[i], h - 1);
      if |nodes[nodes[n].children[i]].items| <= d - 1 {
        GrowShape(t, i, h, d);
        GrowSuffices(lt, t, what, h, d);
        RemoveRetries(lt, t, what, h, d);
        GrowChild(n, i, d, c, h);
        ghost var m1 := nodes;
        out := Remove(n, what, d, c, h);
        WritesTrans(m0, Reach(m0, n, h), m1, Reach(m1, n, h), nodes, Reach(nodes, n, h), c);
        return;
      }
      var child := MutableChild(n, i, c, h);
      ghost var m1 := nodes;
      ChildReady(lt, m1, n, i, h, d);
      DescentUnfolds(lt, t, what, h, d, i, found);
      if found {
        out := Some(nodes[n].items[i]);
        var pred := Remove(child, RemoveMax, d, c, h - 1);
        ghost var m2 := nodes;
        Relinked(m1, n, i, m2, c, h);
        WritesTrans(m0, Reach(m0, n, h), m1, Reach(m1, n, h), m2, Reach(m2, n, h), c);
        if pred.Some? {
          Write(n, nodes[n].items[i := pred.value], nodes[n].children);
          Retouch(m2, n, h, c, m2[n].items[i := pred.value], nodes);
          WritesTrans(m0, Reach(m0, n, h), m2, Reach(m2, n, h), nodes, Reach(nodes, n, h), c);
        }
        return;
      }
      out := Remove(child, what, d, c, h - 1);
      Relinked(m1, n, i, nodes, c, h);
      WritesTrans(m0, Reach(m0, n, h), m1, Reach(m1, n, h), nodes, Reach(nodes, n, h), c);
    }

    /** The rearrangement of `growChildAndRemove`, before it retries the removal. */
    method GrowChild(n: Ref, i: nat, d: nat, c: Context, ghost h: nat)
      requires Valid() && h > 0 && Ok(nodes, n, h) && nodes[n].cow == Some(c)
      requires d >= 2 && i <= |nodes[n].items| && |nodes[n].items| > 0
      modifies this
      ensures Valid() && Ok(nodes, n, h) && n in nodes && nodes[n].cow == Some(c)
      ensures Abs(nodes, n, h) == Grow(old(Abs(nodes, n, h)), i, d)
      ensures Writes(old(nodes), old(Reach(nodes, n, h)), nodes, Reach(nodes, n, h), c)
    {
      hide Ok, Oks, Reach, Under, Abs, AbsAll, Writes, FreeOk, StealLeft, StealRight, Merge;
      Opened(nodes, n, h);
      if i > 0 { ChildItems(nodes, n, i - 1, h); }
      if i < |nodes[n].items| { ChildItems(nodes, n, i + 1, h); }
      if i > 0 && |nodes[nodes[n].children[i - 1]].items| > d - 1 {
        StealFromLeft(n, i, c, h);
      } else if i < |nodes[n].items| && |nodes[nodes[n].children[i + 1]].items| > d - 1 {
        StealFromRight(n, i, c, h);
      } else {
        MergeRight(n, if i >= |nodes[n].items| then i - 1 else i, c, h);
      }
    }
  }

  /** Linking the two halves of a split child into their owned parent. */
  lemma SplitLinked<T>(m: Nodes<T>, n: Ref, i: nat, m1: Nodes<T>, second: Ref, m': Nodes<T>, d: nat, c: Context, h: nat)
    requires h > 0 && d >= 1 && Ok(m, n, h) && m[n].cow == Some(c) && i < |m[n].children|
    requires Ok(m, m[n].children[i], h - 1) && |m[m[n].children[i]].items| >= MaxItems(d)
    requires var first, k := m[n].children[i], MaxItems(d) / 2;
             && Ok(m1, first, h - 1) && Ok(m1, second, h - 1) && Reach(m1, first, h - 1) !! Reach(m1, second, h - 1)
             && Abs(m1, first, h - 1) == LeftPart(Abs(m, first, h - 1), k)
             && Abs(m1, second, h - 1) == RightPart(Abs(m, first, h - 1), k)
             && Writes(m, Reach(m, first, h - 1), m1, Reach(m1, first, h - 1) + Reach(m1, second, h - 1), c)
             && m' == m1[n := Cell(m[n].items[..i] + [m[first].items[k]] + m[n].items[i..],
                                   m[n].children[..i + 1] + [second] + m[n].children[i + 1..], Some(c))]
    ensures Ok(m', n, h) && Abs(m', n, h) == SplitChild(Abs(m, n, h), i, d)
    ensures Writes(m, Reach(m, n, h), m', Reach(m', n, h), c)
  {
    hide Ok, Oks, Reach, Under, Abs, AbsAll, Writes, LeftPart, RightPart;
    Opened(m, n, h);
    var its, cs := m[n].items, m[n].children;
    var first, k := cs[i], MaxItems(d) / 2;
    Pick(m, cs, i, h);
    Opened(m, first, h - 1);
    Two(m1, first, second, h);
    assert cs[..i + 1] + [second] + cs[i + 1..] == cs[..i] + [first, second] + cs[i + 1..];
    Relink(m, n, h, c, m1, i, i + 1, [first, second], its[..i] + [m[first].items[k]] + its[i..], m');
  }

  /** What a child of a well-formed sorted node gives the recursive call. */
  lemma ChildReady<T(!new)>(lt: (T, T) -> bool, m: Nodes<T>, n: Ref, j: nat, h: nat, d: nat)
    requires h > 0 && Ok(m, n, h) && Kids(Abs(m, n, h), h, d) && Sorted(lt, Flat(Abs(m, n, h))) && j < |m[n].children|
    ensures Ok(m, m[n].children[j], h - 1)
    ensures Abs(m, m[n].children[j], h - 1) == Abs(m, n, h).children[j]
    ensures WF(Abs(m, n, h).children[j], h - 1, d) && Kids(Abs(m, n, h).children[j], h - 1, d)
    ensures Sorted(lt, Flat(Abs(m, n, h).children[j]))
  {
    hide Ok, Oks, Reach, Under, Abs, AbsAll, Sorted, Flat;
    Opened(m, n, h);
    Pick(m, m[n].children, j, h);
    ChildWF(Abs(m, n, h), j, h, d);
    Separated(lt, Abs(m, n, h), j);
  }

  lemma ChildItems<T>(m: Nodes<T>, n: Ref, i: nat, h: nat)
    requires h > 0 && Ok(m, n, h) && i < |m[n].children|
    ensures m[n].children[i] in m && m[m[n].children[i]].items == Abs(m, n, h).children[i].items
  {
    hide Oks, Reach, Under, AbsAll;
    Pick(m, m[n].children, i, h);
  }

  /** After a write to the subtree of child `j`, the parent stands for the tree with that child replaced. */
  lemma Relinked<T>(m: Nodes<T>, n: Ref, j: nat, m': Nodes<T>, c: Context, h: nat)
    requires h > 0 && Ok(m, n, h) && m[n].cow == Some(c) && j < |m[n].children|
    requires Ok(m', m[n].children[j], h - 1)
    requires Writes(m, Reach(m, m[n].children[j], h - 1), m', Reach(m', m[n].children[j], h - 1), c)
    ensures n in m' && m'[n] == m[n] && Ok(m', n, h)
    ensures Abs(m', n, h) == Abs(m, n, h).(children := Abs(m, n, h).children[j := Abs(m', m[n].children[j], h - 1)])
    ensures Writes(m, Reach(m, n, h), m', Reach(m', n, h), c)
  {
    hide Ok, Oks, Reach, Under, Abs, AbsAll, Writes;
    Opened(m, n, h);
    var cs := m[n].children;
    var child := cs[j];
    Pick(m, cs, j, h);
    Untouched(m, n, j, m', Reach(m', child, h - 1), c, h);
    One(m', child, h);
    assert cs == cs[..j] + [child] + cs[j + 1..];
    assert m' == m'[n := m[n]];
    Relink(m, n, h, c, m', j, j + 1, [child], m[n].items, m');
    var ts := Abs(m, n, h).children;
    assert ts[j := Abs(m', child, h - 1)] == ts[..j] + [Abs(m', child, h - 1)] + ts[j + 1..];
  }

  /** Two neighbouring children and their parent are distinct nodes. */
  lemma TwoChildren<T>(m: Nodes<T>, n: Ref, i: nat, h: nat)
    requires h > 0 && Ok(m, n, h) && i < |m[n].items|
    ensures var l, r := m[n].children[i], m[n].children[i + 1];
            && Ok(m, l, h - 1) && Ok(m, r, h - 1) && Reach(m, l, h - 1) !! Reach(m, r, h - 1)
            && l != r && n != l && n != r && l in m && r in m && m[l].cow.Some? && m[r].cow.Some?
            && Abs(m, n, h).children[i] == Abs(m, l, h - 1) && Abs(m, n, h).children[i + 1] == Abs(m, r, h - 1)
            && n !in Reach(m, l, h - 1) + Reach(m, r, h - 1)
            && (if h == 1 then m[l].children == [] && m[r].children == []
                else |m[l].children| == |m[l].items| + 1 && |m[r].children| == |m[r].items| + 1)
            && Under(m, m[n].children[i..i + 2], h) == Reach(m, l, h - 1) + Reach(m, r, h - 1)
  {
    hide Ok, Oks, Reach, Under, Abs, AbsAll;
    Opened(m, n, h);
    var cs := m[n].children;
    var l, r := cs[i], cs[i + 1];
    Pick(m, cs, i, h);
    Pick(m, cs, i + 1, h);
    Cuts(m, cs, i, i + 2, h);
    assert cs[i..i + 2] == [l, r];
    Two(m, l, r, h);
    Opened(m, l, h - 1);
    Opened(m, r, h - 1);
    NoneUnder(m, m[l].children, h - 1);
    NoneUnder(m, m[r].children, h - 1);
  }

  /** Moving the boundary between two owned neighbours of an owned parent. */
  lemma Shifted<T>(m: Nodes<T>, n: Ref, i: nat, m': Nodes<T>, c: Context, h: nat)
    requires h > 0 && Ok(m, n, h) && m[n].cow == Some(c) && i < |m[n].items|
    requires var l, r := m[n].children[i], m[n].children[i + 1];
             && l in m && m[l].cow == Some(c) && r in m && m[r].cow == Some(c)
             && l in m' && r in m' && n in m'
             && m' == m[l := m'[l]][r := m'[r]][n := m'[n]]
             && m'[l].cow == Some(c) && m'[r].cow == Some(c) && m'[n].cow == Some(c)
             && m'[l].children + m'[r].children == m[l].children + m[r].children
             && (h > 1 ==> |m'[l].children| == |m'[l].items| + 1 && |m'[r].children| == |m'[r].items| + 1)
             && m'[n].children == m[n].children && |m'[n].items| == |m[n].items|
    ensures Ok(m', n, h)
    ensures var l, r, t := m[n].children[i], m[n].children[i + 1], Abs(m, n, h);
            var ts := t.children[i].children + t.children[i + 1].children;
            && |m'[l].children| <= |ts|
            && Abs(m', n, h) == Node(m'[n].items, t.children[i := Node(m'[l].items, ts[..|m'[l].children|])]
                                                      [i + 1 := Node(m'[r].items, ts[|m'[l].children|..])])
    ensures Writes(m, Reach(m, n, h), m', Reach(m', n, h), c)
  {
    hide Ok, Oks, Reach, Under, Abs, AbsAll, Writes;
    TwoChildren(m, n, i, h);
    Opened(m, n, h);
    var cs := m[n].children;
    var l, r := cs[i], cs[i + 1];
    var m1 := m[l := m'[l]][r := m'[r]];
    ShiftedPair(m, l, r, m1, c, h - 1);
    Two(m1, l, r, h);
    TwoUpdates(cs, i, l, r);
    assert cs[i := l][i + 1 := r] == cs;
    Relink(m, n, h, c, m1, i, i + 2, [l, r], m'[n].items, m');
    var ts := Abs(m, n, h).children;
    var k := |m'[l].children|;
    var us := Abs(m, l, h - 1).children + Abs(m, r, h - 1).children;
    TwoUpdates(ts, i, Node(m'[l].items, us[..k]), Node(m'[r].items, us[k..]));
  }

  /** The three writes of a steal from the left, seen as trees. */
  lemma StoleLeft<T>(m: Nodes<T>, n: Ref, i: nat, m': Nodes<T>, c: Context, h: nat)
    requires h > 0 && Ok(m, n, h) && m[n].cow == Some(c) && i < |m[n].items|
    requires var l, r := m[n].children[i], m[n].children[i + 1];
             && l in m && m[l].cow == Some(c) && r in m && m[r].cow == Some(c) && |m[l].items| > 0
             && l in m' && r in m' && n in m' && m' == m[r := m'[r]][l := m'[l]][n := m'[n]]
             && m'[l].cow == Some(c) && m'[r].cow == Some(c) && m'[n].cow == Some(c)
             && m'[r].items == [m[n].items[i]] + m[r].items
             && m'[l].items == m[l].items[..|m[l].items| - 1]
             && m'[n].items == m[n].items[i := m[l].items[|m[l].items| - 1]] && m'[n].children == m[n].children
             && |m'[l].children| == (if |m[l].children| > 0 then |m[l].children| - 1 else 0)
             && m'[l].children + m'[r].children == m[l].children + m[r].children
    ensures Ok(m', n, h)
    ensures |Abs(m, n, h).children[i].items| > 0
    ensures Abs(m', n, h) == StealLeft(Abs(m, n, h), i + 1)
    ensures Writes(m, Reach(m, n, h), m', Reach(m', n, h), c)
  {
    hide Ok, Oks, Reach, Under, Abs, AbsAll, Writes, StealLeft;
    Opened(m, n, h);
    TwoChildren(m, n, i, h);
    Opened(m, m[n].children[i], h - 1);
    Opened(m, m[n].children[i + 1], h - 1);
    StealLeftForm(Abs(m, n, h), i);
    var l, r := m[n].children[i], m[n].children[i + 1];
    assert m' == m[l := m'[l]][r := m'[r]][n := m'[n]];
    Shifted(m, n, i, m', c, h);
  }

  lemma TwoUpdates<S>(s: seq<S>, i: nat, a: S, b: S)
    requires i + 1 < |s|
    ensures s[i := a][i + 1 := b] == s[..i] + [a, b] + s[i + 2..]
  {
  }

  lemma ShiftedPair<T>(m: Nodes<T>, l: Ref, r: Ref, m': Nodes<T>, c: Context, h: nat)
    requires Ok(m, l, h) && Ok(m, r, h) && Reach(m, l, h) !! Reach(m, r, h) && l != r
    requires m[l].cow == Some(c) && m[r].cow == Some(c)
    requires l in m' && r in m' && m' == m[l := m'[l]][r := m'[r]]
    requires m'[l].cow == Some(c) && m'[r].cow == Some(c)
    requires m'[l].children + m'[r].children == m[l].children + m[r].children
    requires h > 0 ==> |m'[l].children| == |m'[l].items| + 1 && |m'[r].children| == |m'[r].items| + 1
    ensures Ok(m', l, h) && Ok(m', r, h) && Reach(m', l, h) !! Reach(m', r, h)
    ensures var ts := Abs(m, l, h).children + Abs(m, r, h).children;
            && |m'[l].children| <= |ts|
            && Abs(m', l, h) == Node(m'[l].items, ts[..|m'[l].children|])
            && Abs(m', r, h) == Node(m'[r].items, ts[|m'[l].children|..])
    ensures Writes(m, Reach(m, l, h) + Reach(m, r, h), m', Reach(m', l, h) + Reach(m', r, h), c)
  {
    hide Ok, Oks, Reach, Under, Abs, AbsAll;
    Opened(m, l, h);
    Opened(m, r, h);
    ReachLive(m, l, h);
    ReachLive(m, r, h);
    var rs := m[l].children + m[r].children;
    OksConcat(m, m[l].children, m[r].children, h);
    var k := |m'[l].children|;
    assert rs[..k] == m'[l].children && rs[k..] == m'[r].children;
    Regroup(m, l, r, rs, k, m', h);
  }

  lemma StealLeftForm<T>(t: Tree<T>, i: nat)
    requires |t.children| == |t.items| + 1 && i < |t.items| && |t.children[i].items| > 0
    requires var l := t.children[i]; |l.children| == 0 || |l.children| == |l.items| + 1
    ensures var l, r := t.children[i], t.children[i + 1];
            var ts := l.children + r.children;
            var k := if |l.children| == 0 then 0 else |l.children| - 1;
            var m := |l.items| - 1;
            StealLeft(t, i + 1) == Node(t.items[i := l.items[m]],
                                        t.children[i := Node(l.items[..m], ts[..k])]
                                                  [i + 1 := Node([t.items[i]] + r.items, ts[k..])])
  {
    var l, r := t.children[i], t.children[i + 1];
    var m := |l.items| - 1;
    if |l.children| > 0 {
      assert (l.children + r.children)[m + 1..] == l.children[m + 1..] + r.children;
      assert (l.children + r.children)[..m + 1] == l.children[..m + 1];
    } else {
      assert (l.children + r.children)[0..] == RightPart(l, m).children + r.children;
    }
  }

  lemma StealRightForm<T>(t: Tree<T>, i: nat)
    requires |t.children| == |t.items| + 1 && i < |t.items| && |t.children[i + 1].items| > 0
    requires var r := t.children[i + 1]; |r.children| == 0 || |r.children| == |r.items| + 1
    ensures var l, r := t.children[i], t.children[i + 1];
            var ts := l.children + r.children;
            var k := if |r.children| == 0 then |l.children| else |l.children| + 1;
            StealRight(t, i) == Node(t.items[i := r.items[0]],
                                     t.children[i := Node(l.items + [t.items[i]], ts[..k])]
                                               [i + 1 := Node(r.items[1..], ts[k..])])
  {
    var l, r := t.children[i], t.children[i + 1];
    var ts := l.children + r.children;
    if |r.children| > 0 {
      assert ts[..|l.children| + 1] == l.children + r.children[..1];
      assert ts[|l.children| + 1..] == r.children[1..];
    } else {
      assert ts == l.children;
    }
  }

  /** Merging an owned child with its right sibling, which is freed when owned. */
  lemma Merged<T>(m: Nodes<T>, n: Ref, i: nat, m': Nodes<T>, c: Context, h: nat)
    requires h > 0 && Ok(m, n, h) && m[n].cow == Some(c) && i < |m[n].items|
    requires var l, r, its, cs := m[n].children[i], m[n].children[i + 1], m[n].items, m[n].children;
             && l in m && r in m && m[l].cow == Some(c)
             && var m1 := m[n := Cell(its[..i] + its[i + 1..], cs[..i + 1] + cs[i + 2..], Some(c))]
                           [l := Cell(m[l].items + [its[i]] + m[r].items, m[l].children + m[r].children, Some(c))];
                m' == if m[r].cow == Some(c) then m1[r := Cell([], [], None)] else m1
    ensures Ok(m', n, h) && Abs(m', n, h) == Merge(Abs(m, n, h), i)
    ensures Writes(m, Reach(m, n, h), m', Reach(m', n, h), c)
  {
    hide Ok, Oks, Reach, Under, Abs, AbsAll, Writes;
    TwoChildren(m, n, i, h);
    Opened(m, n, h);
    var its, cs := m[n].items, m[n].children;
    var l, r := cs[i], cs[i + 1];
    var m1 := m'[n := m[n]];
    MergedPair(m, l, r, its[i], m1, c, h - 1);
    One(m1, l, h);
    assert cs[..i] + [l] + cs[i + 2..] == cs[..i + 1] + cs[i + 2..];
    assert m' == m1[n := m'[n]];
    Relink(m, n, h, c, m1, i, i + 2, [l], its[..i] + its[i + 1..], m');
  }

  lemma MergedPair<T>(m: Nodes<T>, l: Ref, r: Ref, x: T, m': Nodes<T>, c: Context, h: nat)
    requires Ok(m, l, h) && Ok(m, r, h) && Reach(m, l, h) !! Reach(m, r, h) && l != r && m[l].cow == Some(c)
    requires var m1 := m[l := Cell(m[l].items + [x] + m[r].items, m[l].children + m[r].children, Some(c))];
             m' == if m[r].cow == Some(c) then m1[r := Cell([], [], None)] else m1
    ensures Ok(m', l, h) && Abs(m', l, h) == Join(Abs(m, l, h), x, Abs(m, r, h))
    ensures Writes(m, Reach(m, l, h) + Reach(m, r, h), m', Reach(m', l, h), c)
  {
    hide Ok, Oks, Reach, Under, Abs, AbsAll;
    Opened(m, l, h);
    Opened(m, r, h);
    ReachLive(m, l, h);
    ReachLive(m, r, h);
    OksConcat(m, m[l].children, m[r].children, h);
    Assemble(m, m[l].children + m[r].children, m', l, h);
  }

  lemma WritesNothing<T>(m: Nodes<T>, s: set<Ref>, c: Context)
    requires forall x :: x in s ==> x in m && m[x].cow.Some?
    ensures Writes(m, s, m, s, c)
  {
  }

  /** Writing the subtree of a child does not touch the parent. */
  lemma Untouched<T>(m: Nodes<T>, n: Ref, i: nat, m': Nodes<T>, after: set<Ref>, c: Context, h: nat)
    requires h > 0 && Ok(m, n, h) && i < |m[n].children|
    requires Writes(m, Reach(m, m[n].children[i], h - 1), m', after, c)
    ensures n in m' && m'[n] == m[n]
  {
    Pick(m, m[n].children, i, h);
  }

  lemma SplitCells<T>(m: Nodes<T>, n: Ref, i: nat, m': Nodes<T>, next: Ref, c: Context, h: nat)
    requires Ok(m, n, h) && m[n].cow == Some(c) && i < |m[n].items|
    requires next !in m || m[next].cow.None?
    requires var cs := m[n].children;
             m' == m[next := Cell(m[n].items[i + 1..], if |cs| > 0 && i < |cs| then cs[i + 1..] else [], Some(c))]
                    [n := Cell(m[n].items[..i], if |cs| > 0 && i < |cs| then cs[..i + 1] else [], Some(c))]
    ensures Ok(m', n, h) && Ok(m', next, h) && Reach(m', n, h) !! Reach(m', next, h)
    ensures Abs(m', n, h) == LeftPart(Abs(m, n, h), i) && Abs(m', next, h) == RightPart(Abs(m, n, h), i)
    ensures Writes(m, Reach(m, n, h), m', Reach(m', n, h) + Reach(m', next, h), c)
  {
    hide Ok, Oks, Reach, Under, Abs, AbsAll;
    Opened(m, n, h);
    NoneUnder(m, m[n].children, h);
    ReachLive(m, n, h);
    Regroup(m, n, next, m[n].children, if h > 0 then i + 1 else 0, m', h);
  }
}
