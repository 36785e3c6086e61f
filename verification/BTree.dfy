/**
 B-trees that share nodes: creation, `ReplaceOrInsert`, `Delete`/`DeleteMin`/`DeleteMax`
 and the lazy `Clone`.  However many trees share nodes, the forest behaves as
 independent sorted sets, one per tree.
 */
module BTree {
  import opened Wrappers
  import opened SortedSet
  import opened BTreeShape
  import opened BTreeUpdate
  import opened BTreeNodes
  import opened BTreeStore
  import BTreeIterate

  type TreeId = nat

  /** The fields of `BTree`; the free list behind `cow` is the store's. */
  datatype Handle = Handle(degree: nat, length: nat, root: Option<Ref>, cow: Context)

  /** The references tree `t` reaches. */
  ghost function Uses<T>(m: Nodes<T>, t: Handle, h: nat): set<Ref> {
    if t.root.Some? then Reach(m, t.root.value, h) else {}
  }

  /** A tree on its own: a well-formed, sorted B-tree whose recorded length is right. */
  ghost predicate TreeOk<T(!new)>(lt: (T, T) -> bool, m: Nodes<T>, t: Handle, h: nat) {
    && t.degree >= 2
    && (t.root.None? ==> t.length == 0)
    && (t.root.Some? ==>
          && Ok(m, t.root.value, h)
          && var v := Abs(m, t.root.value, h);
             RootOk(v, h, t.degree) && Sorted(lt, Flat(v)) && t.length == |Flat(v)|)
  }

  ghost function Contents<T(!new)>(lt: (T, T) -> bool, m: Nodes<T>, t: Handle, h: nat): seq<T>
    requires TreeOk(lt, m, t, h)
  {
    if t.root.None? then [] else Flat(Abs(m, t.root.value, h))
  }

  /** Every node in `s` has an owner among the contexts handed out so far. */
  ghost predicate Owned<T>(m: Nodes<T>, s: set<Ref>, next: Context) {
    forall r :: r in s ==> r in m && m[r].cow.Some? && m[r].cow.value < next
  }

  /** No node in `s` is owned by `c`. */
  ghost predicate Foreign<T>(m: Nodes<T>, s: set<Ref>, c: Context) {
    forall r :: r in s ==> r in m && m[r].cow != Some(c)
  }

  /** A tree of the forest: well formed, its nodes owned by contexts already handed out. */
  ghost predicate Member<T(!new)>(lt: (T, T) -> bool, m: Nodes<T>, t: Handle, h: nat, next: Context) {
    TreeOk(lt, m, t, h) && Owned(m, Uses(m, t, h), next) && t.cow < next
  }

  /** A tree that does not write under `c` and reaches no node `c` may write. */
  ghost predicate Apart<T>(m: Nodes<T>, t: Handle, h: nat, c: Context) {
    t.cow != c && Foreign(m, Uses(m, t, h), c)
  }

  /** All trees at once: each is well formed, no two write under the same context,
      and no tree reaches a node another tree may write. */
  ghost predicate ForestOk<T(!new)>(lt: (T, T) -> bool, m: Nodes<T>, trees: map<TreeId, Handle>, hs: map<TreeId, nat>,
                                    next: Context)
  {
    && hs.Keys == trees.Keys
    && (forall i :: i in trees ==> Member(lt, m, trees[i], hs[i], next))
    && (forall i, j :: i in trees && j in trees && i != j ==> Apart(m, trees[i], hs[i], trees[j].cow))
  }

  /** The abstract value of a forest: the set each tree holds. */
  ghost function Sets<T(!new)>(lt: (T, T) -> bool, m: Nodes<T>, trees: map<TreeId, Handle>, hs: map<TreeId, nat>,
                               next: Context): (sets: map<TreeId, seq<T>>)
    requires ForestOk(lt, m, trees, hs, next)
    ensures sets.Keys == trees.Keys
  {
    map i | i in trees :: Contents(lt, m, trees[i], hs[i])
  }

  /** The forest is in order and its trees hold `sets`. */
  ghost predicate Holds<T(!new)>(lt: (T, T) -> bool, m: Nodes<T>, trees: map<TreeId, Handle>, hs: map<TreeId, nat>,
                                 next: Context, sets: map<TreeId, seq<T>>)
  {
    ForestOk(lt, m, trees, hs, next) && Sets(lt, m, trees, hs, next) == sets
  }

  /** From store `m` to store `m'`, tree `t` stays a tree of the forest, keeps its
      contents, and stays apart from every context it was apart from. */
  ghost predicate Undisturbed<T(!new)>(lt: (T, T) -> bool, m: Nodes<T>, m': Nodes<T>, t: Handle, h: nat,
                                       next: Context, next': Context)
  {
    && Member(lt, m, t, h, next)
    && Member(lt, m', t, h, next')
    && Contents(lt, m', t, h) == Contents(lt, m, t, h)
    && forall k :: Apart(m, t, h, k) ==> Apart(m', t, h, k)
  }

  /** A write by one tree leaves every other tree's nodes, contents and ownership alone. */
  lemma OthersUnaffected<T(!new)>(lt: (T, T) -> bool, m: Nodes<T>, m': Nodes<T>, s: set<Ref>, s': set<Ref>,
                                  c: Context, t: Handle, h: nat, next: Context)
    requires Member(lt, m, t, h, next) && Apart(m, t, h, c) && Writes(m, s, m', s', c)
    ensures Undisturbed(lt, m, m', t, h, next, next)
  {
    hide Ok, Reach, Abs, Flat, Sorted, RootOk;
    if t.root.Some? {
      Same(m, m', t.root.value, h);
    }
  }

  /** What a writing tree reaches afterwards is owned by its own context, or is
      untouched and therefore owned by nobody else. */
  lemma WriterStaysOwner<T(!new)>(lt: (T, T) -> bool, m: Nodes<T>, t: Handle, h: nat,
                                  m': Nodes<T>, t': Handle, h': nat, next: Context)
    requires Member(lt, m, t, h, next) && TreeOk(lt, m', t', h') && t'.cow == t.cow
    requires Writes(m, Uses(m, t, h), m', Uses(m', t', h'), t.cow)
    ensures Member(lt, m', t', h', next)
    ensures forall k :: Apart(m, t, h, k) ==> Apart(m', t', h', k)
  {
    hide TreeOk, Uses;
  }

  /** Tree `t'` can take the place of tree `i`, or join the forest as tree `i`: it is
      well formed, it and every other tree are apart, and no other tree is disturbed. */
  ghost predicate CanTakePlace<T(!new)>(lt: (T, T) -> bool, m: Nodes<T>, trees: map<TreeId, Handle>,
                                        hs: map<TreeId, nat>, next: Context, i: TreeId,
                                        m': Nodes<T>, t': Handle, h': nat, next': Context)
    requires hs.Keys == trees.Keys
  {
    && Member(lt, m', t', h', next')
    && forall j :: j in trees && j != i ==>
         && Undisturbed(lt, m, m', trees[j], hs[j], next, next')
         && Apart(m', trees[j], hs[j], t'.cow) && Apart(m', t', h', trees[j].cow)
  }

  lemma ForestKept<T(!new)>(lt: (T, T) -> bool, m: Nodes<T>, trees: map<TreeId, Handle>, hs: map<TreeId, nat>,
                            next: Context, i: TreeId, m': Nodes<T>, t': Handle, h': nat, next': Context)
    requires ForestOk(lt, m, trees, hs, next)
    requires CanTakePlace(lt, m, trees, hs, next, i, m', t', h', next')
    ensures ForestOk(lt, m', trees[i := t'], hs[i := h'], next')
  {
    hide Member, Contents, Apart;
  }

  /** The forest with `t'` as tree `i`: every other tree holds the set it held. */
  lemma ForestReplace<T(!new)>(lt: (T, T) -> bool, m: Nodes<T>, trees: map<TreeId, Handle>, hs: map<TreeId, nat>,
                               next: Context, i: TreeId, m': Nodes<T>, t': Handle, h': nat, next': Context)
    requires ForestOk(lt, m, trees, hs, next)
    requires CanTakePlace(lt, m, trees, hs, next, i, m', t', h', next')
    ensures Holds(lt, m', trees[i := t'], hs[i := h'], next',
                  Sets(lt, m, trees, hs, next)[i := Contents(lt, m', t', h')])
  {
    hide TreeOk, Contents, Apart, Uses, Owned;
    ForestKept(lt, m, trees, hs, next, i, m', t', h', next');
  }

  /** Replacing tree `i` after a write under its own context keeps the whole forest,
      and changes only the set of tree `i`. */
  lemma ForestWrite<T(!new)>(lt: (T, T) -> bool, m: Nodes<T>, trees: map<TreeId, Handle>, hs: map<TreeId, nat>,
                             next: Context, i: TreeId, m': Nodes<T>, t': Handle, h': nat)
    requires ForestOk(lt, m, trees, hs, next) && i in trees && t'.cow == trees[i].cow
    requires TreeOk(lt, m', t', h')
    requires Writes(m, Uses(m, trees[i], hs[i]), m', Uses(m', t', h'), t'.cow)
    ensures Holds(lt, m', trees[i := t'], hs[i := h'], next,
                  Sets(lt, m, trees, hs, next)[i := Contents(lt, m', t', h')])
  {
    hide TreeOk, Contents, Apart, Uses, Writes, Owned, Sets;
    WriterStaysOwner(lt, m, trees[i], hs[i], m', t', h', next);
    forall j | j in trees && j != i
      ensures Undisturbed(lt, m, m', trees[j], hs[j], next, next)
    {
      OthersUnaffected(lt, m, m', Uses(m, trees[i], hs[i]), Uses(m', t', h'), t'.cow, trees[j], hs[j], next);
    }
    ForestReplace(lt, m, trees, hs, next, i, m', t', h', next);
  }

  /** A context handed out next owns nothing a tree reaches. */
  lemma FreshContext<T(!new)>(lt: (T, T) -> bool, m: Nodes<T>, t: Handle, h: nat, next: Context)
    requires Member(lt, m, t, h, next)
    ensures Undisturbed(lt, m, m, t, h, next, next + 1) && Apart(m, t, h, next)
  {
    hide TreeOk, Uses;
  }

  /** The same nodes under another context. */
  lemma SameTree<T(!new)>(lt: (T, T) -> bool, m: Nodes<T>, t: Handle, c: Context, h: nat, next: Context)
    requires Member(lt, m, t, h, next) && next <= c
    ensures Member(lt, m, t.(cow := c), h, c + 1) && Contents(lt, m, t.(cow := c), h) == Contents(lt, m, t, h)
    ensures forall k :: Apart(m, t, h, k) && k != c ==> Apart(m, t.(cow := c), h, k)
    ensures forall k :: next <= k && k != c ==> Apart(m, t.(cow := c), h, k)
  {
  }

  /** Adding a tree that writes under a fresh context. */
  lemma ForestAdd<T(!new)>(lt: (T, T) -> bool, m: Nodes<T>, trees: map<TreeId, Handle>, hs: map<TreeId, nat>,
                           next: Context, i: TreeId, t: Handle, h: nat)
    requires ForestOk(lt, m, trees, hs, next) && i !in trees && t.cow == next && Member(lt, m, t, h, next + 1)
    requires forall j :: j in trees ==> Apart(m, t, h, trees[j].cow)
    ensures Holds(lt, m, trees[i := t], hs[i := h], next + 1,
                  Sets(lt, m, trees, hs, next)[i := Contents(lt, m, t, h)])
  {
    hide TreeOk, Contents, Uses, Owned, Apart, Undisturbed, Sets;
    forall j | j in trees
      ensures Undisturbed(lt, m, m, trees[j], hs[j], next, next + 1) && Apart(m, trees[j], hs[j], next)
    {
      FreshContext(lt, m, trees[j], hs[j], next);
    }
    ForestReplace(lt, m, trees, hs, next, i, m, t, h, next + 1);
  }

  lemma ForestNew<T(!new)>(lt: (T, T) -> bool, m: Nodes<T>, trees: map<TreeId, Handle>, hs: map<TreeId, nat>,
                           next: Context, i: TreeId, degree: nat)
    requires ForestOk(lt, m, trees, hs, next) && i !in trees && degree >= 2
    ensures Holds(lt, m, trees[i := Handle(degree, 0, None, next)], hs[i := 0], next + 1,
                  Sets(lt, m, trees, hs, next)[i := []])
  {
    ForestAdd(lt, m, trees, hs, next, i, Handle(degree, 0, None, next), 0);
  }

  /** Giving a tree a fresh context: the nodes it had become nobody's to write. */
  lemma ForestRecontext<T(!new)>(lt: (T, T) -> bool, m: Nodes<T>, trees: map<TreeId, Handle>, hs: map<TreeId, nat>,
                                 next: Context, i: TreeId, t: Handle)
    requires ForestOk(lt, m, trees, hs, next) && i in trees && t == trees[i].(cow := next)
    ensures Holds(lt, m, trees[i := t], hs, next + 1, Sets(lt, m, trees, hs, next))
  {
    hide TreeOk, Uses, Owned, Undisturbed, Apart, Contents;
    SameTree(lt, m, trees[i], next, hs[i], next);
    forall j | j in trees
      ensures Undisturbed(lt, m, m, trees[j], hs[j], next, next + 1) && Apart(m, trees[j], hs[j], next)
    {
      FreshContext(lt, m, trees[j], hs[j], next);
    }
    assert hs[i := hs[i]] == hs;
    ForestReplace(lt, m, trees, hs, next, i, m, t, hs[i], next + 1);
    assert Sets(lt, m, trees, hs, next)[i := Contents(lt, m, t, hs[i])] == Sets(lt, m, trees, hs, next);
  }

  /** The clone's handle, under the second fresh context, next to the origin's under
      the first: it holds what the origin holds and is apart from every tree. */
  lemma CloneApart<T(!new)>(lt: (T, T) -> bool, m: Nodes<T>, trees: map<TreeId, Handle>, hs: map<TreeId, nat>,
                            next: Context, i: TreeId, c: Handle)
    requires ForestOk(lt, m, trees, hs, next) && i in trees && c == trees[i].(cow := next + 1)
    ensures i in hs && Member(lt, m, c, hs[i], next + 2)
    ensures Contents(lt, m, c, hs[i]) == Sets(lt, m, trees, hs, next)[i]
    ensures forall j :: j in trees && j != i ==> Apart(m, c, hs[i], trees[j].cow)
    ensures Apart(m, c, hs[i], next)
  {
    hide TreeOk, Owned, Apart, Contents, Uses;
    SameTree(lt, m, trees[i], next + 1, hs[i], next);
    assert forall j :: j in trees ==> Member(lt, m, trees[j], hs[j], next);
  }

  /** `Clone`: two fresh contexts, one handle each, over the same nodes. */
  lemma ForestClone<T(!new)>(lt: (T, T) -> bool, m: Nodes<T>, trees: map<TreeId, Handle>, hs: map<TreeId, nat>,
                             next: Context, i: TreeId, k: TreeId)
    requires ForestOk(lt, m, trees, hs, next) && i in trees && k !in trees
    ensures Holds(lt, m, trees[i := trees[i].(cow := next)][k := trees[i].(cow := next + 1)], hs[k := hs[i]], next + 2,
                  Sets(lt, m, trees, hs, next)[k := Sets(lt, m, trees, hs, next)[i]])
  {
    hide ForestOk, Sets, Member, Apart, Contents;
    var c := trees[i].(cow := next + 1);
    CloneApart(lt, m, trees, hs, next, i, c);
    ForestRecontext(lt, m, trees, hs, next, i, trees[i].(cow := next));
    ForestAdd(lt, m, trees[i := trees[i].(cow := next)], hs, next + 1, k, c, hs[i]);
  }

  // ---------- what a run does ----------

  /** One public call.  A call on a tree that does not exist has no effect here. */
  datatype Op<+T> = Create(degree: nat) | Put(id: TreeId, x: T) | Take(id: TreeId, what: Removal<T>) | Copy(id: TreeId)

  /** The effect of a call on independent sorted sets. */
  function StepSets<T>(lt: (T, T) -> bool, s: map<TreeId, seq<T>>, next: TreeId,
                       op: Op<T>): (map<TreeId, seq<T>>, TreeId, Option<T>)
  {
    match op
    case Create(d) => if d <= 1 then (s, next, None) else (s[next := []], next + 1, None)
    case Put(i, x) =>
      if i !in s then (s, next, None) else (s[i := SetInsert(lt, s[i], x).0], next, SetInsert(lt, s[i], x).1)
    case Take(i, what) =>
      if i !in s then (s, next, None) else (s[i := SetRemove(lt, s[i], what).0], next, SetRemove(lt, s[i], what).1)
    case Copy(i) => if i !in s then (s, next, None) else (s[next := s[i]], next + 1, None)
  }

  function RunSets<T>(lt: (T, T) -> bool, s: map<TreeId, seq<T>>, next: TreeId,
                      ops: seq<Op<T>>): (map<TreeId, seq<T>>, TreeId, seq<Option<T>>)
  {
    if ops == [] then (s, next, [])
    else
      var (s1, n1, outs) := RunSets(lt, s, next, ops[..|ops| - 1]);
      var (s2, n2, out) := StepSets(lt, s1, n1, ops[|ops| - 1]);
      (s2, n2, outs + [out])
  }

  /** The updates addressed to one tree, applied alone. */
  function Replay<T>(lt: (T, T) -> bool, s: seq<T>, id: TreeId, ops: seq<Op<T>>): seq<T> {
    if ops == [] then s
    else
      var s1 := Replay(lt, s, id, ops[..|ops| - 1]);
      match ops[|ops| - 1]
      case Put(i, x) => if i == id then SetInsert(lt, s1, x).0 else s1
      case Take(i, what) => if i == id then SetRemove(lt, s1, what).0 else s1
      case _ => s1
  }

  /** After any run, a tree holds what its own updates alone would have left in it,
      whatever was done to its clones and its origin in between. */
  lemma {:induction false} RunIsolated<T>(lt: (T, T) -> bool, s: map<TreeId, seq<T>>, next: TreeId, ops: seq<Op<T>>,
                                          id: TreeId)
    requires id in s && forall i :: i in s ==> i < next
    ensures var (s', n', _) := RunSets(lt, s, next, ops);
            && id in s' && s'[id] == Replay(lt, s[id], id, ops)
            && next <= n' && forall i :: i in s' ==> i < n'
  {
    if ops != [] {
      RunIsolated(lt, s, next, ops[..|ops| - 1], id);
    }
  }

  /** A clone starts from its origin's contents and from then on follows its own updates. */
  lemma {:induction false} CloneIsolated<T>(lt: (T, T) -> bool, s: map<TreeId, seq<T>>, next: TreeId, id: TreeId,
                                            ops: seq<Op<T>>)
    requires id in s && forall i :: i in s ==> i < next
    ensures var (s', n', _) := RunSets(lt, s, next, [Copy(id)] + ops);
            && id in s' && s'[id] == Replay(lt, s[id], id, ops)
            && next in s' && s'[next] == Replay(lt, s[id], next, ops)
  {
    var s1 := s[next := s[id]];
    RunAppend(lt, s, next, [Copy(id)], ops);
    var one: seq<Op<T>> := [Copy(id)];
    assert one[..|one| - 1] == [] && one[|one| - 1] == Copy(id);
    assert RunSets(lt, s, next, one[..|one| - 1]) == (s, next, []);
    assert RunSets(lt, s, next, one).0 == s1 && RunSets(lt, s, next, one).1 == next + 1;
    RunIsolated(lt, s1, next + 1, ops, id);
    RunIsolated(lt, s1, next + 1, ops, next);
  }

  lemma {:induction false} RunAppend<T>(lt: (T, T) -> bool, s: map<TreeId, seq<T>>, next: TreeId, a: seq<Op<T>>,
                                        b: seq<Op<T>>)
    ensures var (s1, n1, o1) := RunSets(lt, s, next, a);
            var (s2, n2, o2) := RunSets(lt, s1, n1, b);
            RunSets(lt, s, next, a + b) == (s2, n2, o1 + o2)
    decreases |b|
  {
    if b == [] {
      assert a + b == a && RunSets(lt, s, next, a).2 + [] == RunSets(lt, s, next, a).2;
    } else {
      assert (a + b)[..|a + b| - 1] == a + b[..|b| - 1];
      RunAppend(lt, s, next, a, b[..|b| - 1]);
      var (s1, n1, o1) := RunSets(lt, s, next, a);
      var (s2, n2, o2) := RunSets(lt, s1, n1, b[..|b| - 1]);
      var out := StepSets(lt, s2, n2, b[|b| - 1]).2;
      assert o1 + o2 + [out] == o1 + (o2 + [out]);
    }
  }

  class Forest<T(!new)> {
    const store: NodeStore<T>
    var trees: map<TreeId, Handle>
    var nextTree: TreeId
    var nextCow: Context
    ghost var heights: map<TreeId, nat>

    ghost predicate Valid()
      reads this, store
    {
      && StrictWeakOrder(store.lt) && store.Valid()
      && (forall i :: i in trees ==> i < nextTree)
      && ForestOk(store.lt, store.nodes, trees, heights, nextCow)
    }

    /** The set each tree holds. */
    ghost function Model(): map<TreeId, seq<T>>
      requires Valid()
      reads this, store
    {
      Sets(store.lt, store.nodes, trees, heights, nextCow)
    }

    constructor (lt: (T, T) -> bool, capacity: nat)
      requires StrictWeakOrder(lt)
      ensures Valid() && fresh(store) && store.lt == lt && Model() == map[]
    {
      store := new NodeStore(lt, capacity);
      trees, nextTree, nextCow, heights := map[], 0, 0, map[];
      new;
      assert Model().Keys == {};
    }

    /** `NewWithFreeList`; a degree of one or less panics, here `None`. */
    method New(degree: nat) returns (id: Option<TreeId>)
      requires Valid()
      modifies this
      ensures Valid()
      ensures id.None? <==> degree <= 1
      ensures id.None? ==> Model() == old(Model())
      ensures id.Some? ==>
              id.value == old(nextTree) && id.value !in old(Model()) && Model() == old(Model())[id.value := []]
      ensures nextTree == old(nextTree) + (if id.Some? then 1 else 0)
    {
      hide ForestOk, Sets, FreeOk, StrictWeakOrder;
      if degree <= 1 {
        return None;
      }
      var i := nextTree;
      ForestNew(store.lt, store.nodes, trees, heights, nextCow, i, degree);
      trees := trees[i := Handle(degree, 0, None, nextCow)];
      heights := heights[i := 0];
      nextTree, nextCow := nextTree + 1, nextCow + 1;
      id := Some(i);
    }

    /** `ReplaceOrInsert` on tree `id`. */
    method ReplaceOrInsert(id: TreeId, x: T) returns (out: Option<T>)
      requires Valid() && id in trees
      modifies this, store
      ensures Valid() && nextTree == old(nextTree)
      ensures out == SetInsert(store.lt, old(Model())[id], x).1
      ensures Model() == old(Model())[id := SetInsert(store.lt, old(Model())[id], x).0]
    {
      hide ForestOk, Sets, FreeOk, StrictWeakOrder, TreeOk, Contents, Uses, Writes, SetInsert;
      ghost var m := store.nodes;
      ForestHas(store.lt, m, trees, heights, nextCow, id);
      var t;
      ghost var h;
      t, out, h := PutInto(trees[id], x, heights[id]);
      ForestWrite(store.lt, m, trees, heights, nextCow, id, store.nodes, t, h);
      trees := trees[id := t];
      heights := heights[id := h];
    }

    /** `deleteItem` on tree `id`: `Delete`, `DeleteMin` or `DeleteMax`. */
    method Delete(id: TreeId, what: Removal<T>) returns (out: Option<T>)
      requires Valid() && id in trees
      modifies this, store
      ensures Valid() && nextTree == old(nextTree)
      ensures out == SetRemove(store.lt, old(Model())[id], what).1
      ensures Model() == old(Model())[id := SetRemove(store.lt, old(Model())[id], what).0]
    {
      hide ForestOk, Sets, FreeOk, StrictWeakOrder, TreeOk, Contents, Uses, Writes, SetRemove;
      ghost var m := store.nodes;
      ForestHas(store.lt, m, trees, heights, nextCow, id);
      var t;
      ghost var h;
      t, out, h := DeleteFrom(trees[id], what, heights[id]);
      ForestWrite(store.lt, m, trees, heights, nextCow, id, store.nodes, t, h);
      trees := trees[id := t];
      heights := heights[id := h];
    }

    /** `Clone`: no node is copied; both trees get contexts of their own. */
    method Clone(id: TreeId) returns (id2: TreeId)
      requires Valid() && id in trees
      modifies this
      ensures Valid() && id2 == old(nextTree) && id2 !in old(Model()) && nextTree == old(nextTree) + 1
      ensures Model() == old(Model())[id2 := old(Model())[id]]
    {
      hide ForestOk, Sets, FreeOk, StrictWeakOrder;
      ForestHas(store.lt, store.nodes, trees, heights, nextCow, id);
      id2 := nextTree;
      ForestClone(store.lt, store.nodes, trees, heights, nextCow, id, id2);
      var cow1, cow2 := nextCow, nextCow + 1;
      var out := trees[id];
      trees := trees[id := trees[id].(cow := cow1)][id2 := out.(cow := cow2)];
      heights := heights[id2 := heights[id]];
      nextTree, nextCow := nextTree + 1, nextCow + 2;
    }

    /** `Len` is the number of items stored. */
    method Len(id: TreeId) returns (n: nat)
      requires Valid() && id in trees
      ensures n == |Model()[id]|
    {
      ForestHas(store.lt, store.nodes, trees, heights, nextCow, id);
      n := trees[id].length;
    }

    /** `Get` on tree `id`. */
    method Get(id: TreeId, key: T) returns (out: Option<T>)
      requires Valid() && id in trees
      ensures out == SetGet(store.lt, Model()[id], key)
    {
      ForestHas(store.lt, store.nodes, trees, heights, nextCow, id);
      if trees[id].root.None? {
        return None;
      }
      out := BTreeIterate.Get(store.lt, store.nodes, trees[id].root.value, key, heights[id]);
    }

    /** The `Ascend*` and `Descend*` methods on tree `id`: the callback gets the stored
        items in range, in order, up to the first one it refuses. */
    method Range(id: TreeId, q: BTreeIterate.Query<T>, keep: seq<T> -> bool) returns (seen: seq<T>)
      requires Valid() && id in trees
      ensures BTreeIterate.Served(keep, seen, BTreeIterate.Answer(store.lt, q, Model()[id]))
    {
      ForestHas(store.lt, store.nodes, trees, heights, nextCow, id);
      seen := BTreeIterate.Range(store.lt, store.nodes, trees[id].root, q, keep, heights[id]);
    }

    /** Any interleaving of creations, updates and clones: the forest refines
        independent sorted sets, results included. */
    method Run(ops: seq<Op<T>>) returns (outs: seq<Option<T>>)
      requires Valid()
      modifies this, store
      ensures Valid()
      ensures (Model(), nextTree, outs) == RunSets(store.lt, old(Model()), old(nextTree), ops)
    {
      hide ForestOk, Sets, FreeOk, StrictWeakOrder, SetInsert, SetRemove;
      outs := [];
      var k := 0;
      while k < |ops|
        invariant 0 <= k <= |ops| && Valid()
        invariant (Model(), nextTree, outs) == RunSets(store.lt, old(Model()), old(nextTree), ops[..k])
      {
        assert ops[..k + 1][..k] == ops[..k];
        var out := None;
        match ops[k] {
          case Create(d) =>
            var id := New(d);
          case Put(i, x) =>
            if i in trees {
              out := ReplaceOrInsert(i, x);
            }
          case Take(i, what) =>
            if i in trees {
              out := Delete(i, what);
            }
          case Copy(i) =>
            if i in trees {
              var id := Clone(i);
            }
        }
        outs := outs + [out];
        k := k + 1;
      }
      assert ops[..|ops|] == ops;
    }

    /** The part of `ReplaceOrInsert` that works on one tree. */
    method PutInto(t: Handle, x: T, ghost h: nat) returns (t': Handle, out: Option<T>, ghost h': nat)
      requires StrictWeakOrder(store.lt) && store.Valid() && TreeOk(store.lt, store.nodes, t, h)
      modifies store
      ensures store.Valid() && t'.cow == t.cow && t'.degree == t.degree
      ensures TreeOk(store.lt, store.nodes, t', h')
      ensures out == SetInsert(store.lt, old(Contents(store.lt, store.nodes, t, h)), x).1
      ensures Contents(store.lt, store.nodes, t', h')
              == SetInsert(store.lt, old(Contents(store.lt, store.nodes, t, h)), x).0
      ensures Writes(old(store.nodes), old(Uses(store.nodes, t, h)), store.nodes, Uses(store.nodes, t', h'), t.cow)
    {
      hide FreeOk, StrictWeakOrder, SetInsert, Ok, Reach, Abs, Flat, Kids, Sorted, BTreeUpdate.Insert, Writes;
      ghost var m0 := store.nodes;
      var d := t.degree;
      if t.root.None? {
        var n := store.NewNode(t.cow);
        store.Write(n, store.nodes[n].items + [x], store.nodes[n].children);
        t', h' := t.(root := Some(n), length := t.length + 1), 0;
        OneLeaf(store.lt, store.nodes, n, x, d);
        assert store.nodes == m0[n := store.nodes[n]];
        WritesFresh(m0, n, store.nodes[n], t.cow);
        InsertFirst(store.lt, x);
        return t', None, h';
      }
      h' := h;
      var r := store.MutableFor(t.root.value, t.cow, h);
      ghost var m1 := store.nodes;
      ghost var v := Abs(m0, t.root.value, h);
      ghost var r1 := r;
      ReachLive(m1, r, h);
      WritesNothing(m1, Reach(m1, r, h), t.cow);
      if |store.nodes[r].items| >= 2 * d - 1 {
        GrowRootShape(v, h, d);
        r := store.SplitRoot(r, d, t.cow, h);
        h' := h + 1;
      }
      ghost var m2 := store.nodes;
      ghost var v' := Abs(m2, r, h');
      InsertRoot(store.lt, v', x, h', d);
      WritesTrans(m0, Reach(m0, t.root.value, h), m1, Reach(m1, r1, h), m2, Reach(m2, r, h'), t.cow);
      out := store.Insert(r, x, d, t.cow, h');
      WritesTrans(m0, Reach(m0, t.root.value, h), m2, Reach(m2, r, h'), store.nodes, Reach(store.nodes, r, h'), t.cow);
      t' := t.(root := Some(r), length := if out.None? then t.length + 1 else t.length);
    }

    /** The part of `deleteItem` that works on one tree. */
    method DeleteFrom(t: Handle, what: Removal<T>, ghost h: nat) returns (t': Handle, out: Option<T>, ghost h': nat)
      requires StrictWeakOrder(store.lt) && store.Valid() && TreeOk(store.lt, store.nodes, t, h)
      modifies store
      ensures store.Valid() && t'.cow == t.cow && t'.degree == t.degree
      ensures TreeOk(store.lt, store.nodes, t', h')
      ensures out == SetRemove(store.lt, old(Contents(store.lt, store.nodes, t, h)), what).1
      ensures Contents(store.lt, store.nodes, t', h')
              == SetRemove(store.lt, old(Contents(store.lt, store.nodes, t, h)), what).0
      ensures Writes(old(store.nodes), old(Uses(store.nodes, t, h)), store.nodes, Uses(store.nodes, t', h'), t.cow)
    {
      hide FreeOk, StrictWeakOrder, SetRemove, Ok, Reach, Abs, Flat, Kids, Sorted, BTreeUpdate.Remove, Writes;
      ghost var m0 := store.nodes;
      if t.root.Some? { Opened(m0, t.root.value, h); }
      if t.root.None? || |store.nodes[t.root.value].items| == 0 {
        RemoveNothing(store.lt, m0, t, what, h);
        return t, None, h;
      }
      t', h' := t, h;
      var r := store.MutableFor(t.root.value, t.cow, h);
      ghost var m1 := store.nodes;
      ghost var v := Abs(m0, t.root.value, h);
      RemoveRoot(store.lt, v, what, h, t.degree);
      out := store.Remove(r, what, t.degree, t.cow, h);
      ghost var m2 := store.nodes;
      WritesTrans(m0, Reach(m0, t.root.value, h), m1, Reach(m1, r, h), m2, Reach(m2, r, h), t.cow);
      ghost var r1 := r;
      if |store.nodes[r].items| == 0 && |store.nodes[r].children| > 0 {
        RootHasChild(m2, r, h);
        r := store.CollapseRoot(r, t.cow, h);
        h' := h - 1;
        WritesTrans(m0, Reach(m0, t.root.value, h), m2, Reach(m2, r1, h), store.nodes, Reach(store.nodes, r, h'),
            t.cow);
      }
      t' := t.(root := Some(r), length := if out.Some? then t.length - 1 else t.length);
    }
  }

  lemma ForestHas<T(!new)>(lt: (T, T) -> bool, m: Nodes<T>, trees: map<TreeId, Handle>, hs: map<TreeId, nat>,
                           next: Context, i: TreeId)
    requires ForestOk(lt, m, trees, hs, next) && i in trees
    ensures hs.Keys == trees.Keys && TreeOk(lt, m, trees[i], hs[i])
    ensures Sets(lt, m, trees, hs, next)[i] == Contents(lt, m, trees[i], hs[i])
    ensures |Contents(lt, m, trees[i], hs[i])| == trees[i].length
  {
  }

  lemma OneLeaf<T(!new)>(lt: (T, T) -> bool, m: Nodes<T>, n: Ref, x: T, d: nat)
    requires n in m && m[n].items == [x] && m[n].children == [] && m[n].cow.Some? && d >= 2
    ensures Ok(m, n, 0) && Reach(m, n, 0) == {n}
    ensures var v := Abs(m, n, 0); RootOk(v, 0, d) && Flat(v) == [x] && Sorted(lt, Flat(v))
  {
    assert Abs(m, n, 0) == Node([x], []);
    assert Reach(m, n, 0) == {n};
  }

  lemma WritesFresh<T>(m: Nodes<T>, n: Ref, cell: Cell<T>, c: Context)
    requires (n !in m || m[n].cow.None?) && cell.cow == Some(c)
    ensures Writes(m, {}, m[n := cell], {n}, c)
  {
  }

  lemma InsertFirst<T>(lt: (T, T) -> bool, x: T)
    ensures SetInsert(lt, [], x) == ([x], None)
  {
    var none: seq<T> := [];
    assert none[..0] + [x] + none[0..] == [x];
  }

  lemma RootHasChild<T>(m: Nodes<T>, r: Ref, h: nat)
    requires Ok(m, r, h) && |m[r].children| > 0
    ensures h > 0
  {
  }

  /** Deleting from an empty tree. */
  lemma RemoveNothing<T(!new)>(lt: (T, T) -> bool, m: Nodes<T>, t: Handle, what: Removal<T>, h: nat)
    requires TreeOk(lt, m, t, h) && (t.root.Some? ==> |m[t.root.value].items| == 0)
    ensures Contents(lt, m, t, h) == [] && SetRemove(lt, [], what) == ([], None)
    ensures Writes(m, Uses(m, t, h), m, Uses(m, t, h), t.cow)
  {
    if t.root.Some? {
      ReachLive(m, t.root.value, h);
      WritesNothing(m, Uses(m, t, h), t.cow);
    }
  }
}
