/**
 Lookup and range iteration.  `iterate` hands items to a callback that may stop it;
 the callback is modelled as a predicate on everything handed over so far, so it may
 depend on the whole history.
 */
module BTreeIterate {
  import opened Wrappers
  import opened SortedSet
  import opened BTreeShape
  import opened BTreeNodes

  // ---------- lookup ----------

  /** `node.get`. */
  method Get<T(!new)>(lt: (T, T) -> bool, nodes: Nodes<T>, n: Ref, key: T, ghost h: nat) returns (out: Option<T>)
    requires StrictWeakOrder(lt) && Ok(nodes, n, h) && Sorted(lt, Flat(Abs(nodes, n, h)))
    ensures out == SetGet(lt, Flat(Abs(nodes, n, h)), key)
    decreases h
  {
    hide Ok, Oks, Reach, Under, Abs, AbsAll, Flat, StrictWeakOrder, Sorted;
    ghost var t := Abs(nodes, n, h);
    Opened(nodes, n, h);
    NoneUnder(nodes, nodes[n].children, h);
    ItemsSorted(lt, t);
    var i, found := FindIndex(lt, nodes[n].items, key);
    GetStep(lt, t, key, i, found);
    if found {
      return Some(nodes[n].items[i]);
    } else if |nodes[n].children| > 0 {
      Pick(nodes, nodes[n].children, i, h);
      Separated(lt, t, i);
      out := Get(lt, nodes, nodes[n].children[i], key, h - 1);
    } else {
      return None;
    }
  }

  lemma GetStep<T(!new)>(lt: (T, T) -> bool, t: Tree<T>, key: T, i: nat, found: bool)
    requires StrictWeakOrder(lt) && Sorted(lt, Flat(t)) && Find(lt, t.items, key) == (i, found)
    requires |t.children| == 0 || |t.children| == |t.items| + 1
    ensures found ==> SetGet(lt, Flat(t), key) == Some(t.items[i])
    ensures !found && |t.children| == 0 ==> SetGet(lt, Flat(t), key) == None
    ensures !found && |t.children| > 0 ==> SetGet(lt, Flat(t), key) == SetGet(lt, Flat(t.children[i]), key)
  {
    if |t.children| > 0 {
      hide Flat, SetGet;
      FindSides(lt, t, key);
      if found {
        AroundItem(t, i);
        HitContext(lt, Left(t, i) + Flat(t.children[i]), t.items[i], Flat(t.children[i + 1]) + Right(t, i + 1), key);
      } else {
        Around(t, i);
        GetContext(lt, Left(t, i), Flat(t.children[i]), Right(t, i), key);
      }
    }
  }

  // ---------- walking a list ----------

  /** The range parameters of `iterate`. */
  datatype Bounds<+T> = Bounds(start: Option<T>, stop: Option<T>, includeStart: bool)

  /** The order seen when going downwards. */
  function Flip<T>(lt: (T, T) -> bool): (T, T) -> bool { (x, y) => lt(y, x) }

  /** Before the start of the range, or at it when the start is excluded. */
  predicate Early<T>(lt: (T, T) -> bool, b: Bounds<T>, x: T) {
    b.start.Some? && if b.includeStart then lt(x, b.start.value) else !lt(b.start.value, x)
  }

  /** At or past the stop. */
  predicate Late<T>(lt: (T, T) -> bool, b: Bounds<T>, x: T) {
    b.stop.Some? && !lt(x, b.stop.value)
  }

  /** Handing the items of `s` over in order: early ones are skipped, a late one or a
      refusal ends the walk. */
  function Walk<T>(lt: (T, T) -> bool, b: Bounds<T>, keep: seq<T> -> bool, seen: seq<T>, s: seq<T>): (seq<T>, bool)
    decreases |s|
  {
    if s == [] then (seen, true)
    else if Early(lt, b, s[0]) then Walk(lt, b, keep, seen, s[1..])
    else if Late(lt, b, s[0]) then (seen, false)
    else
      var seen' := seen + [s[0]];
      if keep(seen') then Walk(lt, b, keep, seen', s[1..]) else (seen', false)
  }

  lemma {:induction false} WalkConcat<T>(lt: (T, T) -> bool, b: Bounds<T>, keep: seq<T> -> bool, seen: seq<T>,
                                         s: seq<T>, r: seq<T>)
    ensures var (seen', ok) := Walk(lt, b, keep, seen, s);
            Walk(lt, b, keep, seen, s + r) == if ok then Walk(lt, b, keep, seen', r) else (seen', false)
    decreases |s|
  {
    if s == [] {
      assert s + r == r;
    } else {
      assert (s + r)[1..] == s[1..] + r;
      if Early(lt, b, s[0]) {
        WalkConcat(lt, b, keep, seen, s[1..], r);
      } else if !Late(lt, b, s[0]) {
        WalkConcat(lt, b, keep, seen + [s[0]], s[1..], r);
      }
    }
  }

  lemma {:induction false} WalkEarly<T>(lt: (T, T) -> bool, b: Bounds<T>, keep: seq<T> -> bool, seen: seq<T>, s: seq<T>)
    requires forall i :: 0 <= i < |s| ==> Early(lt, b, s[i])
    ensures Walk(lt, b, keep, seen, s) == (seen, true)
  {
    if s != [] { WalkEarly(lt, b, keep, seen, s[1..]); }
  }

  /** One item of a walk, after the part `p` and the gap `g` were walked. */
  lemma WalkStep<T>(lt: (T, T) -> bool, b: Bounds<T>, keep: seq<T> -> bool, seen0: seq<T>, p: seq<T>, g: seq<T>, x: T,
                    r: seq<T>, seen: seq<T>, seen1: seq<T>, ok1: bool)
    requires Walk(lt, b, keep, seen0, p) == (seen, true) && Walk(lt, b, keep, seen, g) == (seen1, ok1)
    ensures !ok1 ==> Walk(lt, b, keep, seen0, p + g + [x] + r) == (seen1, false)
    ensures ok1 && Early(lt, b, x) ==> Walk(lt, b, keep, seen0, p + g + [x]) == (seen1, true)
    ensures ok1 && !Early(lt, b, x) && Late(lt, b, x) ==> Walk(lt, b, keep, seen0, p + g + [x] + r) == (seen1, false)
    ensures ok1 && !Early(lt, b, x) && !Late(lt, b, x) && keep(seen1 + [x]) ==>
              Walk(lt, b, keep, seen0, p + g + [x]) == (seen1 + [x], true)
    ensures ok1 && !Early(lt, b, x) && !Late(lt, b, x) && !keep(seen1 + [x]) ==>
              Walk(lt, b, keep, seen0, p + g + [x] + r) == (seen1 + [x], false)
  {
    WalkConcat(lt, b, keep, seen0, p, g);
    WalkConcat(lt, b, keep, seen0, p + g, [x]);
    WalkConcat(lt, b, keep, seen0, p + g + [x], r);
    assert [x][1..] == [];
  }

  function Rev<T>(s: seq<T>): seq<T> {
    if s == [] then [] else Rev(s[1..]) + [s[0]]
  }

  lemma {:induction false} RevConcat<T>(a: seq<T>, b: seq<T>)
    ensures Rev(a + b) == Rev(b) + Rev(a)
  {
    if a == [] {
      assert a + b == b;
    } else {
      assert (a + b)[1..] == a[1..] + b;
      RevConcat(a[1..], b);
    }
  }

  lemma {:induction false} RevAt<T>(s: seq<T>)
    ensures |Rev(s)| == |s| && forall i :: 0 <= i < |s| ==> Rev(s)[i] == s[|s| - 1 - i]
  {
    if s != [] { RevAt(s[1..]); }
  }

  lemma RevSorted<T(!new)>(lt: (T, T) -> bool, s: seq<T>)
    requires Sorted(lt, s)
    ensures Sorted(Flip(lt), Rev(s))
  {
    RevAt(s);
  }

  // ---------- where a walk stands in a node ----------

  /** The contents between two neighbouring items of a node, before one of these
      gaps, and from an item on; empty gaps in a leaf. */
  function Gap<T>(t: Tree<T>, i: nat): seq<T>
    requires i <= |t.items| && (|t.children| == 0 || |t.children| == |t.items| + 1)
  {
    if |t.children| == 0 then [] else Flat(t.children[i])
  }

  function Before<T>(t: Tree<T>, i: nat): seq<T>
    requires i <= |t.items| && (|t.children| == 0 || |t.children| == |t.items| + 1)
  {
    if |t.children| == 0 then t.items[..i] else Left(t, i)
  }

  function From<T>(t: Tree<T>, i: nat): seq<T>
    requires i <= |t.items| && (|t.children| == 0 || |t.children| == |t.items| + 1)
  {
    if |t.children| == 0 then t.items[i..] else Right(t, i)
  }

  lemma AtGap<T>(t: Tree<T>, i: nat)
    requires i <= |t.items| && (|t.children| == 0 || |t.children| == |t.items| + 1)
    ensures Flat(t) == Before(t, i) + Gap(t, i) + From(t, i)
    ensures i == 0 ==> Before(t, i) == []
    ensures i == |t.items| ==> From(t, i) == []
    ensures i < |t.items| ==> Before(t, i + 1) == Before(t, i) + Gap(t, i) + [t.items[i]]
    ensures i < |t.items| ==> From(t, i) == [t.items[i]] + Gap(t, i + 1) + From(t, i + 1)
  {
    if |t.children| > 0 {
      Around(t, i);
      if i < |t.items| {
        LeftStep(t, i);
        RightStep(t, i);
      }
    }
  }

  /** Once something at or after the start was met, everything to come is after it. */
  ghost predicate Passed<T>(lt: (T, T) -> bool, b: Bounds<T>, hit: bool, rest: seq<T>) {
    hit && b.start.Some? ==> Above(lt, b.start.value, rest)
  }

  ghost predicate Met<T>(lt: (T, T) -> bool, b: Bounds<T>, s: seq<T>) {
    b.start.Some? ==> exists i :: 0 <= i < |s| && !lt(s[i], b.start.value)
  }

  lemma Spread<T(!new)>(lt: (T, T) -> bool, p: seq<T>, g: seq<T>, x: T, r: seq<T>)
    requires Sorted(lt, p + g + [x] + r)
    ensures Below(lt, g, x) && Above(lt, x, r)
  {
    SortedParts(lt, p + g, [x], r);
    assert [x][0] == x;
    forall i | 0 <= i < |g| ensures lt(g[i], x) { assert (p + g)[|p| + i] == g[i]; }
  }

  /** Items after one that is not before the start are after the start. */
  lemma MetPasses<T(!new)>(lt: (T, T) -> bool, b: Bounds<T>, y: T, r: seq<T>)
    requires StrictWeakOrder(lt) && Above(lt, y, r) && (b.start.Some? ==> !lt(y, b.start.value))
    ensures Passed(lt, b, true, r)
  {
  }

  /** How the flag `hit` moves past a gap and an item. */
  lemma HitStep<T(!new)>(lt: (T, T) -> bool, b: Bounds<T>, p: seq<T>, g: seq<T>, x: T, r: seq<T>, hit0: bool, hit: bool,
                         hit1: bool)
    requires StrictWeakOrder(lt) && Sorted(lt, p + g + [x] + r)
    requires Passed(lt, b, hit, g + [x] + r) && (hit ==> hit0 || Met(lt, b, p)) && (hit1 ==> hit || Met(lt, b, g))
    ensures Passed(lt, b, hit, g) && Passed(lt, b, hit, r) && Passed(lt, b, hit1, r) && Passed(lt, b, hit1, [x])
    ensures hit ==> hit0 || Met(lt, b, p + g + [x])
    ensures hit1 ==> hit0 || Met(lt, b, p + g + [x])
    ensures (b.start.Some? ==> !lt(x, b.start.value)) ==> Passed(lt, b, true, r) && Met(lt, b, p + g + [x])
    ensures Early(lt, b, x) ==> forall i :: 0 <= i < |g + [x]| ==> Early(lt, b, (g + [x])[i])
  {
    hide Sorted;
    Spread(lt, p, g, x, r);
    MetMore(lt, b, p, g);
    MetMore(lt, b, p + g, [x]);
    PassedParts(lt, b, hit, g, x, r);
    if b.start.Some? {
      if hit1 && Met(lt, b, g) {
        var i :| 0 <= i < |g| && !lt(g[i], b.start.value);
        assert lt(b.start.value, x);
      }
      if !lt(x, b.start.value) {
        MetPasses(lt, b, x, r);
        assert [x][0] == x;
      }
    }
  }

  lemma PassedParts<T>(lt: (T, T) -> bool, b: Bounds<T>, hit: bool, g: seq<T>, x: T, r: seq<T>)
    requires Passed(lt, b, hit, g + [x] + r)
    ensures Passed(lt, b, hit, g) && Passed(lt, b, hit, [x]) && Passed(lt, b, hit, r)
  {
    var s := g + [x] + r;
    assert forall i :: 0 <= i < |g| ==> s[i] == g[i];
    assert s[|g|] == x;
    assert forall i :: 0 <= i < |r| ==> s[|g| + 1 + i] == r[i];
  }

  // ---------- walking a tree ----------

  /** The items on either side of a step up past item `i`. */
  lemma OneUp<T>(t: Tree<T>, i: nat, p: seq<T>, g: seq<T>, r: seq<T>)
    requires i < |t.items| && (|t.children| == 0 || |t.children| == |t.items| + 1)
    requires p == Before(t, i) && g == Gap(t, i) && r == Gap(t, i + 1) + From(t, i + 1)
    ensures Flat(t) == p + g + [t.items[i]] + r
    ensures g + From(t, i) == g + [t.items[i]] + r
    ensures Before(t, i + 1) == p + g + [t.items[i]]
  {
    hide Before, From, Gap, Flat;
    AtGap(t, i);
  }

  lemma EndsUp<T>(t: Tree<T>)
    requires |t.children| == 0 || |t.children| == |t.items| + 1
    ensures Before(t, 0) == []
    ensures Gap(t, 0) + From(t, 0) == Flat(t)
    ensures Flat(t) == Before(t, |t.items|) + Gap(t, |t.items|)
    ensures Gap(t, |t.items|) + From(t, |t.items|) == Gap(t, |t.items|)
  {
    hide Before, From, Gap, Flat;
    AtGap(t, 0);
    AtGap(t, |t.items|);
  }

  /** `iterate` in ascending direction. */
  method IterateUp<T(!new)>(lt: (T, T) -> bool, nodes: Nodes<T>, n: Ref, b: Bounds<T>, hit0: bool, keep: seq<T> -> bool,
                            seen0: seq<T>, ghost h: nat) returns (hit: bool, ok: bool, seen: seq<T>)
    requires StrictWeakOrder(lt) && Ok(nodes, n, h) && Sorted(lt, Flat(Abs(nodes, n, h)))
    requires Passed(lt, b, hit0, Flat(Abs(nodes, n, h)))
    ensures (seen, ok) == Walk(lt, b, keep, seen0, Flat(Abs(nodes, n, h)))
    ensures hit ==> hit0 || Met(lt, b, Flat(Abs(nodes, n, h)))
    decreases h
  {
    hide Ok, Oks, Reach, Under, Abs, AbsAll, Flat, StrictWeakOrder, Sorted, Passed, Met, Walk, Gap, Before, From, Early;
    ghost var t := Abs(nodes, n, h);
    Opened(nodes, n, h);
    NoneUnder(nodes, nodes[n].children, h);
    hit, seen := hit0, seen0;
    EndsUp(t);
    WalkNothing(lt, b, keep, seen0);
    var i := 0;
    while i < |nodes[n].items|
      invariant 0 <= i <= |nodes[n].items|
      invariant (seen, true) == Walk(lt, b, keep, seen0, Before(t, i))
      invariant hit ==> hit0 || Met(lt, b, Before(t, i))
      invariant Passed(lt, b, hit, Gap(t, i) + From(t, i))
    {
      var x := nodes[n].items[i];
      ghost var p, g, r := Before(t, i), Gap(t, i), Gap(t, i + 1) + From(t, i + 1);
      OneUp(t, i, p, g, r);
      HitStep(lt, b, p, g, x, r, hit0, hit, hit);
      EarlyIf(lt, b, x);
      if b.start.Some? && lt(x, b.start.value) {
        WalkEarly(lt, b, keep, seen, g + [x]);
        WalkConcat(lt, b, keep, seen0, p, g + [x]);
        assert p + (g + [x]) == p + g + [x];
        i := i + 1;
        continue;
      }
      ghost var seen1, hit1 := seen, hit;
      if |nodes[n].children| > 0 {
        Descend(lt, nodes, n, i, h);
        hit, ok, seen := IterateUp(lt, nodes, nodes[n].children[i], b, hit, keep, seen, h - 1);
        WalkStep(lt, b, keep, seen0, p, g, x, r, seen1, seen, ok);
        HitStep(lt, b, p, g, x, r, hit0, hit1, hit);
        if !ok {
          MetMore(lt, b, p + g + [x], r);
          return hit, false, seen;
        }
      } else {
        LeafGap(t, i);
        WalkNothing(lt, b, keep, seen);
        WalkStep(lt, b, keep, seen0, p, g, x, r, seen1, seen, true);
      }
      MetMore(lt, b, p + g + [x], r);
      PassedOne(lt, b, hit, x);
      if !b.includeStart && !hit && b.start.Some? && !lt(b.start.value, x) {
        hit := true;
        i := i + 1;
        continue;
      }
      hit := true;
      if b.stop.Some? && !lt(x, b.stop.value) {
        return hit, false, seen;
      }
      seen := seen + [x];
      if !keep(seen) {
        return hit, false, seen;
      }
      i := i + 1;
    }
    ghost var p, g := Before(t, i), Gap(t, i);
    WalkConcat(lt, b, keep, seen0, p, g);
    MetMore(lt, b, p, g);
    if |nodes[n].children| > 0 {
      Descend(lt, nodes, n, i, h);
      hit, ok, seen := IterateUp(lt, nodes, nodes[n].children[|nodes[n].children| - 1], b, hit, keep, seen, h - 1);
      return;
    }
    LeafGap(t, i);
    WalkNothing(lt, b, keep, seen);
    ok := true;
  }

  /** `iterate` in descending direction. */
  method IterateDown<T(!new)>(lt: (T, T) -> bool, nodes: Nodes<T>, n: Ref, b: Bounds<T>, hit0: bool,
                              keep: seq<T> -> bool,
                              seen0: seq<T>, ghost h: nat) returns (hit: bool, ok: bool, seen: seq<T>)
    requires StrictWeakOrder(lt) && Ok(nodes, n, h) && Sorted(lt, Flat(Abs(nodes, n, h)))
    requires Passed(Flip(lt), b, hit0, Rev(Flat(Abs(nodes, n, h))))
    ensures (seen, ok) == Walk(Flip(lt), b, keep, seen0, Rev(Flat(Abs(nodes, n, h))))
    ensures hit ==> hit0 || Met(Flip(lt), b, Rev(Flat(Abs(nodes, n, h))))
    decreases h
  {
    hide Ok, Oks, Reach, Under, Abs, AbsAll, Flat, StrictWeakOrder, Sorted, Passed, Met, Walk, Gap, Before, From, Early,
      Rev, Flip;
    ghost var t := Abs(nodes, n, h);
    ghost var dl := Flip(lt);
    FlipOrder(lt);
    RevSorted(lt, Flat(t));
    Opened(nodes, n, h);
    NoneUnder(nodes, nodes[n].children, h);
    hit, seen := hit0, seen0;
    var i := |nodes[n].items|;
    EndsDown(t);
    WalkNothing(dl, b, keep, seen0);
    while i > 0
      invariant 0 <= i <= |nodes[n].items|
      invariant (seen, true) == Walk(dl, b, keep, seen0, Rev(From(t, i)))
      invariant hit ==> hit0 || Met(dl, b, Rev(From(t, i)))
      invariant Passed(dl, b, hit, Rev(Gap(t, i)) + Rev(Before(t, i)))
    {
      i := i - 1;
      var x := nodes[n].items[i];
      ghost var p, g, r := Rev(From(t, i + 1)), Rev(Gap(t, i + 1)), Rev(Gap(t, i)) + Rev(Before(t, i));
      OneDown(t, i, p, g, r);
      HitStep(dl, b, p, g, x, r, hit0, hit, hit);
      EarlyDown(lt, b, x);
      PassedOne(dl, b, hit, x);
      if b.start.Some? && !lt(x, b.start.value) {
        if !b.includeStart || hit || lt(b.start.value, x) {
          WalkEarly(dl, b, keep, seen, g + [x]);
          WalkConcat(dl, b, keep, seen0, p, g + [x]);
          assert p + (g + [x]) == p + g + [x];
          continue;
        }
      }
      ghost var seen1, hit1 := seen, hit;
      if |nodes[n].children| > 0 {
        Descend(lt, nodes, n, i + 1, h);
        hit, ok, seen := IterateDown(lt, nodes, nodes[n].children[i + 1], b, hit, keep, seen, h - 1);
        WalkStep(dl, b, keep, seen0, p, g, x, r, seen1, seen, ok);
        HitStep(dl, b, p, g, x, r, hit0, hit1, hit);
        MetMore(dl, b, p + g + [x], r);
        if !ok {
          return hit, false, seen;
        }
      } else {
        LeafGapDown(t, i + 1);
        WalkNothing(dl, b, keep, seen);
        WalkStep(dl, b, keep, seen0, p, g, x, r, seen1, seen, true);
      }
      MetMore(dl, b, p + g + [x], r);
      if b.stop.Some? && !lt(b.stop.value, x) {
        return hit, false, seen;
      }
      hit := true;
      seen := seen + [x];
      if !keep(seen) {
        return hit, false, seen;
      }
    }
    ghost var p, g := Rev(From(t, 0)), Rev(Gap(t, 0));
    WalkConcat(dl, b, keep, seen0, p, g);
    MetMore(dl, b, p, g);
    if |nodes[n].children| > 0 {
      Descend(lt, nodes, n, 0, h);
      hit, ok, seen := IterateDown(lt, nodes, nodes[n].children[0], b, hit, keep, seen, h - 1);
      return;
    }
    LeafGapDown(t, 0);
    WalkNothing(dl, b, keep, seen);
    ok := true;
  }

  lemma FlipOrder<T(!new)>(lt: (T, T) -> bool)
    requires StrictWeakOrder(lt)
    ensures StrictWeakOrder(Flip(lt)) && forall x, y :: Flip(lt)(x, y) == lt(y, x)
  {
    forall x, y, z | Flip(lt)(x, z) ensures Flip(lt)(x, y) || Flip(lt)(y, z) {
      assert lt(z, x);
    }
  }

  lemma RevNothing<T>(s: seq<T>)
    ensures Rev(s[..0]) == []
  {
  }

  lemma AtGapDown<T>(t: Tree<T>, i: nat)
    requires i <= |t.items| && (|t.children| == 0 || |t.children| == |t.items| + 1)
    ensures Rev(Flat(t)) == Rev(From(t, i)) + Rev(Gap(t, i)) + Rev(Before(t, i))
    ensures i == 0 ==> Rev(Before(t, i)) == []
    ensures i == |t.items| ==> Rev(From(t, i)) == []
    ensures i < |t.items| ==> Rev(Before(t, i + 1)) == [t.items[i]] + Rev(Gap(t, i)) + Rev(Before(t, i))
    ensures i < |t.items| ==> Rev(From(t, i)) == Rev(From(t, i + 1)) + Rev(Gap(t, i + 1)) + [t.items[i]]
  {
    hide Before, From, Gap, Flat, Rev;
    AtGap(t, i);
    RevThree(Before(t, i), Gap(t, i), From(t, i));
    RevNothing(t.items);
    if i < |t.items| {
      RevThree(Before(t, i), Gap(t, i), [t.items[i]]);
      RevThree([t.items[i]], Gap(t, i + 1), From(t, i + 1));
      RevOne(t.items[i]);
    }
  }

  /** The reversed items on either side of a step down past item `i`. */
  lemma OneDown<T>(t: Tree<T>, i: nat, p: seq<T>, g: seq<T>, r: seq<T>)
    requires i < |t.items| && (|t.children| == 0 || |t.children| == |t.items| + 1)
    requires p == Rev(From(t, i + 1)) && g == Rev(Gap(t, i + 1)) && r == Rev(Gap(t, i)) + Rev(Before(t, i))
    ensures Rev(Flat(t)) == p + g + [t.items[i]] + r
    ensures g + Rev(Before(t, i + 1)) == g + [t.items[i]] + r
    ensures Rev(From(t, i)) == p + g + [t.items[i]]
  {
    hide Before, From, Gap, Flat, Rev;
    AtGapDown(t, i);
    AtGapDown(t, i + 1);
  }

  lemma EndsDown<T>(t: Tree<T>)
    requires |t.children| == 0 || |t.children| == |t.items| + 1
    ensures Rev(From(t, |t.items|)) == []
    ensures Rev(Gap(t, |t.items|)) + Rev(Before(t, |t.items|)) == Rev(Flat(t))
    ensures Rev(Flat(t)) == Rev(From(t, 0)) + Rev(Gap(t, 0))
    ensures Rev(Gap(t, 0)) + Rev(Before(t, 0)) == Rev(Gap(t, 0))
  {
    hide Before, From, Gap, Flat, Rev;
    AtGapDown(t, 0);
    AtGapDown(t, |t.items|);
  }

  lemma LeafGapDown<T>(t: Tree<T>, i: nat)
    requires |t.children| == 0 && i <= |t.items|
    ensures Rev(Gap(t, i)) == []
  {
    LeafGap(t, i);
    RevNothing(t.items);
  }

  lemma RevThree<T>(a: seq<T>, m: seq<T>, b: seq<T>)
    ensures Rev(a + m + b) == Rev(b) + Rev(m) + Rev(a)
  {
    RevConcat(a + m, b);
    RevConcat(a, m);
  }

  lemma RevOne<T>(x: T)
    ensures Rev([x]) == [x]
  {
    assert [x][1..] == [];
  }

  /** When `iterate` passes over an item going down. */
  lemma EarlyDown<T(!new)>(lt: (T, T) -> bool, b: Bounds<T>, x: T)
    requires StrictWeakOrder(lt)
    ensures b.start.None? || lt(x, b.start.value) ==> !Early(Flip(lt), b, x)
    ensures b.start.Some? && !lt(x, b.start.value) && (!b.includeStart || lt(b.start.value, x)) ==>
            Early(Flip(lt), b, x)
    ensures b.start.Some? && b.includeStart && !lt(b.start.value, x) ==> !Early(Flip(lt), b, x)
  {
  }

  lemma WalkNothing<T>(lt: (T, T) -> bool, b: Bounds<T>, keep: seq<T> -> bool, seen: seq<T>)
    ensures Walk(lt, b, keep, seen, []) == (seen, true)
  {
  }

  lemma LeafGap<T>(t: Tree<T>, i: nat)
    requires |t.children| == 0 && i <= |t.items|
    ensures Gap(t, i) == []
  {
  }

  lemma PassedOne<T>(lt: (T, T) -> bool, b: Bounds<T>, hit: bool, x: T)
    requires Passed(lt, b, hit, [x])
    ensures hit && b.start.Some? ==> lt(b.start.value, x)
  {
    assert [x][0] == x;
  }

  lemma EarlyIf<T(!new)>(lt: (T, T) -> bool, b: Bounds<T>, x: T)
    requires StrictWeakOrder(lt)
    ensures b.start.Some? && lt(x, b.start.value) ==> Early(lt, b, x)
    ensures b.start.Some? && !lt(x, b.start.value) ==> (Early(lt, b, x) <==> !b.includeStart && !lt(b.start.value, x))
    ensures b.start.None? ==> !Early(lt, b, x)
  {
  }

  lemma MetMore<T>(lt: (T, T) -> bool, b: Bounds<T>, p: seq<T>, r: seq<T>)
    ensures Met(lt, b, p) ==> Met(lt, b, p + r)
    ensures Met(lt, b, r) ==> Met(lt, b, p + r)
  {
    assert forall i :: 0 <= i < |p| ==> (p + r)[i] == p[i];
    assert forall i :: 0 <= i < |r| ==> (p + r)[|p| + i] == r[i];
  }

  lemma Descend<T(!new)>(lt: (T, T) -> bool, nodes: Nodes<T>, n: Ref, i: nat, h: nat)
    requires Ok(nodes, n, h) && i < |nodes[n].children| && Sorted(lt, Flat(Abs(nodes, n, h)))
    ensures h > 0 && Ok(nodes, nodes[n].children[i], h - 1)
    ensures i <= |Abs(nodes, n, h).items| && |Abs(nodes, n, h).children| == |Abs(nodes, n, h).items| + 1
    ensures Gap(Abs(nodes, n, h), i) == Flat(Abs(nodes, nodes[n].children[i], h - 1))
    ensures Sorted(lt, Flat(Abs(nodes, nodes[n].children[i], h - 1)))
  {
    hide Ok, Oks, Reach, Under, Abs, AbsAll, Flat, Sorted;
    Opened(nodes, n, h);
    NoneUnder(nodes, nodes[n].children, h);
    Pick(nodes, nodes[n].children, i, h);
    Separated(lt, Abs(nodes, n, h), i);
  }

  // ---------- the public range methods ----------

  /** The eight range methods with their arguments. */
  datatype Query<+T> =
    | AscendRange(greaterOrEqual: T, lessThan: T)
    | AscendLessThan(pivot: T)
    | AscendGreaterOrEqual(pivot: T)
    | Ascend
    | DescendRange(lessOrEqual: T, greaterThan: T)
    | DescendLessOrEqual(pivot: T)
    | DescendGreaterThan(pivot: T)
    | Descend

  predicate Upwards<T>(q: Query<T>) {
    q.AscendRange? || q.AscendLessThan? || q.AscendGreaterOrEqual? || q.Ascend?
  }

  /** The documented range of each method. */
  predicate Wanted<T>(lt: (T, T) -> bool, q: Query<T>, x: T) {
    match q
    case AscendRange(a, z) => !lt(x, a) && lt(x, z)
    case AscendLessThan(p) => lt(x, p)
    case AscendGreaterOrEqual(p) => !lt(x, p)
    case Ascend => true
    case DescendRange(a, z) => !lt(a, x) && lt(z, x)
    case DescendLessOrEqual(p) => !lt(p, x)
    case DescendGreaterThan(p) => lt(p, x)
    case Descend => true
  }

  function Filter<T>(lt: (T, T) -> bool, q: Query<T>, s: seq<T>): seq<T> {
    if s == [] then [] else (if Wanted(lt, q, s[0]) then [s[0]] else []) + Filter(lt, q, s[1..])
  }

  /** Everything a range method would hand over on a set, in its order. */
  function Answer<T>(lt: (T, T) -> bool, q: Query<T>, s: seq<T>): seq<T> {
    Filter(lt, q, if Upwards(q) then s else Rev(s))
  }

  /** `u` goes on from `seen` through `all`, up to the first place where `keep` says stop. */
  ghost predicate ServedOn<T>(keep: seq<T> -> bool, seen: seq<T>, u: seq<T>, all: seq<T>) {
    && seen <= u <= all
    && (forall j :: |seen| < j < |u| ==> keep(u[..j]))
    && (|u| < |all| ==> |u| > |seen| && !keep(u))
  }

  /** `seen` is what a callback gets of `all`: all of it, or up to its first refusal. */
  ghost predicate Served<T>(keep: seq<T> -> bool, seen: seq<T>, all: seq<T>) {
    ServedOn(keep, [], seen, all)
  }

  /** What each range method passes to `iterate`. */
  function BoundsOf<T>(q: Query<T>): Bounds<T> {
    match q
    case AscendRange(a, z) => Bounds(Some(a), Some(z), true)
    case AscendLessThan(p) => Bounds(None, Some(p), false)
    case AscendGreaterOrEqual(p) => Bounds(Some(p), None, true)
    case Ascend => Bounds(None, None, false)
    case DescendRange(a, z) => Bounds(Some(a), Some(z), true)
    case DescendLessOrEqual(p) => Bounds(Some(p), None, true)
    case DescendGreaterThan(p) => Bounds(None, Some(p), false)
    case Descend => Bounds(None, None, false)
  }

  lemma ServedOnMore<T>(keep: seq<T> -> bool, seen: seq<T>, x: T, u: seq<T>, all: seq<T>)
    requires ServedOn(keep, seen + [x], u, all) && keep(seen + [x])
    ensures ServedOn(keep, seen, u, all)
  {
    assert u[..|seen| + 1] == seen + [x];
  }

  /** A walk over an ordered list serves exactly the wanted items, in order. */
  lemma {:induction false} WalkServes<T(!new)>(lt: (T, T) -> bool, al: (T, T) -> bool, q: Query<T>,
                                               keep: seq<T> -> bool, seen: seq<T>, s: seq<T>)
    requires StrictWeakOrder(al) && Sorted(al, s)
    requires al == if Upwards(q) then lt else Flip(lt)
    ensures ServedOn(keep, seen, Walk(al, BoundsOf(q), keep, seen, s).0, seen + Filter(lt, q, s))
    decreases |s|
  {
    var b := BoundsOf(q);
    if s != [] {
      var x := s[0];
      assert Wanted(lt, q, x) <==> !Early(al, b, x) && !Late(al, b, x);
      if Early(al, b, x) {
        WalkServes(lt, al, q, keep, seen, s[1..]);
        assert Filter(lt, q, s) == Filter(lt, q, s[1..]);
      } else if Late(al, b, x) {
        forall i | 0 <= i < |s| ensures !Wanted(lt, q, s[i]) {
          assert i > 0 ==> al(x, s[i]);
        }
        FilterNone(lt, q, s);
      } else {
        var seen' := seen + [x];
        assert seen' + Filter(lt, q, s[1..]) == seen + Filter(lt, q, s);
        if keep(seen') {
          WalkServes(lt, al, q, keep, seen', s[1..]);
          ServedOnMore(keep, seen, x, Walk(al, b, keep, seen', s[1..]).0, seen + Filter(lt, q, s));
        }
      }
    }
  }

  lemma {:induction false} FilterNone<T>(lt: (T, T) -> bool, q: Query<T>, s: seq<T>)
    requires forall i :: 0 <= i < |s| ==> !Wanted(lt, q, s[i])
    ensures Filter(lt, q, s) == []
  {
    if s != [] { FilterNone(lt, q, s[1..]); }
  }

  /** An answer holds exactly the stored items in range, in strictly ascending or descending order. */
  lemma AnswerMeaning<T(!new)>(lt: (T, T) -> bool, q: Query<T>, s: seq<T>)
    requires StrictWeakOrder(lt) && Sorted(lt, s)
    ensures Sorted(if Upwards(q) then lt else Flip(lt), Answer(lt, q, s))
    ensures forall x :: x in Answer(lt, q, s) <==> x in s && Wanted(lt, q, x)
  {
    if Upwards(q) {
      FilterMeaning(lt, lt, q, s);
    } else {
      RevSorted(lt, s);
      RevAt(s);
      FilterMeaning(lt, Flip(lt), q, Rev(s));
      forall x ensures x in Rev(s) <==> x in s {
        if x in s {
          var i :| 0 <= i < |s| && s[i] == x;
          assert Rev(s)[|s| - 1 - i] == x;
        }
      }
    }
  }

  lemma {:induction false} FilterMeaning<T(!new)>(lt: (T, T) -> bool, al: (T, T) -> bool, q: Query<T>, s: seq<T>)
    requires Sorted(al, s)
    ensures Sorted(al, Filter(lt, q, s))
    ensures forall x :: x in Filter(lt, q, s) <==> x in s && Wanted(lt, q, x)
  {
    if s != [] {
      FilterMeaning(lt, al, q, s[1..]);
      assert s == [s[0]] + s[1..];
      assert forall x :: x in s[1..] ==> al(s[0], x);
    }
  }

  /** Any of the range methods, on the root of a tree. */
  method Range<T(!new)>(lt: (T, T) -> bool, nodes: Nodes<T>, root: Option<Ref>, q: Query<T>, keep: seq<T> -> bool,
                        ghost h: nat)
    returns (seen: seq<T>)
    requires StrictWeakOrder(lt)
    requires root.Some? ==> Ok(nodes, root.value, h) && Sorted(lt, Flat(Abs(nodes, root.value, h)))
    ensures Served(keep, seen, Answer(lt, q, if root.None? then [] else Flat(Abs(nodes, root.value, h))))
  {
    hide Ok, Abs, Flat, StrictWeakOrder, Sorted, Walk;
    if root.None? {
      return [];
    }
    ghost var s := Flat(Abs(nodes, root.value, h));
    var hit, ok;
    if Upwards(q) {
      hit, ok, seen := IterateUp(lt, nodes, root.value, BoundsOf(q), false, keep, [], h);
      WalkServes(lt, lt, q, keep, [], s);
    } else {
      FlipOrder(lt);
      RevSorted(lt, s);
      hit, ok, seen := IterateDown(lt, nodes, root.value, BoundsOf(q), false, keep, [], h);
      WalkServes(lt, Flip(lt), q, keep, [], Rev(s));
    }
    assert [] + Answer(lt, q, s) == Answer(lt, q, s);
  }
}
