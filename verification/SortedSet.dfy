/**
 The abstract value of a B-tree: a sequence of items, strictly ascending under
 the caller's `Less`.  Every other B-tree module is proved against the functions
 here, for an arbitrary strict weak order.
 */
module SortedSet {
  import opened Wrappers

  /** What `Item.Less` must be: a strict weak order. */
  ghost predicate StrictWeakOrder<T(!new)>(lt: (T, T) -> bool) {
    && (forall x :: !lt(x, x))
    && (forall x, y, z :: lt(x, y) && lt(y, z) ==> lt(x, z))
    && (forall x, y, z :: lt(x, z) ==> lt(x, y) || lt(y, z))
  }

  predicate Equiv<T>(lt: (T, T) -> bool, x: T, y: T) {
    !lt(x, y) && !lt(y, x)
  }

  ghost predicate Sorted<T>(lt: (T, T) -> bool, s: seq<T>) {
    forall i, j :: 0 <= i < j < |s| ==> lt(s[i], s[j])
  }

  ghost predicate Below<T>(lt: (T, T) -> bool, s: seq<T>, x: T) {
    forall i :: 0 <= i < |s| ==> lt(s[i], x)
  }

  ghost predicate Above<T>(lt: (T, T) -> bool, x: T, s: seq<T>) {
    forall i :: 0 <= i < |s| ==> lt(x, s[i])
  }

  /** The first index whose item is greater than `x`: what `sort.Search` is asked for. */
  function Search<T>(lt: (T, T) -> bool, s: seq<T>, x: T): (i: nat)
    ensures i <= |s|
    ensures forall k :: 0 <= k < i ==> !lt(x, s[k])
    ensures i < |s| ==> lt(x, s[i])
  {
    if s == [] || lt(x, s[0]) then 0 else Search(lt, s[1..], x) + 1
  }

  /** The result of `items.find`: an index, and whether the item is already there. */
  function Find<T>(lt: (T, T) -> bool, s: seq<T>, x: T): (r: (nat, bool))
    ensures r.0 <= |s| && (r.1 ==> r.0 < |s|)
  {
    var i := Search(lt, s, x);
    if i > 0 && !lt(s[i - 1], x) then (i - 1, true) else (i, false)
  }

  /** `i` is where `x` belongs in `s`: smaller items before it, greater ones after
      it, and, when `found`, an equivalent item at it. */
  ghost predicate Cut<T>(lt: (T, T) -> bool, s: seq<T>, x: T, i: nat, found: bool) {
    && i <= |s|
    && (found ==> i < |s| && Equiv(lt, s[i], x))
    && (forall k :: 0 <= k < i ==> lt(s[k], x))
    && (forall k :: i < k < |s| ==> lt(x, s[k]))
    && (!found && i < |s| ==> lt(x, s[i]))
  }

  lemma FindSpec<T(!new)>(lt: (T, T) -> bool, s: seq<T>, x: T)
    requires StrictWeakOrder(lt) && Sorted(lt, s)
    ensures Cut(lt, s, x, Find(lt, s, x).0, Find(lt, s, x).1)
  {
    var n := Search(lt, s, x);
    if n > 0 {
      forall k | 0 <= k < n - 1 ensures lt(s[k], x) { assert lt(s[k], s[n - 1]); }
    }
    forall k | n < k < |s| ensures lt(x, s[k]) { assert lt(s[n], s[k]); }
  }

  /** Only one answer satisfies `FindSpec`. */
  lemma FindUnique<T(!new)>(lt: (T, T) -> bool, s: seq<T>, x: T, i: nat, found: bool)
    requires StrictWeakOrder(lt) && Cut(lt, s, x, i, found)
    ensures Find(lt, s, x) == (i, found)
  {
    var n := Search(lt, s, x);
    var w := if found then i + 1 else i;
    assert forall k :: 0 <= k < w ==> !lt(x, s[k]);
    assert w < |s| ==> lt(x, s[w]);
    assert n < |s| ==> lt(x, s[n]);
  }

  /** The method `items.find`, with the binary search of `sort.Search`. */
  method FindIndex<T(!new)>(lt: (T, T) -> bool, s: seq<T>, x: T) returns (index: nat, found: bool)
    requires StrictWeakOrder(lt) && Sorted(lt, s)
    ensures (index, found) == Find(lt, s, x)
  {
    var i, j := 0, |s|;
    while i < j
      invariant 0 <= i <= j <= |s|
      invariant forall k :: 0 <= k < i ==> !lt(x, s[k])
      invariant forall k :: j <= k < |s| ==> lt(x, s[k])
    {
      var h := i + (j - i) / 2;
      if !lt(x, s[h]) {
        forall k | 0 <= k < h ensures !lt(x, s[k]) { assert lt(s[k], s[h]); }
        i := h + 1;
      } else {
        forall k | h < k < |s| ensures lt(x, s[k]) { assert lt(s[h], s[k]); }
        j := h;
      }
    }
    ghost var n := Search(lt, s, x);
    assert n < |s| ==> lt(x, s[n]);
    assert i < |s| ==> lt(x, s[i]);
    if i > 0 && !lt(s[i - 1], x) {
      return i - 1, true;
    }
    return i, false;
  }

  /** Insert-or-replace on a sorted set; the second component is the displaced item. */
  function SetInsert<T>(lt: (T, T) -> bool, s: seq<T>, x: T): (seq<T>, Option<T>) {
    var (i, found) := Find(lt, s, x);
    if found then (s[i := x], Some(s[i])) else (s[..i] + [x] + s[i..], None)
  }

  /** What a delete asks for (`toRemove`, with the item it applies to). */
  datatype Removal<+T> = RemoveItem(item: T) | RemoveMin | RemoveMax

  /** Deletion from a sorted set; the second component is the removed item. */
  function SetRemove<T>(lt: (T, T) -> bool, s: seq<T>, what: Removal<T>): (seq<T>, Option<T>) {
    match what
    case RemoveItem(x) =>
      var (i, found) := Find(lt, s, x);
      if found then (s[..i] + s[i + 1..], Some(s[i])) else (s, None)
    case RemoveMin => if s == [] then (s, None) else (s[1..], Some(s[0]))
    case RemoveMax => if s == [] then (s, None) else (s[..|s| - 1], Some(s[|s| - 1]))
  }

  function SetGet<T>(lt: (T, T) -> bool, s: seq<T>, x: T): Option<T> {
    var (i, found) := Find(lt, s, x);
    if found then Some(s[i]) else None
  }

  /** What insertion means: still sorted, the members are `x` and the old items not
      equivalent to it, the length grows exactly when nothing was displaced, and a
      displaced item is an old item equivalent to `x`. */
  lemma SetInsertMeaning<T(!new)>(lt: (T, T) -> bool, s: seq<T>, x: T)
    requires StrictWeakOrder(lt) && Sorted(lt, s)
    ensures var (s', out) := SetInsert(lt, s, x);
            && Sorted(lt, s')
            && (forall y :: y in s' <==> y == x || (y in s && !Equiv(lt, y, x)))
            && |s'| == |s| + (if out.None? then 1 else 0)
            && (out.Some? ==> out.value in s && Equiv(lt, out.value, x))
            && (out.None? ==> forall y :: y in s ==> !Equiv(lt, y, x))
  {
    hide Find;
    FindSpec(lt, s, x);
    var (i, found) := Find(lt, s, x);
    var s' := SetInsert(lt, s, x).0;
    assert s'[i] == x;
    forall y | y in s && !Equiv(lt, y, x) ensures y in s' {
      var k :| 0 <= k < |s| && s[k] == y;
      assert s'[if k < i || found then k else k + 1] == y;
    }
  }

  lemma Irreflexive<T(!new)>(lt: (T, T) -> bool, x: T)
    requires StrictWeakOrder(lt)
    ensures !lt(x, x)
  {
  }

  /** `s'` is `s` without `out`: nothing else left or entered. */
  ghost predicate Without<T(!new)>(lt: (T, T) -> bool, s: seq<T>, s': seq<T>, out: T) {
    Sorted(lt, s') && out in s && |s'| == |s| - 1 && forall y :: y in s' <==> y in s && y != out
  }

  /** Dropping position `i` of a sorted sequence removes exactly that item. */
  lemma DropSorted<T(!new)>(lt: (T, T) -> bool, s: seq<T>, i: nat)
    requires Sorted(lt, s) && i < |s|
    ensures Sorted(lt, s[..i] + s[i + 1..])
  {
    var s' := s[..i] + s[i + 1..];
    forall j, k | 0 <= j < k < |s'| ensures lt(s'[j], s'[k]) {
      assert s'[j] == s[if j < i then j else j + 1] && s'[k] == s[if k < i then k else k + 1];
    }
  }

  lemma DropOne<T(!new)>(lt: (T, T) -> bool, s: seq<T>, i: nat)
    requires StrictWeakOrder(lt) && Sorted(lt, s) && i < |s|
    ensures Without(lt, s, s[..i] + s[i + 1..], s[i])
  {
    hide StrictWeakOrder;
    Irreflexive(lt, s[i]);
    DropSorted(lt, s, i);
    var s' := s[..i] + s[i + 1..];
    forall y | y in s && y != s[i] ensures y in s' {
      var k :| 0 <= k < |s| && s[k] == y;
      assert s'[if k < i then k else k - 1] == y;
    }
    forall y | y in s' ensures y in s && y != s[i] {
      var k :| 0 <= k < |s'| && s'[k] == y;
      assert if k < i then lt(s[k], s[i]) else lt(s[i], s[k + 1]);
    }
  }

  /** What deletion means: still sorted; exactly the returned item leaves, and
      nothing changes when nothing is returned. */
  lemma SetRemoveMeaning<T(!new)>(lt: (T, T) -> bool, s: seq<T>, what: Removal<T>)
    requires StrictWeakOrder(lt) && Sorted(lt, s)
    ensures var (s', out) := SetRemove(lt, s, what);
            if out.None? then s' == s else Without(lt, s, s', out.value)
  {
    hide StrictWeakOrder, Sorted, Find, Without;
    match what {
      case RemoveItem(x) =>
        var (i, found) := Find(lt, s, x);
        if found { DropOne(lt, s, i); }
      case RemoveMin =>
        if s != [] { DropOne(lt, s, 0); assert s[..0] + s[1..] == s[1..]; }
      case RemoveMax =>
        if s != [] { DropOne(lt, s, |s| - 1); assert s[..|s| - 1] + s[|s|..] == s[..|s| - 1]; }
    }
  }

  /** Which item a deletion returns: the equivalent, the smallest or the greatest
      one, and it returns one whenever there is one. */
  lemma SetRemoveWhich<T(!new)>(lt: (T, T) -> bool, s: seq<T>, what: Removal<T>)
    requires StrictWeakOrder(lt) && Sorted(lt, s)
    ensures var (s', out) := SetRemove(lt, s, what);
            match what
            case RemoveItem(x) =>
              && (out.Some? ==> out.value in s && Equiv(lt, out.value, x))
              && (out.None? ==> forall y :: y in s ==> !Equiv(lt, y, x))
            case RemoveMin =>
              && (out.None? <==> s == [])
              && (out.Some? ==> out.value in s && Above(lt, out.value, s'))
            case RemoveMax =>
              && (out.None? <==> s == [])
              && (out.Some? ==> out.value in s && Below(lt, s', out.value))
  {
    if what.RemoveItem? { FindSpec(lt, s, what.item); }
  }

  // ---------- working inside a context of smaller and greater items ----------

  /** A part of a sorted sequence is sorted, and its context lies on either side. */
  lemma SortedParts<T>(lt: (T, T) -> bool, a: seq<T>, m: seq<T>, b: seq<T>)
    requires Sorted(lt, a + m + b)
    ensures Sorted(lt, a) && Sorted(lt, m) && Sorted(lt, b)
    ensures forall i, j :: 0 <= i < |a| && 0 <= j < |m| ==> lt(a[i], m[j])
    ensures forall i, j :: 0 <= i < |m| && 0 <= j < |b| ==> lt(m[i], b[j])
    ensures forall i, j :: 0 <= i < |a| && 0 <= j < |b| ==> lt(a[i], b[j])
  {
    var s := a + m + b;
    forall i, j | 0 <= i < j < |a| ensures lt(a[i], a[j]) { assert s[i] == a[i] && s[j] == a[j]; }
    forall i, j | 0 <= i < j < |m| ensures lt(m[i], m[j]) { assert s[|a| + i] == m[i] && s[|a| + j] == m[j]; }
    forall i, j | 0 <= i < j < |b|
      ensures lt(b[i], b[j])
    {
      assert s[|a| + |m| + i] == b[i] && s[|a| + |m| + j] == b[j];
    }
    forall i, j | 0 <= i < |a| && 0 <= j < |m| ensures lt(a[i], m[j]) { assert s[i] == a[i] && s[|a| + j] == m[j]; }
    forall i, j | 0 <= i < |m| && 0 <= j < |b|
      ensures lt(m[i], b[j])
    {
      assert s[|a| + i] == m[i] && s[|a| + |m| + j] == b[j];
    }
    forall i, j | 0 <= i < |a| && 0 <= j < |b|
      ensures lt(a[i], b[j])
    {
      assert s[i] == a[i] && s[|a| + |m| + j] == b[j];
    }
  }

  /** Searching for an item that belongs in the middle part only looks there. */
  lemma FindContext<T(!new)>(lt: (T, T) -> bool, a: seq<T>, m: seq<T>, b: seq<T>, x: T)
    requires StrictWeakOrder(lt) && Sorted(lt, a + m + b)
    requires Below(lt, a, x) && Above(lt, x, b)
    ensures Find(lt, a + m + b, x) == (|a| + Find(lt, m, x).0, Find(lt, m, x).1)
  {
    SortedParts(lt, a, m, b);
    FindSpec(lt, m, x);
    var (i, found) := Find(lt, m, x);
    var s := a + m + b;
    assert forall k :: 0 <= k < |s| ==>
      s[k] == if k < |a| then a[k] else if k < |a| + |m| then m[k - |a|] else b[k - |a| - |m|];
    FindUnique(lt, s, x, |a| + i, found);
  }

  lemma InsertContext<T(!new)>(lt: (T, T) -> bool, a: seq<T>, m: seq<T>, b: seq<T>, x: T)
    requires StrictWeakOrder(lt) && Sorted(lt, a + m + b)
    requires Below(lt, a, x) && Above(lt, x, b)
    ensures SetInsert(lt, a + m + b, x) == (a + SetInsert(lt, m, x).0 + b, SetInsert(lt, m, x).1)
  {
    hide StrictWeakOrder, Sorted, Find, Below, Above;
    FindContext(lt, a, m, b, x);
    var (i, found) := Find(lt, m, x);
    var s := a + m + b;
    if found {
      assert s[|a| + i := x] == a + m[i := x] + b;
    } else {
      assert s[..|a| + i] + [x] + s[|a| + i..] == a + (m[..i] + [x] + m[i..]) + b;
    }
  }

  lemma RemoveContext<T(!new)>(lt: (T, T) -> bool, a: seq<T>, m: seq<T>, b: seq<T>, x: T)
    requires StrictWeakOrder(lt) && Sorted(lt, a + m + b)
    requires Below(lt, a, x) && Above(lt, x, b)
    ensures SetRemove(lt, a + m + b, RemoveItem(x))
         == (a + SetRemove(lt, m, RemoveItem(x)).0 + b, SetRemove(lt, m, RemoveItem(x)).1)
  {
    hide StrictWeakOrder, Sorted, Find, Below, Above;
    FindContext(lt, a, m, b, x);
    var (i, found) := Find(lt, m, x);
    var s := a + m + b;
    if found {
      assert s[..|a| + i] + s[|a| + i + 1..] == a + (m[..i] + m[i + 1..]) + b;
    }
  }

  lemma GetContext<T(!new)>(lt: (T, T) -> bool, a: seq<T>, m: seq<T>, b: seq<T>, x: T)
    requires StrictWeakOrder(lt) && Sorted(lt, a + m + b)
    requires Below(lt, a, x) && Above(lt, x, b)
    ensures SetGet(lt, a + m + b, x) == SetGet(lt, m, x)
  {
    FindContext(lt, a, m, b, x);
  }

  /** An item equivalent to `x` with its context on either side is the one replaced or removed. */
  lemma HitContext<T(!new)>(lt: (T, T) -> bool, a: seq<T>, y: T, b: seq<T>, x: T)
    requires StrictWeakOrder(lt) && Below(lt, a, x) && Equiv(lt, y, x) && Above(lt, x, b)
    ensures SetInsert(lt, a + [y] + b, x) == (a + [x] + b, Some(y))
    ensures SetRemove(lt, a + [y] + b, RemoveItem(x)) == (a + b, Some(y))
    ensures SetGet(lt, a + [y] + b, x) == Some(y)
  {
    hide StrictWeakOrder, Find;
    var s := a + [y] + b;
    assert forall k :: 0 <= k < |s| ==>
      s[k] == if k < |a| then a[k] else if k == |a| then y else b[k - |a| - 1];
    FindUnique(lt, s, x, |a|, true);
    assert s[|a| := x] == a + [x] + b;
    assert s[..|a|] + s[|a| + 1..] == a + b;
  }

  lemma EndsContext<T>(lt: (T, T) -> bool, a: seq<T>, m: seq<T>, b: seq<T>)
    requires m != []
    ensures a == [] ==>
      SetRemove(lt, a + m + b, RemoveMin) == (a + SetRemove(lt, m, RemoveMin).0 + b, SetRemove(lt, m, RemoveMin).1)
    ensures b == [] ==>
      SetRemove(lt, a + m + b, RemoveMax) == (a + SetRemove(lt, m, RemoveMax).0 + b, SetRemove(lt, m, RemoveMax).1)
  {
    var s := a + m + b;
    if a == [] { assert s[1..] == a + m[1..] + b; }
    if b == [] { assert s[..|s| - 1] == a + m[..|m| - 1] + b; }
  }
}
