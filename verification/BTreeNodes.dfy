/**
 The nodes of copy-on-write B-trees as an explicit store: a map from references to
 cells, each tagged with the context that owns it.  Shared subtrees are shared
 references.  This module says which references a subtree reaches, which tree value
 it stands for, and when a change to the store leaves a subtree alone.
 */
module BTreeNodes {
  import opened Wrappers
  import opened BTreeShape

  type Ref = nat
  type Context = nat

  /** A node; `cow` is `None` only for nodes on (or dropped from) the free list. */
  datatype Cell<+T> = Cell(items: seq<T>, children: seq<Ref>, cow: Option<Context>)

  type Nodes<T> = map<Ref, Cell<T>>

  // ---------- what a reference stands for ----------

  ghost function Reach<T>(m: Nodes<T>, r: Ref, h: nat): set<Ref>
    decreases h, 1
  {
    if r in m then {r} + Under(m, m[r].children, h) else {r}
  }

  /** What the children `rs` of a node of height `h` reach. */
  ghost function Under<T>(m: Nodes<T>, rs: seq<Ref>, h: nat): set<Ref>
    decreases h, 0
  {
    if h == 0 then {} else var k := h - 1; set i, x | 0 <= i < |rs| && x in Reach(m, rs[i], k) :: x
  }

  /** `r` is the root of a subtree of height `h` whose nodes are all live and distinct. */
  ghost predicate Ok<T>(m: Nodes<T>, r: Ref, h: nat)
    decreases h, 1
  {
    && r in m && m[r].cow.Some?
    && (h > 0 ==> |m[r].children| == |m[r].items| + 1)
    && Oks(m, m[r].children, h) && r !in Under(m, m[r].children, h)
  }

  /** `rs` can be the children of a node of height `h`. */
  ghost predicate Oks<T>(m: Nodes<T>, rs: seq<Ref>, h: nat)
    decreases h, 0
  {
    if h == 0 then rs == []
    else
      && (forall i :: 0 <= i < |rs| ==> Ok(m, rs[i], h - 1))
      && (forall i, j :: 0 <= i < j < |rs| ==> Reach(m, rs[i], h - 1) !! Reach(m, rs[j], h - 1))
  }

  ghost function Abs<T>(m: Nodes<T>, r: Ref, h: nat): (t: Tree<T>)
    requires Ok(m, r, h)
    ensures t.items == m[r].items && |t.children| == |m[r].children|
    decreases h, 1
  {
    Node(m[r].items, AbsAll(m, m[r].children, h))
  }

  ghost function AbsAll<T>(m: Nodes<T>, rs: seq<Ref>, h: nat): (ts: seq<Tree<T>>)
    requires Oks(m, rs, h)
    ensures |ts| == |rs|
    decreases h, 0
  {
    if h == 0 then [] else seq(|rs|, i requires 0 <= i < |rs| => Abs(m, rs[i], h - 1))
  }

  /** One level of a node. */
  lemma Opened<T>(m: Nodes<T>, n: Ref, h: nat)
    requires Ok(m, n, h)
    ensures n in m && m[n].cow.Some? && (h > 0 ==> |m[n].children| == |m[n].items| + 1)
    ensures Oks(m, m[n].children, h) && n !in Under(m, m[n].children, h)
    ensures Reach(m, n, h) == {n} + Under(m, m[n].children, h)
    ensures Abs(m, n, h) == Node(m[n].items, AbsAll(m, m[n].children, h))
  {
  }

  lemma NoneUnder<T>(m: Nodes<T>, rs: seq<Ref>, h: nat)
    requires Oks(m, rs, h)
    ensures h == 0 ==> rs == []
  {
  }

  lemma Closed<T>(m: Nodes<T>, n: Ref, h: nat)
    requires n in m && m[n].cow.Some? && (h > 0 ==> |m[n].children| == |m[n].items| + 1)
    requires Oks(m, m[n].children, h) && n !in Under(m, m[n].children, h)
    ensures Ok(m, n, h)
    ensures Reach(m, n, h) == {n} + Under(m, m[n].children, h)
    ensures Abs(m, n, h) == Node(m[n].items, AbsAll(m, m[n].children, h))
  {
  }

  lemma {:induction false} ReachLive<T>(m: Nodes<T>, r: Ref, h: nat)
    requires Ok(m, r, h)
    ensures forall x :: x in Reach(m, r, h) ==> x in m && m[x].cow.Some?
    decreases h, 1
  {
    UnderLive(m, m[r].children, h);
  }

  lemma {:induction false} UnderLive<T>(m: Nodes<T>, rs: seq<Ref>, h: nat)
    requires Oks(m, rs, h)
    ensures forall x :: x in Under(m, rs, h) ==> x in m && m[x].cow.Some?
    decreases h, 0
  {
    if h > 0 {
      forall i | 0 <= i < |rs| ensures forall x :: x in Reach(m, rs[i], h - 1) ==> x in m && m[x].cow.Some? {
        ReachLive(m, rs[i], h - 1);
      }
    }
  }

  // ---------- lists of subtrees ----------

  lemma OksSplit<T>(m: Nodes<T>, a: seq<Ref>, b: seq<Ref>, h: nat)
    requires Oks(m, a + b, h)
    ensures Oks(m, a, h) && Oks(m, b, h) && Under(m, a, h) !! Under(m, b, h)
  {
    hide Ok, Reach;
    var s := a + b;
    if h > 0 {
      forall i | 0 <= i < |a| ensures a[i] == s[i] {}
      forall i | 0 <= i < |b| ensures b[i] == s[|a| + i] {}
      forall i, j | 0 <= i < |a| && 0 <= j < |b| ensures Reach(m, a[i], h - 1) !! Reach(m, b[j], h - 1) {
        assert Reach(m, s[i], h - 1) !! Reach(m, s[|a| + j], h - 1);
      }
    }
  }

  lemma OksJoin<T>(m: Nodes<T>, a: seq<Ref>, b: seq<Ref>, h: nat)
    requires Oks(m, a, h) && Oks(m, b, h) && Under(m, a, h) !! Under(m, b, h)
    ensures Oks(m, a + b, h)
  {
    hide Ok, Reach;
    var s := a + b;
    if h > 0 {
      forall i, j | 0 <= i < j < |s| ensures Reach(m, s[i], h - 1) !! Reach(m, s[j], h - 1) {
        if i < |a| <= j {
          assert s[i] == a[i] && s[j] == b[j - |a|];
          assert Reach(m, a[i], h - 1) <= Under(m, a, h);
          assert Reach(m, b[j - |a|], h - 1) <= Under(m, b, h);
        }
      }
    }
  }

  lemma AbsAllConcat<T>(m: Nodes<T>, a: seq<Ref>, b: seq<Ref>, h: nat)
    requires Oks(m, a, h) && Oks(m, b, h) && Oks(m, a + b, h)
    ensures AbsAll(m, a + b, h) == AbsAll(m, a, h) + AbsAll(m, b, h)
  {
    hide Ok, Reach, Abs;
  }

  lemma OksConcat<T>(m: Nodes<T>, a: seq<Ref>, b: seq<Ref>, h: nat)
    ensures Under(m, a + b, h) == Under(m, a, h) + Under(m, b, h)
    ensures Oks(m, a + b, h) <==> Oks(m, a, h) && Oks(m, b, h) && Under(m, a, h) !! Under(m, b, h)
    ensures Oks(m, a + b, h) ==> AbsAll(m, a + b, h) == AbsAll(m, a, h) + AbsAll(m, b, h)
  {
    hide Oks, Under, AbsAll;
    UnderConcat(m, a, b, h);
    if Oks(m, a, h) && Oks(m, b, h) && Under(m, a, h) !! Under(m, b, h) {
      OksJoin(m, a, b, h);
    }
    if Oks(m, a + b, h) {
      OksSplit(m, a, b, h);
      AbsAllConcat(m, a, b, h);
    }
  }

  lemma UnderConcat<T>(m: Nodes<T>, a: seq<Ref>, b: seq<Ref>, h: nat)
    ensures Under(m, a + b, h) == Under(m, a, h) + Under(m, b, h)
  {
    var s := a + b;
    forall x | x in Under(m, s, h) ensures x in Under(m, a, h) + Under(m, b, h) {
      var i :| 0 <= i < |s| && x in Reach(m, s[i], h - 1);
      assert s[i] == if i < |a| then a[i] else b[i - |a|];
    }
    forall x | x in Under(m, a, h) ensures x in Under(m, s, h) {
      var i :| 0 <= i < |a| && x in Reach(m, a[i], h - 1);
      assert s[i] == a[i];
    }
    forall x | x in Under(m, b, h) ensures x in Under(m, s, h) {
      var i :| 0 <= i < |b| && x in Reach(m, b[i], h - 1);
      assert s[|a| + i] == b[i];
    }
  }

  lemma One<T>(m: Nodes<T>, r: Ref, h: nat)
    requires h > 0
    ensures Under(m, [r], h) == Reach(m, r, h - 1)
    ensures Oks(m, [r], h) <==> Ok(m, r, h - 1)
    ensures Ok(m, r, h - 1) ==> AbsAll(m, [r], h) == [Abs(m, r, h - 1)]
  {
    assert [r][0] == r;
  }

  lemma Two<T>(m: Nodes<T>, l: Ref, r: Ref, h: nat)
    requires h > 0
    ensures Under(m, [l, r], h) == Reach(m, l, h - 1) + Reach(m, r, h - 1)
    ensures Oks(m, [l, r], h) <==> Ok(m, l, h - 1) && Ok(m, r, h - 1) && Reach(m, l, h - 1) !! Reach(m, r, h - 1)
    ensures Oks(m, [l, r], h) ==> AbsAll(m, [l, r], h) == [Abs(m, l, h - 1), Abs(m, r, h - 1)]
  {
    hide Ok, Oks, Reach, Under, Abs, AbsAll;
    One(m, l, h);
    One(m, r, h);
    assert [l, r] == [l] + [r];
    OksConcat(m, [l], [r], h);
  }

  /** A list of subtrees cut in three. */
  lemma Cuts<T>(m: Nodes<T>, rs: seq<Ref>, lo: nat, hi: nat, h: nat)
    requires Oks(m, rs, h) && lo <= hi <= |rs|
    ensures var l, mid, r := rs[..lo], rs[lo..hi], rs[hi..];
            && Oks(m, l, h) && Oks(m, mid, h) && Oks(m, r, h)
            && Under(m, l, h) !! Under(m, mid, h) && Under(m, l, h) !! Under(m, r, h)
            && Under(m, mid, h) !! Under(m, r, h)
            && Under(m, rs, h) == Under(m, l, h) + Under(m, mid, h) + Under(m, r, h)
            && AbsAll(m, rs, h)[..lo] == AbsAll(m, l, h) && AbsAll(m, rs, h)[lo..hi] == AbsAll(m, mid, h)
            && AbsAll(m, rs, h)[hi..] == AbsAll(m, r, h)
  {
    hide Ok, Oks, Reach, Under, Abs, AbsAll;
    var l, mid, r := rs[..lo], rs[lo..hi], rs[hi..];
    assert rs == l + mid + r;
    OksConcat(m, l + mid, r, h);
    OksConcat(m, l, mid, h);
  }

  lemma Joins<T>(m: Nodes<T>, l: seq<Ref>, mid: seq<Ref>, r: seq<Ref>, h: nat)
    requires Oks(m, l, h) && Oks(m, mid, h) && Oks(m, r, h)
    requires Under(m, l, h) !! Under(m, mid, h) && Under(m, l, h) !! Under(m, r, h)
    requires Under(m, mid, h) !! Under(m, r, h)
    ensures Oks(m, l + mid + r, h)
    ensures AbsAll(m, l + mid + r, h) == AbsAll(m, l, h) + AbsAll(m, mid, h) + AbsAll(m, r, h)
    ensures Under(m, l + mid + r, h) == Under(m, l, h) + Under(m, mid, h) + Under(m, r, h)
  {
    hide Ok, Oks, Reach, Under, Abs, AbsAll;
    OksConcat(m, l, mid, h);
    OksConcat(m, l + mid, r, h);
  }

  /** Picking one subtree of a list. */
  lemma Pick<T>(m: Nodes<T>, rs: seq<Ref>, i: nat, h: nat)
    requires h > 0 && Oks(m, rs, h) && i < |rs|
    ensures Ok(m, rs[i], h - 1) && Reach(m, rs[i], h - 1) <= Under(m, rs, h)
    ensures Under(m, rs[i..i + 1], h) == Reach(m, rs[i], h - 1)
    ensures AbsAll(m, rs, h)[i] == Abs(m, rs[i], h - 1)
  {
    assert rs[i..i + 1] == [rs[i]];
    One(m, rs[i], h);
  }

  // ---------- framing ----------

  /** A subtree none of whose cells change keeps its references and its value. */
  lemma {:induction false} Same<T>(m: Nodes<T>, m': Nodes<T>, r: Ref, h: nat)
    requires Ok(m, r, h)
    requires forall x :: x in Reach(m, r, h) ==> x in m && x in m' && m'[x] == m[x]
    ensures Ok(m', r, h) && Reach(m', r, h) == Reach(m, r, h) && Abs(m', r, h) == Abs(m, r, h)
    decreases h, 1
  {
    hide Oks, Under, AbsAll;
    SameAll(m, m', m[r].children, h);
  }

  lemma {:induction false} SameAll<T>(m: Nodes<T>, m': Nodes<T>, rs: seq<Ref>, h: nat)
    requires Oks(m, rs, h)
    requires forall x :: x in Under(m, rs, h) ==> x in m && x in m' && m'[x] == m[x]
    ensures Oks(m', rs, h) && Under(m', rs, h) == Under(m, rs, h) && AbsAll(m', rs, h) == AbsAll(m, rs, h)
    decreases h, 0
  {
    hide Ok, Reach, Abs;
    if h > 0 {
      forall i | 0 <= i < |rs|
        ensures Ok(m', rs[i], h - 1) && Reach(m', rs[i], h - 1) == Reach(m, rs[i], h - 1)
        ensures Abs(m', rs[i], h - 1) == Abs(m, rs[i], h - 1)
      {
        assert forall x :: x in Reach(m, rs[i], h - 1) ==> x in Under(m, rs, h);
        Same(m, m', rs[i], h - 1);
      }
    }
  }

  // ---------- transitions ----------

  /** One write by context `c` to a subtree that reached `before` and now reaches `after`:
      outside that subtree only free cells change, inside it only cells `c` owns; and
      what is reached now was reached before, untouched, or is owned by `c` and was
      reached before, free or not yet allocated. */
  ghost predicate Writes<T>(m: Nodes<T>, before: set<Ref>, m': Nodes<T>, after: set<Ref>, c: Context) {
    && m.Keys <= m'.Keys
    && (forall x :: x in m && m[x].cow.Some? && !(x in before && m[x].cow == Some(c)) ==> m'[x] == m[x])
    && (forall x :: x in after ==>
          || (x in before && x in m && m[x].cow.Some? && x in m' && m'[x] == m[x])
          || (x in m' && m'[x].cow == Some(c) && (x in before || x !in m || m[x].cow.None?)))
  }

  lemma WritesTrans<T>(m0: Nodes<T>, s0: set<Ref>, m1: Nodes<T>, s1: set<Ref>, m2: Nodes<T>, s2: set<Ref>, c: Context)
    requires Writes(m0, s0, m1, s1, c) && Writes(m1, s1, m2, s2, c)
    ensures Writes(m0, s0, m2, s2, c)
  {
  }

  /** Live cells outside a written subtree may be counted in on both sides. */
  lemma WritesBeside<T>(m: Nodes<T>, s: set<Ref>, m': Nodes<T>, s': set<Ref>, beside: set<Ref>, c: Context)
    requires Writes(m, s, m', s', c)
    requires beside !! s && forall x :: x in beside ==> x in m && m[x].cow.Some?
    ensures beside !! s'
    ensures forall x :: x in beside ==> x in m' && m'[x] == m[x]
    ensures Writes(m, s + beside, m', s' + beside, c)
  {
  }

  /** A write to a cell the context owns, on top of other writes. */
  lemma WritesCell<T>(m: Nodes<T>, s: set<Ref>, m': Nodes<T>, s': set<Ref>, n: Ref, cell: Cell<T>, c: Context)
    requires Writes(m, s, m', s', c) && n in s && n in m' && m'[n].cow == Some(c) && cell.cow == Some(c)
    ensures Writes(m, s, m'[n := cell], s', c)
  {
  }

  /** Replacing the part `lo..hi` of a list of subtrees, beside a cell `n`. */
  lemma RebuildList<T>(m: Nodes<T>, rs: seq<Ref>, h: nat, m': Nodes<T>, lo: nat, hi: nat, subs: seq<Ref>, n: Ref,
                       c: Context)
    requires Oks(m, rs, h) && lo <= hi <= |rs| && Oks(m', subs, h)
    requires n !in Under(m, rs, h)
    requires Writes(m, Under(m, rs[lo..hi], h) + {n}, m', Under(m', subs, h) + {n}, c)
    ensures var rs' := rs[..lo] + subs + rs[hi..];
            && Oks(m', rs', h)
            && AbsAll(m', rs', h) == AbsAll(m, rs, h)[..lo] + AbsAll(m', subs, h) + AbsAll(m, rs, h)[hi..]
            && Under(m', rs', h) <= Under(m, rs, h) + Under(m', subs, h)
            && Writes(m, Under(m, rs, h) + {n}, m', Under(m', rs', h) + {n}, c)
  {
    hide Ok, Oks, Reach, Under, Abs, AbsAll, Writes;
    var l, mid, r := rs[..lo], rs[lo..hi], rs[hi..];
    Cuts(m, rs, lo, hi, h);
    UnderLive(m, rs, h);
    var beside := Under(m, l, h) + Under(m, r, h);
    WritesBeside(m, Under(m, mid, h) + {n}, m', Under(m', subs, h) + {n}, beside, c);
    SameAll(m, m', l, h);
    SameAll(m, m', r, h);
    Joins(m', l, subs, r, h);
    assert Under(m, rs, h) + {n} == Under(m, mid, h) + {n} + beside;
    assert Under(m', l + subs + r, h) + {n} == Under(m', subs, h) + {n} + beside;
  }

  /** Writing node `n`, owned by `c`, with its children `lo..hi` replaced by the
      subtrees `subs` that a write by `c` left in their place. */
  lemma Relink<T>(m: Nodes<T>, n: Ref, h: nat, c: Context, m1: Nodes<T>, lo: nat, hi: nat, subs: seq<Ref>,
                  items': seq<T>, m': Nodes<T>)
    requires Ok(m, n, h) && m[n].cow == Some(c)
    requires lo <= hi <= |m[n].children|
    requires Oks(m1, subs, h)
    requires Writes(m, Under(m, m[n].children[lo..hi], h), m1, Under(m1, subs, h), c)
    requires m' == m1[n := Cell(items', m[n].children[..lo] + subs + m[n].children[hi..], Some(c))]
    requires h > 0 ==> |m'[n].children| == |items'| + 1
    ensures n in m1 && m1[n] == m[n] && n !in Under(m1, subs, h)
    ensures Ok(m', n, h)
    ensures Oks(m', subs, h) && AbsAll(m', subs, h) == AbsAll(m1, subs, h) && Under(m', subs, h) == Under(m1, subs, h)
    ensures Abs(m', n, h)
            == Node(items', Abs(m, n, h).children[..lo] + AbsAll(m1, subs, h) + Abs(m, n, h).children[hi..])
    ensures Writes(m, Reach(m, n, h), m', Reach(m', n, h), c)
  {
    hide Ok, Oks, Reach, Under, Abs, AbsAll, Writes;
    Opened(m, n, h);
    var cs := m[n].children;
    Cuts(m, cs, lo, hi, h);
    var before, after := Under(m, cs[lo..hi], h), Under(m1, subs, h);
    WritesBeside(m, before, m1, after, {n}, c);
    WritesCell(m, before + {n}, m1, after + {n}, n, m'[n], c);
    SameAll(m1, m', subs, h);
    RebuildList(m, cs, h, m', lo, hi, subs, n, c);
    Closed(m', n, h);
    assert Reach(m, n, h) == Under(m, cs, h) + {n};
    assert Reach(m', n, h) == Under(m', m'[n].children, h) + {n};
  }

  /** Building a node out of a list of subtrees that the writes so far left alone. */
  lemma Assemble<T>(m: Nodes<T>, rs: seq<Ref>, m': Nodes<T>, r: Ref, h: nat)
    requires Oks(m, rs, h) && r !in Under(m, rs, h)
    requires forall x :: x in Under(m, rs, h) ==> x in m && x in m' && m'[x] == m[x]
    requires r in m' && m'[r].cow.Some? && m'[r].children == rs && (h > 0 ==> |rs| == |m'[r].items| + 1)
    ensures Ok(m', r, h) && Reach(m', r, h) == {r} + Under(m, rs, h)
    ensures Abs(m', r, h) == Node(m'[r].items, AbsAll(m, rs, h))
  {
    hide Ok, Oks, Reach, Under, Abs, AbsAll;
    SameAll(m, m', rs, h);
    Closed(m', r, h);
  }

  /** Writing only the items of an owned node. */
  lemma Retouch<T>(m: Nodes<T>, n: Ref, h: nat, c: Context, items': seq<T>, m': Nodes<T>)
    requires Ok(m, n, h) && m[n].cow == Some(c)
    requires h > 0 ==> |items'| == |m[n].items|
    requires m' == m[n := m[n].(items := items')]
    ensures Ok(m', n, h) && Abs(m', n, h) == Abs(m, n, h).(items := items')
    ensures Writes(m, Reach(m, n, h), m', Reach(m', n, h), c)
  {
    Opened(m, n, h);
    assert Under(m, [], h) == {};
    assert Oks(m, [], h) && AbsAll(m, [], h) == [];
    var cs := m[n].children;
    assert cs[..0] + [] + cs[0..] == cs;
    assert cs[0..0] == [];
    Relink(m, n, h, c, m, 0, 0, [], items', m');
    var ts := Abs(m, n, h).children;
    assert ts[..0] + [] + ts[0..] == ts;
  }

  /** Reusing a list of subtrees, cut in two, as the children of two owned nodes. */
  lemma Regroup<T>(m: Nodes<T>, l: Ref, r: Ref, rs: seq<Ref>, k: nat, m': Nodes<T>, h: nat)
    requires Oks(m, rs, h) && k <= |rs| && l != r && l !in Under(m, rs, h) && r !in Under(m, rs, h)
    requires forall x :: x in m && x != l && x != r ==> x in m' && m'[x] == m[x]
    requires l in m' && m'[l].cow.Some? && m'[l].children == rs[..k] && (h > 0 ==> k == |m'[l].items| + 1)
    requires r in m' && m'[r].cow.Some? && m'[r].children == rs[k..] && (h > 0 ==> |rs| - k == |m'[r].items| + 1)
    ensures Ok(m', l, h) && Ok(m', r, h) && Reach(m', l, h) !! Reach(m', r, h)
    ensures Abs(m', l, h) == Node(m'[l].items, AbsAll(m, rs, h)[..k])
    ensures Abs(m', r, h) == Node(m'[r].items, AbsAll(m, rs, h)[k..])
    ensures Reach(m', l, h) + Reach(m', r, h) == {l, r} + Under(m, rs, h)
  {
    hide Ok, Oks, Reach, Under, Abs, AbsAll;
    Cuts(m, rs, k, k, h);
    UnderLive(m, rs, h);
    assert rs == rs[..k] + rs[k..];
    OksConcat(m, rs[..k], rs[k..], h);
    Assemble(m, rs[..k], m', l, h);
    Assemble(m, rs[k..], m', r, h);
  }
}
