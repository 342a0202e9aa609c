/** The sequence a plain map from id to anchor spells: the in-order walk of the tree its
    anchors describe, siblings in stamp order. This is the naive form the compressed
    walk is held to. */
module Fugue {
  import opened Stamps
  import opened Collections
  import opened Trees

  type Anchors = map<Stamp, Anchor>

  // ---- sibling order ----

  ghost predicate Ascending(s: seq<Stamp>) {
    forall i, j :: 0 <= i < j < |s| ==> Less(s[i], s[j])
  }

  lemma {:induction false} HasLeast(s: set<Stamp>) returns (x: Stamp)
    requires s != {}
    ensures x in s && forall y :: y in s ==> AtMost(x, y)
    decreases |s|
  {
    var y :| y in s;
    if s == {y} {
      x := y;
    } else {
      var z := HasLeast(s - {y});
      x := if Less(y, z) then y else z;
      forall w | w in s ensures AtMost(x, w) {
        assert w == y || AtMost(z, w);
      }
    }
  }

  ghost function Least(s: set<Stamp>): (x: Stamp)
    requires s != {}
    ensures x in s && forall y :: y in s ==> AtMost(x, y)
  {
    assert exists x :: x in s && forall y :: y in s ==> AtMost(x, y) by {
      var x := HasLeast(s);
    }
    var x :| x in s && forall y :: y in s ==> AtMost(x, y);
    x
  }

  /** The members of a set in stamp order. */
  ghost function Sorted(s: set<Stamp>): (r: seq<Stamp>)
    ensures Ascending(r)
    ensures forall x :: x in r <==> x in s
    decreases |s|
  {
    if s == {} then [] else [Least(s)] + Sorted(s - {Least(s)})
  }

  lemma FirstIn<T>(s: seq<T>)
    requires s != []
    ensures s[0] in s
  {
  }

  /** Ascending sequences with the same members are equal. */
  lemma {:induction false} AscendingUnique(a: seq<Stamp>, b: seq<Stamp>)
    requires Ascending(a) && Ascending(b) && forall x :: x in a <==> x in b
    ensures a == b
    decreases |a|
  {
    if a == [] {
      if b != [] {
        FirstIn(b);
        assert false;
      }
    } else {
      assert a[0] in b && b[0] in a by {
        assert a[0] in a;
        assert b != [];
        assert b[0] in b;
      }
      assert a[0] == b[0];
      forall x
        ensures x in a[1..] <==> x in b[1..]
      {
        assert x in a[1..] <==> x in a && x != a[0];
        assert x in b[1..] <==> x in b && x != b[0];
      }
      AscendingUnique(a[1..], b[1..]);
      assert a == [a[0]] + a[1..] && b == [b[0]] + b[1..];
    }
  }

  // ---- the naive walk ----

  ghost function At(m: Anchors, a: Anchor): set<Stamp> {
    set id | id in m && m[id] == a
  }

  ghost function KidsOf(m: Anchors, p: Option<Stamp>, s: Side): seq<Stamp> {
    Sorted(At(m, Anchor(p, s)))
  }

  ghost function IdKids(m: Anchors): Kids<Stamp> {
    (p, s) => KidsOf(m, p, s)
  }

  lemma IdsFostered(m: Anchors)
    ensures Fostered(IdKids(m), m.Keys)
  {
    var k := IdKids(m);
    forall p, s, i | 0 <= i < |k(p, s)|
      ensures k(p, s)[i] in m && m[k(p, s)[i]] == Anchor(p, s)
    {
      assert k(p, s)[i] in k(p, s);
    }
    forall p, s, i, q, r, j | 0 <= i < |k(p, s)| && 0 <= j < |k(q, r)| && k(p, s)[i] == k(q, r)[j]
      ensures p == q && s == r && i == j
    {
      assert Ascending(k(p, s));
    }
  }

  /** The sequence of ids a map of anchors spells, deleted ids included. */
  ghost function Order(m: Anchors): (w: seq<Stamp>)
    ensures HasWalk(IdKids(m), w)
  {
    assert exists w :: HasWalk(IdKids(m), w) by {
      IdsFostered(m);
      var ls, rs := WalkExists(IdKids(m), m.Keys);
      assert HasWalk(IdKids(m), InOrderAll(ls) + InOrderAll(rs));
    }
    var w :| HasWalk(IdKids(m), w);
    w
  }

  lemma OrderIs(m: Anchors, ls: seq<Tree<Stamp>>, rs: seq<Tree<Stamp>>)
    requires ForestOf(IdKids(m), KidsOf(m, None, Left), ls) && ForestOf(IdKids(m), KidsOf(m, None, Right), rs)
    ensures Order(m) == InOrderAll(ls) + InOrderAll(rs)
  {
    assert IsWalk(IdKids(m), ls, rs, InOrderAll(ls) + InOrderAll(rs));
    WalkUnique(IdKids(m), Order(m), InOrderAll(ls) + InOrderAll(rs));
  }

  lemma OrderForests(m: Anchors) returns (ls: seq<Tree<Stamp>>, rs: seq<Tree<Stamp>>)
    ensures ForestOf(IdKids(m), KidsOf(m, None, Left), ls) && ForestOf(IdKids(m), KidsOf(m, None, Right), rs)
    ensures Order(m) == InOrderAll(ls) + InOrderAll(rs)
  {
    var k := IdKids(m);
    ls, rs := WalkForests(k, Order(m));
    assert k(None, Left) == KidsOf(m, None, Left) && k(None, Right) == KidsOf(m, None, Right);
  }

  // ---- which ids the walk reaches ----

  /** The chain of parents from `id` ends at the root after `n` steps. */
  ghost predicate DepthIs(m: Anchors, id: Stamp, n: nat)
    decreases n
  {
    id in m && match m[id].parent
               case None => n == 0
               case Some(p) => n > 0 && DepthIs(m, p, n - 1)
  }

  ghost predicate Reachable(m: Anchors, id: Stamp) {
    exists n :: DepthIs(m, id, n)
  }

  lemma {:induction false} DepthUnique(m: Anchors, id: Stamp, a: nat, b: nat)
    requires DepthIs(m, id, a) && DepthIs(m, id, b)
    ensures a == b
    decreases a
  {
    if m[id].parent.Some? {
      DepthUnique(m, m[id].parent.value, a - 1, b - 1);
    }
  }

  /** `p` is `j` parents up from `id`. */
  ghost predicate Above(m: Anchors, id: Stamp, j: nat, p: Stamp)
    decreases j
  {
    if j == 0 then id == p
    else id in m && m[id].parent.Some? && Above(m, m[id].parent.value, j - 1, p)
  }

  lemma {:induction false} AboveUnique(m: Anchors, id: Stamp, j: nat, p: Stamp, q: Stamp)
    requires Above(m, id, j, p) && Above(m, id, j, q)
    ensures p == q
    decreases j
  {
    if j > 0 {
      AboveUnique(m, m[id].parent.value, j - 1, p, q);
    }
  }

  lemma {:induction false} AboveSnoc(m: Anchors, id: Stamp, j: nat, p: Stamp, q: Stamp)
    requires Above(m, id, j, p) && p in m && m[p].parent == Some(q)
    ensures Above(m, id, j + 1, q)
    decreases j
  {
    if j == 0 {
      assert Above(m, q, 0, q);
    } else {
      AboveSnoc(m, m[id].parent.value, j - 1, p, q);
    }
  }

  lemma ChildAnchor(m: Anchors, t: Tree<Stamp>, s: Side, i: nat)
    requires TreeOf(IdKids(m), t) && i < |(if s == Left then t.left else t.right)|
    ensures var c := (if s == Left then t.left else t.right)[i];
            TreeOf(IdKids(m), c) && c.node in m && m[c.node] == Anchor(Some(t.node), s)
  {
    var ts := if s == Left then t.left else t.right;
    assert Roots(ts)[i] == ts[i].node;
    assert ts[i].node in KidsOf(m, Some(t.node), s);
  }

  /** What the walk of a tree visits lies below the tree's node, at its depth. */
  lemma {:induction false} Below(m: Anchors, t: Tree<Stamp>, d: nat, x: Stamp) returns (j: nat)
    requires TreeOf(IdKids(m), t) && DepthIs(m, t.node, d) && x in InOrder(t)
    ensures Above(m, x, j, t.node) && DepthIs(m, x, d + j)
    decreases t, 0
  {
    hide TreeOf;
    if x == t.node {
      j := 0;
    } else {
      var s := if x in InOrderAll(t.left) then Left else Right;
      var ts := if s == Left then t.left else t.right;
      var i := InForest(ts, x);
      ChildAnchor(m, t, s, i);
      var k := Below(m, ts[i], d + 1, x);
      AboveSnoc(m, x, k, ts[i].node, t.node);
      j := k + 1;
    }
  }

  lemma {:induction false} InForest<T>(ts: seq<Tree<T>>, x: T) returns (i: nat)
    requires x in InOrderAll(ts)
    ensures i < |ts| && x in InOrder(ts[i])
    decreases |ts|
  {
    hide InOrder;
    if x in InOrder(ts[0]) {
      i := 0;
    } else {
      var k := InForest(ts[1..], x);
      i := k + 1;
    }
  }

  lemma {:induction false} ForestHas<T>(ts: seq<Tree<T>>, i: nat, x: T)
    requires i < |ts| && x in InOrder(ts[i])
    ensures x in InOrderAll(ts)
    decreases |ts|
  {
    hide InOrder;
    if i > 0 {
      ForestHas(ts[1..], i - 1, x);
    }
  }

  /** The trees of two siblings share nothing. */
  lemma SiblingsDisjoint(m: Anchors, t: Tree<Stamp>, u: Tree<Stamp>, d: nat, x: Stamp)
    requires TreeOf(IdKids(m), t) && TreeOf(IdKids(m), u) && t.node != u.node
    requires DepthIs(m, t.node, d) && DepthIs(m, u.node, d)
    requires x in InOrder(t)
    ensures x !in InOrder(u)
  {
    hide InOrder, TreeOf;
    if x in InOrder(u) {
      var j := Below(m, t, d, x);
      var k := Below(m, u, d, x);
      DepthUnique(m, x, d + j, d + k);
      AboveUnique(m, x, j, t.node, u.node);
      assert false;
    }
  }

  ghost predicate Disjoint<T(!new)>(a: seq<T>, b: seq<T>) {
    forall x :: x in a ==> x !in b
  }

  lemma OneDistinct<T>(x: T)
    ensures Distinct([x])
  {
  }

  lemma DistinctConcat<T(!new)>(a: seq<T>, b: seq<T>)
    requires Distinct(a) && Distinct(b) && Disjoint(a, b)
    ensures Distinct(a + b)
  {
    forall i, j | 0 <= i < j < |a + b|
      ensures (a + b)[i] != (a + b)[j]
    {
      if i < |a| <= j {
        assert a[i] in a && b[j - |a|] in b;
      }
    }
  }

  ghost predicate Level(m: Anchors, ts: seq<Tree<Stamp>>, d: nat) {
    && Distinct(Roots(ts))
    && forall i :: 0 <= i < |ts| ==> TreeOf(IdKids(m), ts[i]) && DepthIs(m, ts[i].node, d)
  }

  lemma {:induction false} ForestDistinct(m: Anchors, ts: seq<Tree<Stamp>>, d: nat)
    requires Level(m, ts, d)
    ensures Distinct(InOrderAll(ts))
    decreases ts, 0
  {
    if ts != [] {
      TreeDistinct(m, ts[0], d);
      var rest := ts[1..];
      assert Level(m, rest, d) by {
        assert forall i :: 0 <= i < |rest| ==> rest[i] == ts[i + 1] && Roots(rest)[i] == Roots(ts)[i + 1];
      }
      ForestDistinct(m, rest, d);
      forall x | x in InOrder(ts[0])
        ensures x !in InOrderAll(rest)
      {
        if x in InOrderAll(rest) {
          var i := InForest(rest, x);
          assert Roots(ts)[0] != Roots(ts)[i + 1];
          SiblingsDisjoint(m, ts[0], rest[i], d, x);
          assert false;
        }
      }
      DistinctConcat(InOrder(ts[0]), InOrderAll(rest));
    }
  }

  lemma KidsLevel(m: Anchors, t: Tree<Stamp>, d: nat, s: Side)
    requires TreeOf(IdKids(m), t) && DepthIs(m, t.node, d)
    ensures Level(m, if s == Left then t.left else t.right, d + 1)
  {
    var ts := if s == Left then t.left else t.right;
    forall i | 0 <= i < |ts|
      ensures TreeOf(IdKids(m), ts[i]) && DepthIs(m, ts[i].node, d + 1)
    {
      ChildAnchor(m, t, s, i);
    }
    assert Ascending(KidsOf(m, Some(t.node), s));
  }

  lemma {:induction false} TreeDistinct(m: Anchors, t: Tree<Stamp>, d: nat)
    requires TreeOf(IdKids(m), t) && DepthIs(m, t.node, d)
    ensures Distinct(InOrder(t))
    decreases t, 1
  {
    hide TreeOf, DepthIs, Distinct;
    KidsLevel(m, t, d, Left);
    KidsLevel(m, t, d, Right);
    ForestDistinct(m, t.left, d + 1);
    ForestDistinct(m, t.right, d + 1);
    forall x | x in InOrderAll(t.left)
      ensures x != t.node && x !in InOrderAll(t.right)
    {
      LeftOfNode(m, t, d, x);
    }
    forall x | x in InOrderAll(t.right)
      ensures x != t.node
    {
      Deeper(m, t.right, d, x, t.node);
    }
    OneDistinct(t.node);
    DistinctConcat(InOrderAll(t.left), [t.node]);
    DistinctConcat(InOrderAll(t.left) + [t.node], InOrderAll(t.right));
  }

  lemma Deeper(m: Anchors, ts: seq<Tree<Stamp>>, d: nat, x: Stamp, y: Stamp)
    requires Level(m, ts, d + 1) && x in InOrderAll(ts) && DepthIs(m, y, d)
    ensures x != y
  {
    hide InOrder, InOrderAll, TreeOf, DepthIs, Above, Distinct;
    var i := InForest(ts, x);
    var j := Below(m, ts[i], d + 1, x);
    if x == y {
      DepthUnique(m, x, d + 1 + j, d);
      assert false;
    }
  }

  lemma LeftOfNode(m: Anchors, t: Tree<Stamp>, d: nat, x: Stamp)
    requires TreeOf(IdKids(m), t) && DepthIs(m, t.node, d) && x in InOrderAll(t.left)
    ensures x != t.node && x !in InOrderAll(t.right)
  {
    hide InOrder, InOrderAll;
    KidsLevel(m, t, d, Left);
    KidsLevel(m, t, d, Right);
    Deeper(m, t.left, d, x, t.node);
    if x in InOrderAll(t.right) {
      var i := InForest(t.left, x);
      var j := InForest(t.right, x);
      ChildAnchor(m, t, Left, i);
      ChildAnchor(m, t, Right, j);
      SiblingsDisjoint(m, t.left[i], t.right[j], d + 1, x);
      assert false;
    }
  }

  lemma RootsLevel(m: Anchors, s: Side, ts: seq<Tree<Stamp>>)
    requires ForestOf(IdKids(m), KidsOf(m, None, s), ts)
    ensures Level(m, ts, 0)
    ensures forall i :: 0 <= i < |ts| ==> m[ts[i].node] == Anchor(None, s)
  {
    forall i | 0 <= i < |ts|
      ensures DepthIs(m, ts[i].node, 0) && m[ts[i].node] == Anchor(None, s)
    {
      assert Roots(ts)[i] in KidsOf(m, None, s);
    }
    assert Ascending(KidsOf(m, None, s));
  }

  lemma {:induction false} KidInTree(m: Anchors, t: Tree<Stamp>, y: Stamp, x: Stamp)
    requires TreeOf(IdKids(m), t) && y in InOrder(t) && x in m && m[x].parent == Some(y)
    ensures x in InOrder(t)
    decreases t
  {
    if y == t.node {
      var ts := if m[x].side == Left then t.left else t.right;
      assert x in KidsOf(m, Some(t.node), m[x].side);
      var i :| 0 <= i < |ts| && Roots(ts)[i] == x;
      assert x in InOrder(ts[i]);
      ForestHas(ts, i, x);
    } else {
      var ts := if y in InOrderAll(t.left) then t.left else t.right;
      var i := InForest(ts, y);
      KidInTree(m, ts[i], y, x);
      ForestHas(ts, i, x);
    }
  }

  lemma {:induction false} ReachedFrom(m: Anchors, ls: seq<Tree<Stamp>>, rs: seq<Tree<Stamp>>, x: Stamp, n: nat)
    requires ForestOf(IdKids(m), KidsOf(m, None, Left), ls) && ForestOf(IdKids(m), KidsOf(m, None, Right), rs)
    requires DepthIs(m, x, n)
    ensures x in InOrderAll(ls) + InOrderAll(rs)
    decreases n
  {
    hide TreeOf;
    match m[x].parent {
      case None =>
        var ts := if m[x].side == Left then ls else rs;
        assert x in KidsOf(m, None, m[x].side);
        var i :| 0 <= i < |ts| && Roots(ts)[i] == x;
        assert x in InOrder(ts[i]);
        ForestHas(ts, i, x);
      case Some(y) =>
        ReachedFrom(m, ls, rs, y, n - 1);
        var ts := if y in InOrderAll(ls) then ls else rs;
        var i := InForest(ts, y);
        KidInTree(m, ts[i], y, x);
        ForestHas(ts, i, x);
    }
  }

  lemma RootsDisjoint(m: Anchors, ls: seq<Tree<Stamp>>, rs: seq<Tree<Stamp>>, x: Stamp)
    requires ForestOf(IdKids(m), KidsOf(m, None, Left), ls) && ForestOf(IdKids(m), KidsOf(m, None, Right), rs)
    requires x in InOrderAll(ls)
    ensures x !in InOrderAll(rs)
  {
    hide InOrder, InOrderAll, TreeOf;
    RootsLevel(m, Left, ls);
    RootsLevel(m, Right, rs);
    if x in InOrderAll(rs) {
      var i := InForest(ls, x);
      var j := InForest(rs, x);
      SiblingsDisjoint(m, ls[i], rs[j], 0, x);
      assert false;
    }
  }

  /** The walk visits each id whose chain of parents ends at the root, once, and no
      other: an id that dangles or sits on a cycle of parents is never reached. */
  lemma OrderReaches(m: Anchors)
    ensures Distinct(Order(m))
    ensures forall x :: x in Order(m) <==> Reachable(m, x)
  {
    hide Order, TreeOf, InOrder, InOrderAll, DepthIs, Distinct;
    var ls, rs := OrderForests(m);
    RootsLevel(m, Left, ls);
    RootsLevel(m, Right, rs);
    ForestDistinct(m, ls, 0);
    ForestDistinct(m, rs, 0);
    forall x | x in InOrderAll(ls) ensures x !in InOrderAll(rs) {
      RootsDisjoint(m, ls, rs, x);
    }
    DistinctConcat(InOrderAll(ls), InOrderAll(rs));
    forall x
      ensures x in Order(m) <==> Reachable(m, x)
    {
      if x in Order(m) {
        var ts := if x in InOrderAll(ls) then ls else rs;
        var i := InForest(ts, x);
        var j := Below(m, ts[i], 0, x);
      }
      if n :| DepthIs(m, x, n) {
        ReachedFrom(m, ls, rs, x, n);
      }
    }
  }

  // ---- gaps ----

  ghost predicate Bare(m: Anchors, x: Stamp, s: Side) {
    KidsOf(m, Some(x), s) == []
  }

  /** Across every gap of a walk, the id before has nothing to its right or the id after
      has nothing to its left; the ends are bare. */
  ghost predicate Gapped(m: Anchors, s: seq<Stamp>) {
    && (s != [] ==> Bare(m, s[0], Left) && Bare(m, s[|s| - 1], Right))
    && (forall i :: 0 < i < |s| ==> Bare(m, s[i - 1], Right) || Bare(m, s[i], Left))
  }

  lemma GappedConcat(m: Anchors, a: seq<Stamp>, b: seq<Stamp>)
    requires Gapped(m, a) && Gapped(m, b)
    ensures Gapped(m, a + b)
  {
    hide Bare;
    var s := a + b;
    forall i | 0 < i < |s|
      ensures Bare(m, s[i - 1], Right) || Bare(m, s[i], Left)
    {
      if i < |a| {
        assert Bare(m, a[i - 1], Right) || Bare(m, a[i], Left);
      } else if i > |a| {
        assert Bare(m, b[i - |a| - 1], Right) || Bare(m, b[i - |a|], Left);
      }
    }
  }

  lemma GappedAround(m: Anchors, a: seq<Stamp>, x: Stamp, b: seq<Stamp>)
    requires Gapped(m, a) && Gapped(m, b) && (a == [] ==> Bare(m, x, Left)) && (b == [] ==> Bare(m, x, Right))
    ensures Gapped(m, a + [x] + b)
  {
    hide Bare;
    var s := a + [x] + b;
    forall i | 0 < i < |s|
      ensures Bare(m, s[i - 1], Right) || Bare(m, s[i], Left)
    {
      if i < |a| {
        assert Bare(m, a[i - 1], Right) || Bare(m, a[i], Left);
      } else if i > |a| + 1 {
        var j := i - |a| - 1;
        assert Bare(m, b[j - 1], Right) || Bare(m, b[j], Left);
      }
    }
  }

  lemma {:induction false} TreeGapped(m: Anchors, t: Tree<Stamp>)
    requires TreeOf(IdKids(m), t)
    ensures Gapped(m, InOrder(t))
    decreases t, 1
  {
    hide Gapped;
    ForestGapped(m, t.left);
    ForestGapped(m, t.right);
    assert t.left == [] <==> Bare(m, t.node, Left);
    assert t.right == [] <==> Bare(m, t.node, Right);
    GappedAround(m, InOrderAll(t.left), t.node, InOrderAll(t.right));
  }

  lemma {:induction false} ForestGapped(m: Anchors, ts: seq<Tree<Stamp>>)
    requires forall i :: 0 <= i < |ts| ==> TreeOf(IdKids(m), ts[i])
    ensures Gapped(m, InOrderAll(ts))
    decreases ts, 0
  {
    hide TreeOf, Bare;
    if ts != [] {
      TreeGapped(m, ts[0]);
      ForestGapped(m, ts[1..]);
      GappedConcat(m, InOrder(ts[0]), InOrderAll(ts[1..]));
    }
  }

  lemma OrderGapped(m: Anchors)
    ensures Gapped(m, Order(m))
  {
    hide Order, TreeOf, InOrderAll, Gapped;
    var ls, rs := OrderForests(m);
    ForestGapped(m, ls);
    ForestGapped(m, rs);
    GappedConcat(m, InOrderAll(ls), InOrderAll(rs));
  }

  // ---- inserting at a gap ----

  /** `x` beside every `p`. */
  function Splice(s: seq<Stamp>, p: Stamp, side: Side, x: Stamp): seq<Stamp> {
    if s == [] then [] else Beside(s[0], p, side, x) + Splice(s[1..], p, side, x)
  }

  function Beside(y: Stamp, p: Stamp, side: Side, x: Stamp): seq<Stamp> {
    if y != p then [y] else if side == Left then [x, p] else [p, x]
  }

  lemma SpliceStep(s: seq<Stamp>, p: Stamp, side: Side, x: Stamp)
    ensures Splice(s, p, side, x) == if s == [] then [] else Beside(s[0], p, side, x) + Splice(s[1..], p, side, x)
  {
  }

  lemma SpliceOne(y: Stamp, p: Stamp, side: Side, x: Stamp)
    ensures Splice([y], p, side, x) == Beside(y, p, side, x)
  {
    assert [y][1..] == [];
  }

  lemma {:induction false} SpliceConcat(a: seq<Stamp>, b: seq<Stamp>, p: Stamp, side: Side, x: Stamp)
    ensures Splice(a + b, p, side, x) == Splice(a, p, side, x) + Splice(b, p, side, x)
  {
    hide Splice, Beside;
    SpliceStep(a, p, side, x);
    if a == [] {
      assert a + b == b;
    } else {
      SpliceConcat(a[1..], b, p, side, x);
      SpliceStep(a + b, p, side, x);
      assert (a + b)[1..] == a[1..] + b;
      Regroup(Beside(a[0], p, side, x), Splice(a[1..], p, side, x), Splice(b, p, side, x));
    }
  }

  lemma {:induction false} SpliceNowhere(s: seq<Stamp>, p: Stamp, side: Side, x: Stamp)
    requires p !in s
    ensures Splice(s, p, side, x) == s
  {
    if s != [] {
      SpliceNowhere(s[1..], p, side, x);
    }
  }

  /** In a walk without repeats, splicing beside an id opens one gap. */
  lemma SpliceOnce(s: seq<Stamp>, i: nat, side: Side, x: Stamp)
    requires Distinct(s) && i < |s|
    ensures var b := if side == Left then i else i + 1;
            Splice(s, s[i], side, x) == s[..b] + [x] + s[b..]
  {
    hide Splice;
    var p, a, b := s[i], s[..i], s[i + 1..];
    assert s == a + ([p] + b);
    SpliceConcat(a, [p] + b, p, side, x);
    SpliceConcat([p], b, p, side, x);
    SpliceNowhere(a, p, side, x);
    SpliceNowhere(b, p, side, x);
    SpliceOne(p, p, side, x);
    Regroup(a, Beside(p, p, side, x), b);
    assert side == Left ==> s[..i] + [x] + s[i..] == a + [x, p] + b;
    assert side == Right ==> s[..i + 1] + [x] + s[i + 1..] == a + [p, x] + b;
  }

  /** A tree with a leaf hung at one bare side of one node. */
  function Graft(t: Tree<Stamp>, a: Anchor, x: Stamp): Tree<Stamp>
    decreases t, 0
  {
    Tree(t.node,
         if a == Anchor(Some(t.node), Left) then [Tree(x, [], [])] else GraftAll(t.left, a, x),
         if a == Anchor(Some(t.node), Right) then [Tree(x, [], [])] else GraftAll(t.right, a, x))
  }

  function GraftAll(ts: seq<Tree<Stamp>>, a: Anchor, x: Stamp): (r: seq<Tree<Stamp>>)
    ensures |r| == |ts|
    ensures forall i :: 0 <= i < |ts| ==> r[i] == Graft(ts[i], a, x)
    decreases ts, 1
  {
    if ts == [] then [] else [Graft(ts[0], a, x)] + GraftAll(ts[1..], a, x)
  }

  /** An id unseen so far, hung at `a`. */
  ghost predicate Fresh(m: Anchors, a: Anchor, x: Stamp) {
    x !in m && a.parent != Some(x) && forall y :: y in m ==> m[y].parent != Some(x)
  }

  lemma KidsWith(m: Anchors, a: Anchor, x: Stamp, p: Option<Stamp>, s: Side)
    requires Fresh(m, a, x)
    ensures a != Anchor(p, s) ==> KidsOf(m[x := a], p, s) == KidsOf(m, p, s)
    ensures a == Anchor(p, s) && KidsOf(m, p, s) == [] ==> KidsOf(m[x := a], p, s) == [x]
    ensures p == Some(x) ==> KidsOf(m[x := a], p, s) == []
  {
    if a != Anchor(p, s) {
      assert At(m[x := a], Anchor(p, s)) == At(m, Anchor(p, s));
    } else if KidsOf(m, p, s) == [] {
      forall y ensures y !in At(m, a) { assert y !in KidsOf(m, p, s); }
      assert At(m[x := a], a) == {x};
      AscendingUnique(KidsOf(m[x := a], p, s), [x]);
    }
    if p == Some(x) {
      assert At(m[x := a], Anchor(p, s)) == {};
    }
  }

  lemma {:induction false} GraftTree(m: Anchors, a: Anchor, x: Stamp, t: Tree<Stamp>)
    requires Fresh(m, a, x) && TreeOf(IdKids(m), t) && t.node != x
    requires KidsOf(m, a.parent, a.side) == []
    ensures TreeOf(IdKids(m[x := a]), Graft(t, a, x))
    decreases t
  {
    GraftSide(m, a, x, t, Left);
    GraftSide(m, a, x, t, Right);
  }

  lemma {:induction false} GraftSide(m: Anchors, a: Anchor, x: Stamp, t: Tree<Stamp>, s: Side)
    requires Fresh(m, a, x) && TreeOf(IdKids(m), t) && t.node != x
    requires KidsOf(m, a.parent, a.side) == []
    ensures var g := Graft(t, a, x); var ts := if s == Left then g.left else g.right;
            ForestOf(IdKids(m[x := a]), KidsOf(m[x := a], Some(t.node), s), ts)
    decreases t, 0
  {
    hide TreeOf, KidsOf;
    KidsWith(m, a, x, Some(t.node), s);
    var ts := if s == Left then t.left else t.right;
    if a == Anchor(Some(t.node), s) {
      LeafTree(m, a, x);
      assert Roots([Tree(x, [], [])]) == [x];
    } else {
      KidRoots(m, t, s);
      forall i | 0 <= i < |ts|
        ensures TreeOf(IdKids(m[x := a]), Graft(ts[i], a, x))
      {
        ChildAnchor(m, t, s, i);
        GraftTree(m, a, x, ts[i]);
      }
    }
  }

  lemma KidRoots(m: Anchors, t: Tree<Stamp>, s: Side)
    requires TreeOf(IdKids(m), t)
    ensures Roots(if s == Left then t.left else t.right) == KidsOf(m, Some(t.node), s)
  {
  }

  lemma LeafTree(m: Anchors, a: Anchor, x: Stamp)
    requires Fresh(m, a, x)
    ensures TreeOf(IdKids(m[x := a]), Tree(x, [], []))
  {
    KidsWith(m, a, x, Some(x), Left);
    KidsWith(m, a, x, Some(x), Right);
  }

  lemma {:induction false} GraftWalk(m: Anchors, a: Anchor, x: Stamp, t: Tree<Stamp>)
    requires TreeOf(IdKids(m), t) && a.parent.Some? && KidsOf(m, a.parent, a.side) == []
    ensures InOrder(Graft(t, a, x)) == Splice(InOrder(t), a.parent.value, a.side, x)
    decreases t, 1
  {
    hide TreeOf, KidsOf, InOrderAll, Splice, GraftAll;
    var p := a.parent.value;
    KidTrees(m, t);
    GraftWalkAll(m, a, x, t.left);
    GraftWalkAll(m, a, x, t.right);
    SpliceNode(t, p, a.side, x);
    LeafWalk(x);
    EmptyWalks(p, a.side, x);
    var g := Graft(t, a, x);
    var l, r := Splice(InOrderAll(t.left), p, a.side, x), Splice(InOrderAll(t.right), p, a.side, x);
    if a == Anchor(Some(t.node), Left) {
      assert t.left == [] && InOrder(g) == [x] + [t.node] + r;
    } else if a == Anchor(Some(t.node), Right) {
      assert t.right == [] && InOrder(g) == l + [t.node] + [x];
    } else {
      assert InOrder(g) == l + [t.node] + r;
    }
  }

  lemma EmptyWalks(p: Stamp, side: Side, x: Stamp)
    ensures InOrderAll<Stamp>([]) == [] && Splice([], p, side, x) == []
  {
  }

  lemma LeafWalk(x: Stamp)
    ensures InOrderAll([Tree(x, [], [])]) == [x]
  {
    WalkOne(Tree(x, [], []));
    assert InOrder(Tree(x, [], [])) == [x];
  }

  lemma SpliceNode(t: Tree<Stamp>, p: Stamp, side: Side, x: Stamp)
    ensures Splice(InOrder(t), p, side, x)
         == Splice(InOrderAll(t.left), p, side, x) + Beside(t.node, p, side, x)
            + Splice(InOrderAll(t.right), p, side, x)
  {
    hide InOrderAll, Splice, Beside;
    SpliceConcat(InOrderAll(t.left), [t.node], p, side, x);
    SpliceConcat(InOrderAll(t.left) + [t.node], InOrderAll(t.right), p, side, x);
    SpliceOne(t.node, p, side, x);
  }

  lemma KidTrees(m: Anchors, t: Tree<Stamp>)
    requires TreeOf(IdKids(m), t)
    ensures forall i :: 0 <= i < |t.left| ==> TreeOf(IdKids(m), t.left[i])
    ensures forall i :: 0 <= i < |t.right| ==> TreeOf(IdKids(m), t.right[i])
    ensures Bare(m, t.node, Left) ==> t.left == []
    ensures Bare(m, t.node, Right) ==> t.right == []
  {
  }

  lemma {:induction false} GraftWalkAll(m: Anchors, a: Anchor, x: Stamp, ts: seq<Tree<Stamp>>)
    requires forall i :: 0 <= i < |ts| ==> TreeOf(IdKids(m), ts[i])
    requires a.parent.Some? && KidsOf(m, a.parent, a.side) == []
    ensures InOrderAll(GraftAll(ts, a, x)) == Splice(InOrderAll(ts), a.parent.value, a.side, x)
    decreases ts, 0
  {
    hide TreeOf, InOrder, Graft;
    if ts != [] {
      GraftWalk(m, a, x, ts[0]);
      GraftWalkAll(m, a, x, ts[1..]);
      SpliceConcat(InOrder(ts[0]), InOrderAll(ts[1..]), a.parent.value, a.side, x);
      var g := GraftAll(ts, a, x);
      assert g[1..] == GraftAll(ts[1..], a, x);
    }
  }

  /** Hanging a fresh id at a bare side of a stored id splices it in beside that id. */
  lemma GraftOrder(m: Anchors, a: Anchor, x: Stamp)
    requires Fresh(m, a, x) && a.parent.Some? && KidsOf(m, a.parent, a.side) == []
    ensures Order(m[x := a]) == Splice(Order(m), a.parent.value, a.side, x)
  {
    hide Order, TreeOf, InOrder, InOrderAll, Graft;
    var ls, rs := OrderForests(m);
    GraftRoots(m, a, x, Left, ls);
    GraftRoots(m, a, x, Right, rs);
    OrderIs(m[x := a], GraftAll(ls, a, x), GraftAll(rs, a, x));
    GraftWalkAll(m, a, x, ls);
    GraftWalkAll(m, a, x, rs);
    SpliceConcat(InOrderAll(ls), InOrderAll(rs), a.parent.value, a.side, x);
  }

  lemma SameRoots(ts: seq<Tree<Stamp>>, a: Anchor, x: Stamp)
    ensures Roots(GraftAll(ts, a, x)) == Roots(ts)
  {
    hide GraftAll;
  }

  lemma GraftRoots(m: Anchors, a: Anchor, x: Stamp, s: Side, ts: seq<Tree<Stamp>>)
    requires Fresh(m, a, x) && a.parent.Some? && KidsOf(m, a.parent, a.side) == []
    requires ForestOf(IdKids(m), KidsOf(m, None, s), ts)
    ensures ForestOf(IdKids(m[x := a]), KidsOf(m[x := a], None, s), GraftAll(ts, a, x))
  {
    hide TreeOf, Graft, GraftAll;
    KidsWith(m, a, x, None, s);
    RootsLevel(m, s, ts);
    SameRoots(ts, a, x);
    forall i | 0 <= i < |ts|
      ensures TreeOf(IdKids(m[x := a]), GraftAll(ts, a, x)[i])
    {
      GraftTree(m, a, x, ts[i]);
    }
  }

  /** An empty walk means the root is bare, so the first id stands alone. */
  lemma FirstOrder(m: Anchors, x: Stamp)
    requires Fresh(m, Anchor(None, Right), x) && Order(m) == []
    ensures Order(m[x := Anchor(None, Right)]) == [x]
  {
    hide Order, TreeOf;
    var a := Anchor(None, Right);
    var ls, rs := OrderForests(m);
    assert ls == [] && rs == [];
    KidsWith(m, a, x, None, Left);
    KidsWith(m, a, x, None, Right);
    LeafTree(m, a, x);
    assert Roots([Tree(x, [], [])]) == [x];
    OrderIs(m[x := a], [], [Tree(x, [], [])]);
    LeafWalk(x);
  }

  // ---- placement ----

  /** Attach to the right of the id before the gap if it is bare there, else to the left
      of the id after it. */
  ghost function PlaceAt(m: Anchors, left: Option<Stamp>, right: Option<Stamp>): Anchor {
    match (left, right)
    case (Some(l), _) =>
      if Bare(m, l, Right) || right.None? then Anchor(Some(l), Right) else Anchor(right, Left)
    case (None, Some(r)) => Anchor(Some(r), Left)
    case (None, None) => Anchor(None, Right)
  }

  ghost function LeftOf(s: seq<Stamp>, b: nat): Option<Stamp>
    requires b <= |s|
  {
    if b > 0 then Some(s[b - 1]) else None
  }

  ghost function RightOf(s: seq<Stamp>, b: nat): Option<Stamp>
    requires b <= |s|
  {
    if b < |s| then Some(s[b]) else None
  }

  /** A fresh id placed at a gap of the walk lands in that gap, and moves nothing else. */
  lemma PlacedInGap(m: Anchors, b: nat, x: Stamp)
    requires b <= |Order(m)| && x !in m && forall y :: y in m ==> m[y].parent != Some(x)
    ensures var s := Order(m);
            Order(m[x := PlaceAt(m, LeftOf(s, b), RightOf(s, b))]) == s[..b] + [x] + s[b..]
  {
    hide Order, KidsOf;
    var s := Order(m);
    var a := PlaceAt(m, LeftOf(s, b), RightOf(s, b));
    OrderGapped(m);
    OrderReaches(m);
    forall i | 0 <= i < |s| ensures s[i] != x {
      Stored(m, s[i]);
    }
    if s == [] {
      FirstOrder(m, x);
    } else {
      GraftOrder(m, a, x);
      SpliceOnce(s, if a.side == Right then b - 1 else b, a.side, x);
    }
  }

  lemma Stored(m: Anchors, x: Stamp)
    requires x in Order(m)
    ensures x in m
  {
    OrderReaches(m);
  }
}
