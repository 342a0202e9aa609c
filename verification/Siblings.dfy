/** Which of two ids comes first: left of a parent before it, right of it after, and of two
    siblings everything under the lesser stamp before everything under the other. So the ids
    under two siblings never interleave, and a run typed in one place stays together. */
module Siblings {
  import opened Stamps
  import opened Collections
  import opened Trees
  import opened Fugue
  import opened Lists
  import opened Reads
  import Ranks

  ghost predicate Before<T(!new)>(s: seq<T>, x: T, y: T) {
    exists i, j :: 0 <= i < j < |s| && s[i] == x && s[j] == y
  }

  lemma BeforeSplit<T(!new)>(a: seq<T>, b: seq<T>, x: T, y: T)
    requires x in a && y in b
    ensures Before(a + b, x, y)
  {
    var i :| 0 <= i < |a| && a[i] == x;
    var j :| 0 <= j < |b| && b[j] == y;
    assert (a + b)[i] == x && (a + b)[|a| + j] == y;
  }

  lemma BeforeWithin<T(!new)>(a: seq<T>, s: seq<T>, b: seq<T>, x: T, y: T)
    requires Before(s, x, y)
    ensures Before(a + s + b, x, y)
  {
    var i, j :| 0 <= i < j < |s| && s[i] == x && s[j] == y;
    assert (a + s + b)[|a| + i] == x && (a + s + b)[|a| + j] == y;
  }

  /** In a walk without repeats, one of two ids comes first and not the other. */
  lemma BeforeOnce<T(!new)>(s: seq<T>, x: T, y: T)
    requires Distinct(s) && Before(s, x, y)
    ensures !Before(s, y, x)
  {
  }

  // ---- trees within a walk ----

  /** The walk of a forest visits each tree before the trees after it. */
  lemma {:induction false} ForestBefore<T(!new)>(ts: seq<Tree<T>>, i: nat, j: nat, x: T, y: T)
    requires i < j < |ts| && x in InOrder(ts[i]) && y in InOrder(ts[j])
    ensures Before(InOrderAll(ts), x, y)
    decreases |ts|
  {
    hide InOrder, Before;
    if i == 0 {
      ForestHas(ts[1..], j - 1, y);
      BeforeSplit(InOrder(ts[0]), InOrderAll(ts[1..]), x, y);
    } else {
      ForestBefore(ts[1..], i - 1, j - 1, x, y);
      BeforeWithin(InOrder(ts[0]), InOrderAll(ts[1..]), [], x, y);
      assert InOrder(ts[0]) + InOrderAll(ts[1..]) + [] == InOrderAll(ts);
    }
  }

  /** The walk of one tree is a stretch of the walk of its forest. */
  lemma {:induction false} ForestStretch<T(!new)>(ts: seq<Tree<T>>, i: nat) returns (a: seq<T>, b: seq<T>)
    requires i < |ts|
    ensures InOrderAll(ts) == a + InOrder(ts[i]) + b
    decreases |ts|
  {
    hide InOrder;
    if i == 0 {
      a, b := [], InOrderAll(ts[1..]);
    } else {
      var a', b' := ForestStretch(ts[1..], i - 1);
      a, b := InOrder(ts[0]) + a', b';
    }
  }

  /** The tree of any id visited, and the walk around it. */
  lemma {:induction false} TreeAt(m: Anchors, t: Tree<Stamp>, p: Stamp)
    returns (u: Tree<Stamp>, a: seq<Stamp>, b: seq<Stamp>)
    requires TreeOf(IdKids(m), t) && p in InOrder(t)
    ensures TreeOf(IdKids(m), u) && u.node == p && InOrder(t) == a + InOrder(u) + b
    decreases t
  {
    hide TreeOf, InOrder, InOrderAll;
    InOrderIs(t);
    if p == t.node {
      u, a, b := t, [], [];
      assert [] + InOrder(t) + [] == InOrder(t);
    } else {
      var l, r := InOrderAll(t.left), InOrderAll(t.right);
      var ts := if p in l then t.left else t.right;
      var i := InForest(ts, p);
      KidTrees(m, t);
      var u', a', b' := TreeAt(m, ts[i], p);
      var c, e := ForestStretch(ts, i);
      Nested(c, a', InOrder(u'), b', e);
      u := u';
      if p in l {
        a, b := c + a', b' + e + ([t.node] + r);
        Beyond(c + a', InOrder(u), b' + e, [t.node], r);
      } else {
        a, b := l + [t.node] + (c + a'), b' + e;
        Ahead(l, [t.node], c + a', InOrder(u), b' + e);
      }
    }
  }

  lemma InOrderIs<T>(t: Tree<T>)
    ensures InOrder(t) == InOrderAll(t.left) + [t.node] + InOrderAll(t.right)
  {
  }

  lemma Beyond<T>(a: seq<T>, u: seq<T>, b: seq<T>, x: seq<T>, r: seq<T>)
    ensures (a + u + b) + x + r == a + u + (b + (x + r))
  {
  }

  lemma Ahead<T>(l: seq<T>, x: seq<T>, a: seq<T>, u: seq<T>, b: seq<T>)
    ensures l + x + (a + u + b) == (l + x + a) + u + b
  {
  }

  lemma Nested<T>(c: seq<T>, a: seq<T>, u: seq<T>, b: seq<T>, e: seq<T>)
    ensures c + (a + u + b) + e == (c + a) + u + (b + e)
  {
  }

  /** The forest on one side of an id, or of the root, as a stretch of the whole walk. */
  lemma SideStretch(m: Anchors, p: Option<Stamp>, side: Side)
    returns (ts: seq<Tree<Stamp>>, a: seq<Stamp>, b: seq<Stamp>)
    requires p.Some? ==> p.value in Order(m)
    ensures ForestOf(IdKids(m), KidsOf(m, p, side), ts) && Order(m) == a + InOrderAll(ts) + b
  {
    hide KidsOf, TreeOf, ForestOf, InOrder, InOrderAll, Order;
    var ls, rs := OrderForests(m);
    if p == None {
      if side == Left {
        ts, a, b := ls, [], InOrderAll(rs);
        assert [] + InOrderAll(ls) == InOrderAll(ls);
      } else {
        ts, a, b := rs, InOrderAll(ls), [];
        assert InOrderAll(ls) + InOrderAll(rs) + [] == InOrderAll(ls) + InOrderAll(rs);
      }
    } else {
      var u, c, e := NodeStretch(m, p.value);
      var l, x, r := InOrderAll(u.left), [u.node], InOrderAll(u.right);
      InOrderIs(u);
      TreeForest(m, u, side);
      if side == Left {
        ts, a, b := u.left, c, x + r + e;
        assert c + (l + x + r) + e == c + l + (x + r + e);
      } else {
        ts, a, b := u.right, c + (l + x), e;
        assert c + (l + x + r) + e == c + (l + x) + r + e;
      }
    }
  }

  /** The tree of an id as a stretch of the whole walk. */
  lemma NodeStretch(m: Anchors, p: Stamp) returns (u: Tree<Stamp>, a: seq<Stamp>, b: seq<Stamp>)
    requires p in Order(m)
    ensures TreeOf(IdKids(m), u) && u.node == p && Order(m) == a + InOrder(u) + b
  {
    hide KidsOf, InOrder, TreeOf, Order;
    var ls, rs := OrderForests(m);
    var onLeft := p in InOrderAll(ls);
    var fs := if onLeft then ls else rs;
    var i := InForest(fs, p);
    var t, c, e := TreeAt(m, fs[i], p);
    var f, g := ForestStretch(fs, i);
    Nested(f, c, InOrder(t), e, g);
    u := t;
    if onLeft {
      a, b := f + c, e + g + InOrderAll(rs);
      assert a + InOrder(u) + b == InOrderAll(ls) + InOrderAll(rs);
    } else {
      a, b := InOrderAll(ls) + (f + c), e + g;
      assert a + InOrder(u) + b == InOrderAll(ls) + InOrderAll(rs);
    }
  }

  // ---- what hangs under an id ----

  /** `x` is `c`, or hangs somewhere below it. */
  ghost predicate Under(m: Anchors, x: Stamp, c: Stamp) {
    exists j: nat :: Fugue.Above(m, x, j, c)
  }

  lemma {:induction false} UnderInTree(m: Anchors, t: Tree<Stamp>, x: Stamp, j: nat)
    requires TreeOf(IdKids(m), t) && Fugue.Above(m, x, j, t.node)
    ensures x in InOrder(t)
    decreases j
  {
    hide TreeOf;
    if j > 0 {
      UnderInTree(m, t, m[x].parent.value, j - 1);
      KidInTree(m, t, m[x].parent.value, x);
    } else {
      assert x == t.node;
    }
  }

  /** A child's tree is among those on its side, at the place its stamp gives it. */
  lemma KidTree(m: Anchors, p: Option<Stamp>, side: Side, ts: seq<Tree<Stamp>>, c: Stamp, x: Stamp) returns (i: nat)
    requires ForestOf(IdKids(m), KidsOf(m, p, side), ts) && c in m && m[c] == Anchor(p, side) && Under(m, x, c)
    ensures i < |ts| && ts[i].node == c && x in InOrder(ts[i])
  {
    hide TreeOf, InOrder;
    var kids := KidsOf(m, p, side);
    assert c in kids;
    i :| i < |kids| && kids[i] == c;
    assert Roots(ts)[i] == c;
    var j: nat :| Fugue.Above(m, x, j, c);
    UnderInTree(m, ts[i], x, j);
  }

  // ---- who comes first ----

  /** Whatever hangs to the left of an id precedes it, and whatever hangs to the right follows. */
  lemma SidesOrder(m: Anchors, p: Stamp, c: Stamp, x: Stamp)
    requires p in Order(m) && c in m && m[c].parent == Some(p) && Under(m, x, c)
    ensures m[c].side == Left ==> Before(Order(m), x, p)
    ensures m[c].side == Right ==> Before(Order(m), p, x)
  {
    hide Order, Before, Under, TreeOf, KidsOf;
    var u, a, b := NodeStretch(m, p);
    var side := m[c].side;
    var ts := if side == Left then u.left else u.right;
    TreeForest(m, u, side);
    var i := KidTree(m, Some(p), side, ts, c, x);
    ForestHas(ts, i, x);
    var l, r := InOrderAll(u.left), InOrderAll(u.right);
    if side == Left {
      BeforeSplit(l, [p] + r, x, p);
      assert l + ([p] + r) == InOrder(u);
    } else {
      BeforeSplit(l + [p], r, p, x);
    }
    if side == Left { BeforeWithin(a, InOrder(u), b, x, p); } else { BeforeWithin(a, InOrder(u), b, p, x); }
  }

  lemma TreeForest(m: Anchors, u: Tree<Stamp>, side: Side)
    requires TreeOf(IdKids(m), u)
    ensures ForestOf(IdKids(m), KidsOf(m, Some(u.node), side), if side == Left then u.left else u.right)
  {
  }

  /** Of two siblings on one side, everything under the one with the lesser lamport (then the
      lesser client, then the lesser offset) precedes everything under the other. */
  lemma SiblingsOrder(m: Anchors, c: Stamp, d: Stamp, x: Stamp, y: Stamp)
    requires c in m && d in m && m[c] == m[d] && Ranks.Earlier(c, d) && Under(m, x, c) && Under(m, y, d)
    requires m[c].parent.Some? ==> m[c].parent.value in Order(m)
    ensures Before(Order(m), x, y)
  {
    hide Order, Before, Under, TreeOf;
    var p, side := m[c].parent, m[c].side;
    var ts, a, b := SideStretch(m, p, side);
    var i := KidTree(m, p, side, ts, c, x);
    var j := KidTree(m, p, side, ts, d, y);
    assert Roots(ts)[i] == c && Roots(ts)[j] == d && Ascending(KidsOf(m, p, side));
    assert i < j;
    ForestBefore(ts, i, j, x, y);
    BeforeWithin(a, InOrderAll(ts), b, x, y);
  }

  /** The same of a stored sequence: two ids at one anchor stand in the order of their lamports,
      then clients, then offsets. */
  lemma SiblingsInSequence(s: Logical, x: Stamp, y: Stamp)
    requires x in s && y in s && CellAnchor(s[x]) == CellAnchor(s[y]) && Ranks.Earlier(x, y)
    requires x in SequenceOf(s) || y in SequenceOf(s)
    ensures Before(SequenceOf(s), x, y) && !Before(SequenceOf(s), y, x)
  {
    hide Order;
    var m := AnchorMap(s);
    OrderReaches(m);
    var z := if x in SequenceOf(s) then x else y;
    var n: nat :| DepthIs(m, z, n);
    if m[z].parent.Some? {
      assert DepthIs(m, m[z].parent.value, n - 1);
    }
    assert Fugue.Above(m, x, 0, x) && Fugue.Above(m, y, 0, y);
    SiblingsOrder(m, x, y, x, y);
    BeforeOnce(Order(m), x, y);
  }

  // ---- a run typed in one place ----

  /** An id just placed has nothing hanging to its right, so the next one typed hangs there,
      whatever follows it. */
  lemma TypedNext(m: Anchors, b: nat, x: Stamp)
    requires b <= |Order(m)| && x !in m && forall y :: y in m ==> m[y].parent != Some(x)
    ensures var s := Order(m); var t := m[x := PlaceAt(m, LeftOf(s, b), RightOf(s, b))];
            && b + 1 <= |Order(t)|
            && PlaceAt(t, LeftOf(Order(t), b + 1), RightOf(Order(t), b + 1)) == Anchor(Some(x), Right)
  {
    hide Order, KidsOf;
    var s := Order(m);
    var a := PlaceAt(m, LeftOf(s, b), RightOf(s, b));
    PlacedInGap(m, b, x);
    PlacedElsewhere(m, b, x);
    BareIff(m[x := a], x);
  }

  lemma PlacedElsewhere(m: Anchors, b: nat, x: Stamp)
    requires b <= |Order(m)| && x !in m
    ensures PlaceAt(m, LeftOf(Order(m), b), RightOf(Order(m), b)).parent != Some(x)
  {
    forall i | 0 <= i < |Order(m)|
      ensures Order(m)[i] != x
    {
      Stored(m, Order(m)[i]);
    }
  }

  /** Each id of a run hangs to the right of the one before it. */
  ghost predicate Typed(m: Anchors, run: seq<Stamp>) {
    forall i :: 0 < i < |run| ==> run[i] in m && m[run[i]] == Anchor(Some(run[i - 1]), Right)
  }

  lemma {:induction false} RunUnder(m: Anchors, run: seq<Stamp>, i: nat)
    requires Typed(m, run) && i < |run|
    ensures Under(m, run[i], run[0])
    decreases i
  {
    if i == 0 {
      assert Fugue.Above(m, run[0], 0, run[0]);
    } else {
      RunUnder(m, run, i - 1);
      var j: nat :| Fugue.Above(m, run[i - 1], j, run[0]);
      assert Fugue.Above(m, run[i], j + 1, run[0]);
    }
  }

  /** Two runs typed at one place by two replicas do not interleave: one precedes the other
      whole, the one whose first id has the lesser stamp. */
  lemma RunsApart(m: Anchors, a: seq<Stamp>, b: seq<Stamp>, i: nat, j: nat)
    requires Typed(m, a) && Typed(m, b) && i < |a| && j < |b|
    requires a[0] in m && b[0] in m && m[a[0]] == m[b[0]] && Ranks.Earlier(a[0], b[0])
    requires m[a[0]].parent.Some? ==> m[a[0]].parent.value in Order(m)
    ensures Before(Order(m), a[i], b[j])
  {
    hide Order, Typed, Under, Before;
    RunUnder(m, a, i);
    RunUnder(m, b, j);
    SiblingsOrder(m, a[0], b[0], a[i], b[j]);
  }
}
