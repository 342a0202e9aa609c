/** Ordered trees with children on two sides, their in-order walk, and the tree a
    parent relation grows from the root even when part of it dangles or loops. */
module Trees {
  import opened Stamps
  import opened Collections

  datatype Tree<T> = Tree(node: T, left: seq<Tree<T>>, right: seq<Tree<T>>)

  function InOrder<T>(t: Tree<T>): seq<T>
    decreases t, 0
  {
    InOrderAll(t.left) + [t.node] + InOrderAll(t.right)
  }

  function InOrderAll<T>(ts: seq<Tree<T>>): seq<T>
    decreases ts, 1
  {
    if ts == [] then [] else InOrder(ts[0]) + InOrderAll(ts[1..])
  }

  function Roots<T>(ts: seq<Tree<T>>): (r: seq<T>)
    ensures |r| == |ts|
    ensures forall i :: 0 <= i < |ts| ==> r[i] == ts[i].node
  {
    seq(|ts|, i requires 0 <= i < |ts| => ts[i].node)
  }

  lemma WalkStep<T>(ts: seq<Tree<T>>)
    ensures InOrderAll(ts) == if ts == [] then [] else InOrder(ts[0]) + InOrderAll(ts[1..])
  {
    hide InOrder;
  }

  lemma {:induction false} WalkConcat<T>(a: seq<Tree<T>>, b: seq<Tree<T>>)
    ensures InOrderAll(a + b) == InOrderAll(a) + InOrderAll(b)
  {
    hide InOrder, InOrderAll;
    WalkStep(a);
    if a == [] {
      assert a + b == b;
    } else {
      WalkConcat(a[1..], b);
      WalkStep(a + b);
      assert (a + b)[1..] == a[1..] + b;
      Regroup(InOrder(a[0]), InOrderAll(a[1..]), InOrderAll(b));
    }
  }

  lemma WalkOne<T>(t: Tree<T>)
    ensures InOrderAll([t]) == InOrder(t)
  {
    assert [t][1..] == [];
  }

  // ---- the tree a child relation grows ----

  /** The children of a node, or of the root, on each side, in sibling order. */
  type Kids<!T> = (Option<T>, Side) -> seq<T>

  ghost predicate TreeOf<T(!new)>(k: Kids<T>, t: Tree<T>)
    decreases t
  {
    && Roots(t.left) == k(Some(t.node), Left)
    && Roots(t.right) == k(Some(t.node), Right)
    && (forall i :: 0 <= i < |t.left| ==> TreeOf(k, t.left[i]))
    && (forall i :: 0 <= i < |t.right| ==> TreeOf(k, t.right[i]))
  }

  ghost predicate ForestOf<T(!new)>(k: Kids<T>, roots: seq<T>, ts: seq<Tree<T>>) {
    Roots(ts) == roots && forall i :: 0 <= i < |ts| ==> TreeOf(k, ts[i])
  }

  /** The child relation fixes the tree under a node. */
  lemma {:induction false} TreeUnique<T(!new)>(k: Kids<T>, t: Tree<T>, u: Tree<T>)
    requires TreeOf(k, t) && TreeOf(k, u) && t.node == u.node
    ensures t == u
    decreases t
  {
    forall i | 0 <= i < |t.left|
      ensures t.left[i] == u.left[i]
    {
      assert t.left[i].node == Roots(t.left)[i] && u.left[i].node == Roots(u.left)[i];
      TreeUnique(k, t.left[i], u.left[i]);
    }
    forall i | 0 <= i < |t.right|
      ensures t.right[i] == u.right[i]
    {
      assert t.right[i].node == Roots(t.right)[i] && u.right[i].node == Roots(u.right)[i];
      TreeUnique(k, t.right[i], u.right[i]);
    }
  }

  lemma ForestUnique<T(!new)>(k: Kids<T>, roots: seq<T>, ts: seq<Tree<T>>, us: seq<Tree<T>>)
    requires ForestOf(k, roots, ts) && ForestOf(k, roots, us)
    ensures ts == us
  {
    forall i | 0 <= i < |ts|
      ensures ts[i] == us[i]
    {
      assert ts[i].node == roots[i] && us[i].node == roots[i];
      TreeUnique(k, ts[i], us[i]);
    }
  }

  /** Every child lies in `all`, and is a child in one place only. */
  ghost predicate Fostered<T(!new)>(k: Kids<T>, all: set<T>) {
    && (forall p, s, i :: 0 <= i < |k(p, s)| ==> k(p, s)[i] in all)
    && (forall p, s, i, q, r, j :: 0 <= i < |k(p, s)| && 0 <= j < |k(q, r)| && k(p, s)[i] == k(q, r)[j]
          ==> p == q && s == r && i == j)
  }

  ghost predicate ChildOf<T(!new)>(k: Kids<T>, p: Option<T>, c: T) {
    c in k(p, Left) || c in k(p, Right)
  }

  /** The nodes from a child of the root down to a node. */
  ghost predicate Path<T(!new)>(k: Kids<T>, path: seq<T>) {
    && path != []
    && ChildOf(k, None, path[0])
    && (forall i :: 0 < i < |path| ==> ChildOf(k, Some(path[i - 1]), path[i]))
  }

  lemma {:induction false} DistinctFits<T>(s: seq<T>, all: set<T>)
    requires Distinct(s) && forall i :: 0 <= i < |s| ==> s[i] in all
    ensures |s| <= |all|
  {
    if s != [] {
      var init, x := s[..|s| - 1], s[|s| - 1];
      assert forall i :: 0 <= i < |init| ==> init[i] == s[i];
      DistinctFits(init, all - {x});
    }
  }

  /** A path never turns back on itself: each of its nodes has one parent. */
  lemma PathExtends<T(!new)>(k: Kids<T>, all: set<T>, path: seq<T>, c: T)
    requires Fostered(k, all) && Path(k, path) && Distinct(path)
    requires ChildOf(k, Some(path[|path| - 1]), c)
    ensures Path(k, path + [c]) && Distinct(path + [c])
  {
    forall i | 0 <= i < |path|
      ensures path[i] != c
    {
      OneParent(k, all, if i == 0 then None else Some(path[i - 1]), Some(path[|path| - 1]), path[i], c);
    }
    forall i | 0 < i < |path + [c]|
      ensures ChildOf(k, Some((path + [c])[i - 1]), (path + [c])[i])
    {
    }
  }

  lemma OneParent<T(!new)>(k: Kids<T>, all: set<T>, p: Option<T>, q: Option<T>, c: T, d: T)
    requires Fostered(k, all) && ChildOf(k, p, c) && ChildOf(k, q, d) && p != q
    ensures c != d
  {
  }

  lemma PathInside<T(!new)>(k: Kids<T>, all: set<T>, path: seq<T>)
    requires Fostered(k, all) && Path(k, path)
    ensures forall i :: 0 <= i < |path| ==> path[i] in all
  {
    forall i | 0 <= i < |path|
      ensures path[i] in all
    {
      var p := if i == 0 then None else Some(path[i - 1]);
      assert ChildOf(k, p, path[i]);
    }
  }

  /** The tree under the end of a path exists: a path is distinct, so it cannot outgrow
      the finite set of nodes. */
  lemma {:induction false} Grow<T(!new)>(k: Kids<T>, all: set<T>, path: seq<T>) returns (t: Tree<T>)
    requires Fostered(k, all) && Path(k, path) && Distinct(path)
    ensures TreeOf(k, t) && t.node == path[|path| - 1]
    decreases |all| - |path| + 1, 1, 0
  {
    PathInside(k, all, path);
    DistinctFits(path, all);
    var x := path[|path| - 1];
    var ls := GrowAll(k, all, path, Left, |k(Some(x), Left)|);
    var rs := GrowAll(k, all, path, Right, |k(Some(x), Right)|);
    t := Tree(x, ls, rs);
  }

  lemma {:induction false} GrowAll<T(!new)>(k: Kids<T>, all: set<T>, path: seq<T>, s: Side, n: nat)
    returns (ts: seq<Tree<T>>)
    requires Fostered(k, all) && Path(k, path) && Distinct(path) && |path| <= |all|
    requires n <= |k(Some(path[|path| - 1]), s)|
    ensures ForestOf(k, k(Some(path[|path| - 1]), s)[..n], ts)
    decreases |all| - |path| + 1, 0, n
  {
    if n == 0 {
      ts := [];
    } else {
      var kids := k(Some(path[|path| - 1]), s);
      var init := GrowAll(k, all, path, s, n - 1);
      var c := kids[n - 1];
      PathExtends(k, all, path, c);
      var t := Grow(k, all, path + [c]);
      ts := init + [t];
    }
  }

  /** The forest under the root, on one side. */
  lemma {:induction false} GrowRoots<T(!new)>(k: Kids<T>, all: set<T>, s: Side, n: nat) returns (ts: seq<Tree<T>>)
    requires Fostered(k, all) && n <= |k(None, s)|
    ensures ForestOf(k, k(None, s)[..n], ts)
  {
    if n == 0 {
      ts := [];
    } else {
      var init := GrowRoots(k, all, s, n - 1);
      var c := k(None, s)[n - 1];
      assert [c][0] in k(None, s);
      var t := Grow(k, all, [c]);
      ts := init + [t];
    }
  }

  ghost predicate HasWalk<T(!new)>(k: Kids<T>, walk: seq<T>) {
    exists ls, rs :: IsWalk(k, ls, rs, walk)
  }

  ghost predicate IsWalk<T(!new)>(k: Kids<T>, ls: seq<Tree<T>>, rs: seq<Tree<T>>, walk: seq<T>) {
    ForestOf(k, k(None, Left), ls) && ForestOf(k, k(None, Right), rs) && walk == InOrderAll(ls) + InOrderAll(rs)
  }

  /** Every child relation with one parent a node has exactly one walk from the root. */
  lemma WalkExists<T(!new)>(k: Kids<T>, all: set<T>) returns (ls: seq<Tree<T>>, rs: seq<Tree<T>>)
    requires Fostered(k, all)
    ensures IsWalk(k, ls, rs, InOrderAll(ls) + InOrderAll(rs))
  {
    ls := GrowRoots(k, all, Left, |k(None, Left)|);
    rs := GrowRoots(k, all, Right, |k(None, Right)|);
    assert k(None, Left)[..|k(None, Left)|] == k(None, Left);
    assert k(None, Right)[..|k(None, Right)|] == k(None, Right);
  }

  lemma WalkForests<T(!new)>(k: Kids<T>, walk: seq<T>) returns (ls: seq<Tree<T>>, rs: seq<Tree<T>>)
    requires HasWalk(k, walk)
    ensures ForestOf(k, k(None, Left), ls) && ForestOf(k, k(None, Right), rs)
    ensures walk == InOrderAll(ls) + InOrderAll(rs)
  {
    ls, rs :| IsWalk(k, ls, rs, walk);
  }

  lemma WalkUnique<T(!new)>(k: Kids<T>, v: seq<T>, w: seq<T>)
    requires HasWalk(k, v) && HasWalk(k, w)
    ensures v == w
  {
    var ls, rs :| IsWalk(k, ls, rs, v);
    var ls', rs' :| IsWalk(k, ls', rs', w);
    ForestUnique(k, k(None, Left), ls, ls');
    ForestUnique(k, k(None, Right), rs, rs');
  }
}
