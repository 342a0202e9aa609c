/** The replicated tree move: a log of moves in stamp order, the parent relation it folds to,
    and the undo-and-replay that keeps one the fold of the other. */
module TreeMoves {
  import opened Stamps
  import opened Collections

  /** A parent relation: each node's parent, if it has one. */
  type Parents = map<nat, nat>

  datatype Move = Move(stamp: Stamp, child: nat, parent: nat)

  /** A recorded move and the overriding parent its child held just before it. */
  datatype Entry = Entry(move: Move, before: Option<nat>)

  // ---- ancestry ----

  /** The node `k` steps above `n`. */
  ghost function Up(e: Parents, n: nat, k: nat): Option<nat>
    decreases k
  {
    if k == 0 then Some(n)
    else if n in e then Up(e, e[n], k - 1)
    else None
  }

  ghost predicate Ancestor(e: Parents, a: nat, b: nat) {
    exists k: nat :: k >= 1 && Up(e, b, k) == Some(a)
  }

  ghost predicate Forest(e: Parents) {
    forall n: nat, k: nat :: k >= 1 ==> Up(e, n, k) != Some(n)
  }

  lemma {:induction false} UpUp(e: Parents, n: nat, a: nat, b: nat)
    ensures Up(e, n, a).Some? ==> Up(e, n, a + b) == Up(e, Up(e, n, a).value, b)
    ensures Up(e, n, a).None? ==> Up(e, n, a + b).None?
    decreases a
  {
    if a > 0 && n in e {
      UpUp(e, e[n], a - 1, b);
    }
  }

  /** A walk that never meets `c` does not notice `c`'s parent changing. */
  lemma {:induction false} UpAvoids(e: Parents, c: nat, p: nat, n: nat, k: nat)
    requires forall j: nat :: j < k ==> Up(e, n, j) != Some(c)
    ensures Up(e[c := p], n, k) == Up(e, n, k)
    decreases k
  {
    if k > 0 {
      assert Up(e, n, 0) == Some(n);
      if n in e {
        forall j: nat | j < k - 1
          ensures Up(e, e[n], j) != Some(c)
        {
          assert Up(e, n, j + 1) == Up(e, e[n], j);
        }
        UpAvoids(e, c, p, e[n], k - 1);
      }
    }
  }

  /** Above the new parent nothing has changed, since `c` is not there. */
  lemma AboveParent(e: Parents, c: nat, p: nat, k: nat)
    requires c != p && !Ancestor(e, c, p)
    ensures Up(e[c := p], p, k) == Up(e, p, k) && Up(e[c := p], p, k) != Some(c)
  {
    assert Up(e, p, 0) == Some(p);
    UpAvoids(e, c, p, p, k);
  }

  lemma {:induction false} FirstMeeting(e: Parents, n: nat, c: nat, k: nat) returns (j: nat)
    requires Up(e, n, k) == Some(c)
    ensures j <= k && Up(e, n, j) == Some(c) && forall i: nat :: i < j ==> Up(e, n, i) != Some(c)
    decreases k
  {
    if i: nat :| i < k && Up(e, n, i) == Some(c) {
      j := FirstMeeting(e, n, c, i);
    } else {
      j := k;
    }
  }

  lemma MoveKeepsForest(e: Parents, c: nat, p: nat)
    requires Forest(e) && c != p && !Ancestor(e, c, p)
    ensures Forest(e[c := p])
  {
    hide Ancestor, Forest;
    var f := e[c := p];
    forall n: nat, k: nat | k >= 1
      ensures Up(f, n, k) != Some(n)
    {
      if Up(f, n, k) == Some(n) {
        NoNewCycle(e, c, p, n, k);
        assert false;
      }
    }
    ForestFrom(f);
  }

  lemma ForestFrom(e: Parents)
    requires forall n: nat, k: nat :: k >= 1 ==> Up(e, n, k) != Some(n)
    ensures Forest(e)
  {
  }

  lemma NoNewCycle(e: Parents, c: nat, p: nat, n: nat, k: nat)
    requires Forest(e) && c != p && !Ancestor(e, c, p) && k >= 1
    ensures Up(e[c := p], n, k) != Some(n)
  {
    hide Ancestor;
    var f := e[c := p];
    if Up(f, n, k) == Some(n) {
      if j: nat :| j < k && Up(f, n, j) == Some(c) {
        // Once round the cycle the walk meets c again, above its new parent.
        UpUp(f, n, k, j);
        UpUp(f, n, j, k);
        assert Up(f, c, k) == Up(f, p, k - 1);
        AboveParent(e, c, p, k - 1);
        assert false;
      }
      UpWithout(e, f, c, p, n, k);
      assert false;
    }
  }

  /** The same in the other direction, from the changed relation back. */
  lemma {:induction false} UpWithout(e: Parents, f: Parents, c: nat, p: nat, n: nat, k: nat)
    requires f == e[c := p] && forall j: nat :: j < k ==> Up(f, n, j) != Some(c)
    ensures Up(f, n, k) == Up(e, n, k)
    decreases k
  {
    if k > 0 {
      assert Up(f, n, 0) == Some(n);
      assert n != c;
      if n in e {
        assert f[n] == e[n];
        forall j: nat | j < k - 1
          ensures Up(f, e[n], j) != Some(c)
        {
          assert Up(f, n, j + 1) == Up(f, f[n], j);
        }
        UpWithout(e, f, c, p, e[n], k - 1);
      }
    }
  }

  /** A move is skipped exactly when making it would close a cycle. */
  lemma SkippedIff(e: Parents, c: nat, p: nat)
    requires Forest(e)
    ensures Forest(e[c := p]) <==> c != p && !Ancestor(e, c, p)
  {
    hide Forest;
    if c != p && !Ancestor(e, c, p) {
      MoveKeepsForest(e, c, p);
    } else {
      MoveCloses(e, c, p);
    }
  }

  lemma MoveCloses(e: Parents, c: nat, p: nat)
    requires c == p || Ancestor(e, c, p)
    ensures !Forest(e[c := p])
  {
    var f := e[c := p];
    if c == p {
      assert Up(f, c, 1) == Up(f, p, 0);
    } else {
      var k: nat :| k >= 1 && Up(e, p, k) == Some(c);
      var j := FirstMeeting(e, p, c, k);
      UpAvoids(e, c, p, p, j);
      assert Up(f, c, j + 1) == Up(f, p, j);
    }
  }

  // ---- the bounded walk ----

  /** The first `k` nodes of a walk. */
  ghost function Visited(e: Parents, n: nat, k: nat): set<nat>
    requires Up(e, n, k).Some?
    decreases k
  {
    if k == 0 then {} else {n} + Visited(e, e[n], k - 1)
  }

  lemma {:induction false} VisitedAt(e: Parents, n: nat, k: nat, x: nat)
    requires Up(e, n, k).Some? && x in Visited(e, n, k)
    ensures exists j: nat :: j < k && Up(e, n, j) == Some(x)
    decreases k
  {
    if x == n {
      assert Up(e, n, 0) == Some(x);
    } else {
      VisitedAt(e, e[n], k - 1, x);
      var j: nat :| j < k - 1 && Up(e, e[n], j) == Some(x);
      assert Up(e, n, j + 1) == Some(x);
    }
  }

  lemma {:induction false} VisitedSize(e: Parents, n: nat, k: nat)
    requires Forest(e) && Up(e, n, k).Some?
    ensures Visited(e, n, k) <= e.Keys && |Visited(e, n, k)| == k
    decreases k
  {
    hide Forest;
    if k > 0 {
      VisitedSize(e, e[n], k - 1);
      if n in Visited(e, e[n], k - 1) {
        VisitedAt(e, e[n], k - 1, n);
        ReturnsTo(e, n);
        assert false;
      }
    }
  }

  lemma ReturnsTo(e: Parents, n: nat)
    requires n in e && exists j: nat :: Up(e, e[n], j) == Some(n)
    ensures !Forest(e)
  {
    var j: nat :| Up(e, e[n], j) == Some(n);
    assert Up(e, n, j + 1) == Some(n);
  }

  /** A walk in a forest runs out within as many steps as there are nodes with a parent. */
  lemma WalkEnds(e: Parents, n: nat, k: nat)
    requires Up(e, n, k).Some? && k > |e|
    ensures !Forest(e)
  {
    hide Forest;
    if Forest(e) {
      VisitedSize(e, n, k);
      Smaller(Visited(e, n, k), e.Keys);
      assert false;
    }
  }

  /** A node's parent: the one a move gave it, or the one it was created under. */
  function Effective(base: Parents, tree: Parents): Parents {
    base + tree
  }

  lemma EffectiveSize(base: Parents, tree: Parents)
    ensures |Effective(base, tree)| <= |tree| + |base|
  {
    var e := Effective(base, tree);
    assert e.Keys == base.Keys + tree.Keys;
    assert base.Keys + tree.Keys == tree.Keys + (base.Keys - tree.Keys);
    Smaller(base.Keys - tree.Keys, base.Keys);
    assert |e.Keys| == |e| && |tree.Keys| == |tree| && |base.Keys| == |base|;
  }

  // ---- the fold ----

  /** The overriding parents after one more move: a move that would close a cycle is inert. */
  ghost function Moved(base: Parents, tree: Parents, m: Move): Parents {
    if m.child == m.parent || Ancestor(Effective(base, tree), m.child, m.parent) then tree
    else tree[m.child := m.parent]
  }

  ghost function Fold(base: Parents, moves: seq<Move>): Parents {
    if moves == [] then map[]
    else Moved(base, Fold(base, moves[..|moves| - 1]), moves[|moves| - 1])
  }

  lemma FoldStep(base: Parents, moves: seq<Move>, i: nat)
    requires i < |moves|
    ensures Fold(base, moves[..i + 1]) == Moved(base, Fold(base, moves[..i]), moves[i])
  {
    assert moves[..i + 1][..i] == moves[..i];
  }

  /** Whatever the log holds, the relation it folds to is a forest. */
  lemma {:induction false} FoldForest(base: Parents, moves: seq<Move>)
    requires Forest(base)
    ensures Forest(Effective(base, Fold(base, moves)))
  {
    hide Forest, Ancestor;
    if moves == [] {
      assert Effective(base, map[]) == base;
    } else {
      var init, m := moves[..|moves| - 1], moves[|moves| - 1];
      FoldForest(base, init);
      var tree := Fold(base, init);
      if m.child != m.parent && !Ancestor(Effective(base, tree), m.child, m.parent) {
        MoveKeepsForest(Effective(base, tree), m.child, m.parent);
        assert Effective(base, tree[m.child := m.parent]) == Effective(base, tree)[m.child := m.parent];
      }
    }
  }

  /** Making the move would close a cycle. */
  ghost predicate Closes(base: Parents, tree: Parents, m: Move) {
    !Forest(Effective(base, tree)[m.child := m.parent])
  }

  /** A move is made exactly when the whole relation with it is still a forest, whether or not
      its node had moved before; otherwise it changes nothing. */
  lemma FoldDecides(base: Parents, moves: seq<Move>, m: Move)
    requires Forest(base)
    ensures var tree := Fold(base, moves);
            Fold(base, moves + [m]) == if Closes(base, tree, m) then tree else tree[m.child := m.parent]
  {
    hide Forest, Ancestor, Effective;
    FoldForest(base, moves);
    SkippedIff(Effective(base, Fold(base, moves)), m.child, m.parent);
    assert (moves + [m])[..|moves|] == moves;
  }

  /** The move at `i` was made, and no later move of its node was. */
  ghost predicate LastMade(base: Parents, moves: seq<Move>, c: nat, i: nat) {
    && MadeAt(base, moves, c, i)
    && forall j: nat :: i < j < |moves| ==> !MadeAt(base, moves, c, j)
  }

  ghost predicate MadeAt(base: Parents, moves: seq<Move>, c: nat, i: nat) {
    i < |moves| && moves[i].child == c && !Closes(base, Fold(base, moves[..i]), moves[i])
  }

  /** A node ends under the parent of the last move of it that closed no cycle, and where it was
      created if there is none. */
  lemma {:induction false} LastMoveWins(base: Parents, moves: seq<Move>, c: nat)
    requires Forest(base)
    ensures c in Fold(base, moves) <==> exists i: nat :: LastMade(base, moves, c, i)
    ensures forall i: nat :: LastMade(base, moves, c, i) ==>
              c in Fold(base, moves) && Fold(base, moves)[c] == moves[i].parent
    decreases |moves|
  {
    hide Closes, Fold, Forest;
    if moves == [] {
      FoldNone(base, base);
    } else {
      var init, last := moves[..|moves| - 1], |moves| - 1;
      LastMoveWins(base, init, c);
      FoldDecides(base, init, moves[last]);
      assert init + [moves[last]] == moves;
      forall j: nat | j < last
        ensures MadeAt(base, moves, c, j) <==> MadeAt(base, init, c, j)
      {
        assert init[..j] == moves[..j];
      }
      if MadeAt(base, moves, c, last) {
        assert LastMade(base, moves, c, last);
      } else {
        forall i: nat
          ensures LastMade(base, moves, c, i) <==> LastMade(base, init, c, i)
        {
        }
      }
    }
  }

  function Lookup(tree: Parents, n: nat): Option<nat> {
    if n in tree then Some(tree[n]) else None
  }

  function Restored(tree: Parents, child: nat, before: Option<nat>): Parents {
    match before
    case Some(p) => tree[child := p]
    case None => tree - {child}
  }

  lemma UndoMoved(base: Parents, tree: Parents, m: Move)
    ensures Restored(Moved(base, tree, m), m.child, Lookup(tree, m.child)) == tree
  {
    hide Ancestor;
  }

  // ---- the log ----

  ghost predicate Sorted(moves: seq<Move>) {
    forall i, j :: 0 <= i < j < |moves| ==> Less(moves[i].stamp, moves[j].stamp)
  }

  function MovesOf(log: seq<Entry>): (r: seq<Move>)
    ensures |r| == |log| && forall i :: 0 <= i < |r| ==> r[i] == log[i].move
  {
    seq(|log|, i requires 0 <= i < |log| => log[i].move)
  }

  /** Each entry remembers what its child's overriding parent was when it applied. */
  ghost predicate Remembers(base: Parents, log: seq<Entry>) {
    forall i :: 0 <= i < |log| ==> log[i].before == Lookup(Fold(base, MovesOf(log)[..i]), log[i].move.child)
  }

  lemma RememberPrefix(base: Parents, log: seq<Entry>, k: nat)
    requires Remembers(base, log) && k <= |log|
    ensures Remembers(base, log[..k])
  {
    hide Fold;
    var short := log[..k];
    forall i | 0 <= i < k
      ensures short[i].before == Lookup(Fold(base, MovesOf(short)[..i]), short[i].move.child)
    {
      assert MovesOf(short)[..i] == MovesOf(log)[..i];
    }
  }

  lemma RememberMore(base: Parents, log: seq<Entry>, m: Move)
    requires Remembers(base, log)
    ensures var tree := Fold(base, MovesOf(log));
            var more := log + [Entry(m, Lookup(tree, m.child))];
            && Remembers(base, more) && Fold(base, MovesOf(more)) == Moved(base, tree, m)
            && MovesOf(more) == MovesOf(log) + [m]
  {
    hide Moved, Ancestor;
    var tree := Fold(base, MovesOf(log));
    var more := log + [Entry(m, Lookup(tree, m.child))];
    assert MovesOf(more) == MovesOf(log) + [m];
    forall i | 0 <= i < |more|
      ensures more[i].before == Lookup(Fold(base, MovesOf(more)[..i]), more[i].move.child)
    {
      assert MovesOf(more)[..i] == MovesOf(log)[..i];
      if i == |log| {
        assert MovesOf(log)[..i] == MovesOf(log);
      }
    }
    assert MovesOf(more)[..|log|] == MovesOf(log);
  }

  /** Two logs of the same moves are the same log. */
  lemma {:induction false} SortedUnique(a: seq<Move>, b: seq<Move>)
    requires Sorted(a) && Sorted(b) && forall m :: m in a <==> m in b
    ensures a == b
  {
    assert (a != [] ==> a[0] in a) && (b != [] ==> b[0] in b);
    if a != [] && b != [] {
      LastSame(a, b);
      var a', b' := a[..|a| - 1], b[..|b| - 1];
      forall m
        ensures m in a' <==> m in b'
      {
        InInit(a, m);
        InInit(b, m);
      }
      SortedUnique(a', b');
      assert a == a' + [a[|a| - 1]] && b == b' + [b[|b| - 1]];
    }
  }

  lemma InInit(a: seq<Move>, m: Move)
    requires Sorted(a) && a != []
    ensures m in a[..|a| - 1] <==> m in a && m != a[|a| - 1]
  {
  }

  lemma LastSame(a: seq<Move>, b: seq<Move>)
    requires Sorted(a) && Sorted(b) && a != [] && b != [] && forall m :: m in a <==> m in b
    ensures a[|a| - 1] == b[|b| - 1]
  {
    var x, y := a[|a| - 1], b[|b| - 1];
    assert x in b && y in a;
    var i :| 0 <= i < |b| && b[i] == x;
    var j :| 0 <= j < |a| && a[j] == y;
  }

  /** Where a stamp belongs in the log. */
  ghost predicate Splits(log: seq<Entry>, stamp: Stamp, at: nat) {
    && at <= |log| && (forall i :: 0 <= i < at ==> Less(log[i].move.stamp, stamp))
    && (forall i :: at <= i < |log| ==> !Less(log[i].move.stamp, stamp))
  }

  method PartitionPoint(log: seq<Entry>, stamp: Stamp) returns (at: nat)
    requires Sorted(MovesOf(log))
    ensures Splits(log, stamp, at)
  {
    at := 0;
    while at < |log| && Less(log[at].move.stamp, stamp)
      invariant 0 <= at <= |log|
      invariant forall i :: 0 <= i < at ==> Less(log[i].move.stamp, stamp)
    {
      at := at + 1;
    }
    SplitsAt(log, stamp, at);
  }

  lemma SplitsAt(log: seq<Entry>, stamp: Stamp, at: nat)
    requires Sorted(MovesOf(log)) && at <= |log| && (forall i :: 0 <= i < at ==> Less(log[i].move.stamp, stamp))
    requires at < |log| ==> !Less(log[at].move.stamp, stamp)
    ensures Splits(log, stamp, at)
  {
    var moves := MovesOf(log);
    forall i | at <= i < |log|
      ensures !Less(log[i].move.stamp, stamp)
    {
      assert moves[i] == log[i].move && moves[at] == log[at].move;
    }
  }

  /** The stamp is free if the entry at its place does not already carry it. */
  lemma SpliceSorted(log: seq<Entry>, m: Move, at: nat)
    requires Sorted(MovesOf(log)) && Splits(log, m.stamp, at) && (at < |log| ==> log[at].move.stamp != m.stamp)
    ensures Sorted(MovesOf(log)[..at] + [m] + MovesOf(log)[at..])
    ensures forall x :: x in MovesOf(log) ==> x.stamp != m.stamp
  {
    var moves := MovesOf(log);
    forall i | at <= i < |moves|
      ensures Less(m.stamp, moves[i].stamp)
    {
      assert moves[i] == log[i].move && moves[at] == log[at].move;
      LessTotal(m.stamp, moves[at].stamp);
      if i > at {
        assert Less(moves[at].stamp, moves[i].stamp);
      }
    }
    SpliceOrder(moves, m, at);
  }

  lemma SpliceOrder(moves: seq<Move>, m: Move, at: nat)
    requires Sorted(moves) && at <= |moves| && (forall i :: 0 <= i < at ==> Less(moves[i].stamp, m.stamp))
    requires forall i :: at <= i < |moves| ==> Less(m.stamp, moves[i].stamp)
    ensures Sorted(moves[..at] + [m] + moves[at..])
  {
    hide Less;
    var r := moves[..at] + [m] + moves[at..];
    forall i, j | 0 <= i < j < |r|
      ensures Less(r[i].stamp, r[j].stamp)
    {
      assert r[i] == if i < at then moves[i] else if i == at then m else moves[i - 1];
      assert r[j] == if j < at then moves[j] else if j == at then m else moves[j - 1];
      if i < at < j {
        assert moves[i] == r[i] && moves[j - 1] == r[j];
      }
    }
  }

  lemma DropSorted(moves: seq<Move>, at: nat)
    requires Sorted(moves) && at < |moves|
    ensures Sorted(moves[..at] + moves[at + 1..])
  {
    hide Less;
    var r := moves[..at] + moves[at + 1..];
    forall i, j | 0 <= i < j < |r|
      ensures Less(r[i].stamp, r[j].stamp)
    {
      assert r[i] == moves[if i < at then i else i + 1] && r[j] == moves[if j < at then j else j + 1];
    }
  }

  class TreeMoves {
    var tree: Parents
    var base: Parents
    var log: seq<Entry>

    /** The log is in stamp order, each entry remembers what it overrode, and the relation is
        the fold of the log. */
    ghost predicate Valid()
      reads this
    {
      Forest(base) && Sorted(MovesOf(log)) && Remembers(base, log) && tree == Fold(base, MovesOf(log))
    }

    constructor ()
      ensures Valid() && log == [] && base == map[]
    {
      tree, base, log := map[], map[], [];
      new;
      EmptyForest();
    }

    /** Whether `a` is above `b`. The walk is cut off after as many steps as there are edges,
        which a forest never needs. */
    method IsAncestor(a: nat, b: nat) returns (r: bool)
      ensures Forest(Effective(base, tree)) ==> (r <==> Ancestor(Effective(base, tree), a, b))
    {
      hide Forest;
      ghost var e := Effective(base, tree);
      EffectiveSize(base, tree);
      var cur := b;
      var i: nat := 0;
      while i <= |tree| + |base|
        invariant 0 <= i <= |tree| + |base| + 1 && Up(e, b, i) == Some(cur)
        invariant forall j: nat :: 1 <= j <= i ==> Up(e, b, j) != Some(a)
      {
        UpUp(e, b, i, 1);
        if cur !in tree && cur !in base {
          EndsShort(e, a, b, i);
          return false;
        }
        var p := if cur in tree then tree[cur] else base[cur];
        assert Up(e, cur, 1) == Up(e, p, 0);
        if p == a {
          return true;
        }
        cur, i := p, i + 1;
      }
      WalkEnds(e, b, i);
      return true;
    }

    /** Apply one move to the relation and return its entry. */
    method Redo(m: Move) returns (entry: Entry)
      requires Forest(Effective(base, tree))
      modifies `tree
      ensures tree == Moved(base, old(tree), m) && entry == Entry(m, Lookup(old(tree), m.child))
    {
      hide Forest, Ancestor;
      entry := Entry(m, Lookup(tree, m.child));
      if m.child != m.parent {
        var above := IsAncestor(m.child, m.parent);
        if !above {
          tree := tree[m.child := m.parent];
        }
      }
    }

    /** Put back the parent an entry overrode. */
    method Undo(entry: Entry)
      modifies `tree
      ensures tree == Restored(old(tree), entry.move.child, entry.before)
    {
      match entry.before {
        case Some(p) => tree := tree[entry.move.child := p];
        case None => tree := tree - {entry.move.child};
      }
    }

    /** Cut the log at a place, undoing every later move, latest first. */
    method Rewind(at: nat) returns (later: seq<Move>)
      requires Valid() && at <= |log|
      modifies `tree, `log
      ensures Valid() && later == MovesOf(old(log))[at..] && MovesOf(log) == MovesOf(old(log))[..at]
    {
      hide Forest, Fold, Less, Remembers, Sorted;
      ghost var moves := MovesOf(log);
      later := MovesOf(log[at..]);
      var entries := log[at..];
      assert later == moves[at..];
      var i := |log|;
      assert moves[..i] == moves;
      while i > at
        invariant at <= i <= |moves| && tree == Fold(base, moves[..i]) && log == old(log) && base == old(base)
        decreases i
      {
        i := i - 1;
        RewindOne(base, log, tree, i);
        Undo(entries[i - at]);
      }
      RewindLog(base, log, at);
      log := log[..at];
    }

    /** Replay moves on top of the log, in order. */
    method Replay(moves: seq<Move>)
      requires Valid() && Sorted(MovesOf(log) + moves)
      modifies `tree, `log
      ensures Valid() && MovesOf(log) == MovesOf(old(log)) + moves
    {
      hide Forest, Fold, Less, Remembers, Sorted, Moved;
      ghost var start := MovesOf(log);
      var i := 0;
      assert start + moves[..0] == start;
      while i < |moves|
        invariant 0 <= i <= |moves| && Valid() && base == old(base) && MovesOf(log) == start + moves[..i]
      {
        FoldForest(base, MovesOf(log));
        RememberMore(base, log, moves[i]);
        SortedPrefix(start + moves, |start| + i + 1);
        assert (start + moves)[..|start| + i + 1] == start + moves[..i] + [moves[i]];
        var entry := Redo(moves[i]);
        log := log + [entry];
        assert moves[..i + 1] == moves[..i] + [moves[i]];
        i := i + 1;
      }
      assert moves[..i] == moves;
    }

    /** Record a move, unless its stamp already is: undo every later move, splice it in, redo
        the rest. */
    method Apply(m: Move) returns (added: bool)
      requires Valid()
      modifies `tree, `log
      ensures Valid()
      ensures added <==> forall x :: x in MovesOf(old(log)) ==> x.stamp != m.stamp
      ensures forall x :: x in MovesOf(log) <==> x in MovesOf(old(log)) || (added && x == m)
      ensures !added ==> tree == old(tree) && log == old(log)
    {
      hide Forest, Fold, Less, Remembers, Sorted;
      var at := PartitionPoint(log, m.stamp);
      ghost var moves := MovesOf(log);
      if at < |log| && log[at].move.stamp == m.stamp {
        assert log[at].move == moves[at] && moves[at] in moves;
        return false;
      }
      SpliceSorted(log, m, at);
      var later := Rewind(at);
      assert moves[..at] + [m] + moves[at..] == MovesOf(log) + ([m] + later);
      Replay([m] + later);
      SplicedMembers(moves, m, at);
      return true;
    }

    /** Withdraw a recorded move, leaving the fold of the rest. */
    method Remove(m: Move) returns (removed: bool)
      requires Valid()
      modifies `tree, `log
      ensures Valid()
      ensures removed <==> m in MovesOf(old(log))
      ensures forall x :: x in MovesOf(log) <==> x in MovesOf(old(log)) && x != m
    {
      hide Forest, Fold, Less, Remembers, Sorted;
      var at := PartitionPoint(log, m.stamp);
      ghost var moves := MovesOf(log);
      if at == |log| || log[at].move != m {
        Absent(log, m, at);
        return false;
      }
      assert log[at].move == moves[at];
      var later := Rewind(at);
      assert later[1..] == moves[at + 1..];
      DropSorted(moves, at);
      Replay(later[1..]);
      DroppedMembers(moves, at);
      return true;
    }

    /** Record the parent a node was created under. The relation stays a forest exactly when
        the edge closes no cycle now, and stays the fold of the log exactly when it would have
        closed none at any point of the log. */
    method SetBase(child: nat, parent: nat)
      modifies `base
      ensures base == if child in old(base) then old(base) else old(base)[child := parent]
      ensures child in old(base) && old(Valid()) ==> Valid()
      ensures child !in old(base) && Forest(Effective(old(base), tree)) ==>
                (Forest(Effective(base, tree)) <==> Clear(old(base), tree, child, parent))
      ensures child !in old(base) && old(Valid()) ==> (Valid() <==> AlwaysClear(old(base), MovesOf(log), child, parent))
      ensures child !in old(base) && old(Valid()) && child != parent && Leaf(old(base), MovesOf(log), child) ==> Valid()
    {
      hide Forest, Fold, Remembers, Sorted, AlwaysClear, Leaf, Clear;
      if child !in base {
        if Forest(Effective(base, tree)) {
          CreationIff(base, tree, child, parent);
        }
        if Valid() {
          CreationKeepsIff(base, log, tree, child, parent);
          if child != parent && Leaf(base, MovesOf(log), child) {
            LeafClear(base, MovesOf(log), child, parent);
          }
        }
        base := base[child := parent];
      }
    }

    /** Record a batch of moves in the order given: the log ends with the first move of each
        stamp, those it held already coming first. */
    method ApplyAll(moves: seq<Move>)
      requires Valid()
      modifies `tree, `log
      ensures Valid() && Elements(MovesOf(log)) == Arrived(Elements(MovesOf(old(log))), moves)
    {
      hide Forest, Fold, Less, Remembers, Sorted, Arrived;
      ghost var start := Elements(MovesOf(log));
      var i := 0;
      ArrivedStep(start, moves, 0);
      while i < |moves|
        invariant 0 <= i <= |moves| && Valid() && base == old(base)
        invariant Elements(MovesOf(log)) == Arrived(start, moves[..i])
      {
        ghost var before := MovesOf(log);
        var added := Apply(moves[i]);
        ArrivedStep(start, moves, i);
        assert Elements(MovesOf(log)) == Elements(before) + if added then {moves[i]} else {};
        i := i + 1;
      }
      assert moves[..i] == moves;
    }
  }

  lemma EmptyForest()
    ensures Forest(map[]) && MovesOf([]) == [] && Fold(map[], []) == map[]
  {
  }

  lemma EndsShort(e: Parents, a: nat, b: nat, i: nat)
    requires Up(e, b, i + 1).None? && forall j: nat :: 1 <= j <= i ==> Up(e, b, j) != Some(a)
    ensures !Ancestor(e, a, b)
  {
    forall k: nat | k >= 1
      ensures Up(e, b, k) != Some(a)
    {
      if k > i {
        UpUp(e, b, i + 1, k - i - 1);
      }
    }
  }

  lemma RewindOne(base: Parents, log: seq<Entry>, tree: Parents, i: nat)
    requires Remembers(base, log) && i < |log| && tree == Fold(base, MovesOf(log)[..i + 1])
    ensures Restored(tree, log[i].move.child, log[i].before) == Fold(base, MovesOf(log)[..i])
  {
    hide Fold, Moved;
    FoldStep(base, MovesOf(log), i);
    UndoMoved(base, Fold(base, MovesOf(log)[..i]), log[i].move);
  }

  lemma RewindLog(base: Parents, log: seq<Entry>, at: nat)
    requires Remembers(base, log) && Sorted(MovesOf(log)) && at <= |log|
    ensures Remembers(base, log[..at]) && Sorted(MovesOf(log[..at])) && MovesOf(log[..at]) == MovesOf(log)[..at]
  {
    hide Fold;
    RememberPrefix(base, log, at);
    SortedPrefix(MovesOf(log), at);
    assert MovesOf(log[..at]) == MovesOf(log)[..at];
  }

  lemma SortedPrefix(moves: seq<Move>, k: nat)
    requires Sorted(moves) && k <= |moves|
    ensures Sorted(moves[..k])
  {
    hide Less;
  }

  lemma SplicedMembers(moves: seq<Move>, m: Move, at: nat)
    requires at <= |moves|
    ensures forall x :: x in moves[..at] + [m] + moves[at..] <==> x in moves || x == m
  {
    assert moves == moves[..at] + moves[at..];
  }

  lemma DroppedMembers(moves: seq<Move>, at: nat)
    requires Sorted(moves) && at < |moves|
    ensures forall x :: x in moves[..at] + moves[at + 1..] <==> x in moves && x != moves[at]
  {
    forall i | 0 <= i < |moves| && i != at
      ensures moves[i] != moves[at]
    {
      assert i < at ==> Less(moves[i].stamp, moves[at].stamp);
      assert at < i ==> Less(moves[at].stamp, moves[i].stamp);
    }
    assert moves == moves[..at] + [moves[at]] + moves[at + 1..];
  }

  lemma Absent(log: seq<Entry>, m: Move, at: nat)
    requires Sorted(MovesOf(log)) && Splits(log, m.stamp, at) && (at == |log| || log[at].move != m)
    ensures m !in MovesOf(log)
  {
    var moves := MovesOf(log);
    forall i | 0 <= i < |moves|
      ensures moves[i] != m
    {
      assert moves[i] == log[i].move;
      if i > at {
        assert Less(moves[at].stamp, moves[i].stamp);
      }
    }
  }

  // ---- creation edges ----

  /** A creation edge under `p` would close no cycle: a move already overrides it, or `c` is
      neither `p` nor above it. */
  ghost predicate Clear(base: Parents, tree: Parents, c: nat, p: nat) {
    c in tree || (c != p && !Ancestor(Effective(base, tree), c, p))
  }

  /** A creation edge keeps the relation a forest exactly when it closes no cycle. */
  lemma CreationIff(base: Parents, tree: Parents, c: nat, p: nat)
    requires Forest(Effective(base, tree)) && c !in base
    ensures Forest(Effective(base[c := p], tree)) <==> Clear(base, tree, c, p)
  {
    hide Forest, Ancestor;
    if c in tree {
      assert Effective(base[c := p], tree) == Effective(base, tree);
    } else {
      assert Effective(base[c := p], tree) == Effective(base, tree)[c := p];
      SkippedIff(Effective(base, tree), c, p);
    }
  }

  /** The edge would have closed no cycle at any point of the log. */
  ghost predicate AlwaysClear(base: Parents, moves: seq<Move>, c: nat, p: nat) {
    forall i :: 0 <= i <= |moves| ==> Clear(base, Fold(base, moves[..i]), c, p)
  }

  /** More edges never take an ancestor away. */
  lemma {:induction false} UpKept(e: Parents, c: nat, p: nat, n: nat, k: nat)
    requires c !in e && Up(e, n, k).Some?
    ensures Up(e[c := p], n, k) == Up(e, n, k)
    decreases k
  {
    if k > 0 {
      UpKept(e, c, p, e[n], k - 1);
    }
  }

  lemma AncestorKept(e: Parents, c: nat, p: nat, a: nat, b: nat)
    requires c !in e && Ancestor(e, a, b)
    ensures Ancestor(e[c := p], a, b)
  {
    var k: nat :| k >= 1 && Up(e, b, k) == Some(a);
    UpKept(e, c, p, b, k);
  }

  /** Where the edge closes no cycle before or after a move, the move is taken or skipped just
      as it was. */
  lemma SameMove(base: Parents, tree: Parents, m: Move, c: nat, p: nat)
    requires c !in base && Forest(Effective(base[c := p], tree))
    requires Forest(Effective(base[c := p], Moved(base, tree, m)))
    ensures Moved(base[c := p], tree, m) == Moved(base, tree, m)
  {
    hide Forest, Ancestor;
    var e, f := Effective(base, tree), Effective(base[c := p], tree);
    assert f == if c in tree then e else e[c := p];
    if m.child != m.parent && Ancestor(e, m.child, m.parent) {
      if c !in tree {
        AncestorKept(e, c, p, m.child, m.parent);
      }
    } else if m.child != m.parent {
      SkippedIff(f, m.child, m.parent);
      assert Effective(base[c := p], tree[m.child := m.parent]) == f[m.child := m.parent];
    }
  }

  /** A creation edge clear all along the log changes no fold of it. */
  lemma {:induction false} ClearFold(base: Parents, moves: seq<Move>, c: nat, p: nat)
    requires Forest(base) && c !in base && AlwaysClear(base, moves, c, p)
    ensures Fold(base[c := p], moves) == Fold(base, moves)
    decreases |moves|
  {
    hide Forest, Ancestor, Clear, Moved;
    if moves != [] {
      var init, m := moves[..|moves| - 1], moves[|moves| - 1];
      forall i | 0 <= i <= |init|
        ensures Clear(base, Fold(base, init[..i]), c, p)
      {
        assert init[..i] == moves[..i];
      }
      ClearFold(base, init, c, p);
      ClearForest(base, moves, c, p, |init|);
      ClearForest(base, moves, c, p, |moves|);
      assert moves[..|moves|] == moves;
      SameMove(base, Fold(base, init), m, c, p);
    }
  }

  lemma ClearForest(base: Parents, moves: seq<Move>, c: nat, p: nat, i: nat)
    requires Forest(base) && c !in base && AlwaysClear(base, moves, c, p) && i <= |moves|
    ensures Forest(Effective(base[c := p], Fold(base, moves[..i])))
  {
    hide Forest, Clear, Fold;
    FoldForest(base, moves[..i]);
    CreationIff(base, Fold(base, moves[..i]), c, p);
  }

  lemma AlwaysClearPrefix(base: Parents, moves: seq<Move>, c: nat, p: nat, i: nat)
    requires AlwaysClear(base, moves, c, p) && i <= |moves|
    ensures AlwaysClear(base, moves[..i], c, p)
  {
    hide Clear, Fold;
    forall j | 0 <= j <= i
      ensures Clear(base, Fold(base, moves[..i][..j]), c, p)
    {
      assert moves[..i][..j] == moves[..j];
    }
  }

  /** Two bases whose entries remember the same agree on every earlier fold once they agree on
      the whole. */
  lemma {:induction false} FoldsBack(base: Parents, other: Parents, log: seq<Entry>, i: nat)
    requires Remembers(base, log) && Remembers(other, log) && i <= |log|
    requires Fold(base, MovesOf(log)) == Fold(other, MovesOf(log))
    ensures Fold(base, MovesOf(log)[..i]) == Fold(other, MovesOf(log)[..i])
    decreases |log| - i
  {
    hide Fold, Moved;
    if i == |log| {
      assert MovesOf(log)[..i] == MovesOf(log);
    } else {
      FoldsBack(base, other, log, i + 1);
      RewindOne(base, log, Fold(base, MovesOf(log)[..i + 1]), i);
      RewindOne(other, log, Fold(other, MovesOf(log)[..i + 1]), i);
    }
  }

  /** Recording a creation edge leaves the relation the fold of the log, every entry still
      exact, if and only if it would have closed no cycle at any point of the log. */
  lemma CreationKeepsIff(base: Parents, log: seq<Entry>, tree: Parents, c: nat, p: nat)
    requires Forest(base) && Remembers(base, log) && tree == Fold(base, MovesOf(log)) && c !in base
    ensures (Forest(base[c := p]) && Remembers(base[c := p], log) && tree == Fold(base[c := p], MovesOf(log))) <==>
            AlwaysClear(base, MovesOf(log), c, p)
  {
    hide Forest, Ancestor, Clear, Fold;
    var moves, next := MovesOf(log), base[c := p];
    if AlwaysClear(base, moves, c, p) {
      forall i | 0 <= i <= |moves|
        ensures Fold(next, moves[..i]) == Fold(base, moves[..i])
      {
        AlwaysClearPrefix(base, moves, c, p, i);
        ClearFold(base, moves[..i], c, p);
      }
      assert moves[..|moves|] == moves;
      ClearForest(base, moves, c, p, 0);
      FoldNone(base, next);
    }
    if Forest(next) && Remembers(next, log) && tree == Fold(next, moves) {
      forall i | 0 <= i <= |moves|
        ensures Clear(base, Fold(base, moves[..i]), c, p)
      {
        FoldsBack(base, next, log, i);
        FoldForest(base, moves[..i]);
        FoldForest(next, moves[..i]);
        CreationIff(base, Fold(base, moves[..i]), c, p);
      }
    }
  }

  lemma FoldNone(base: Parents, next: Parents)
    ensures Fold(base, []) == map[] && Effective(next, map[]) == next
  {
  }

  /** A node nothing was created under and no move put anything under; it may have moved. */
  ghost predicate Leaf(base: Parents, moves: seq<Move>, c: nat) {
    c !in base && (forall n :: n in base ==> base[n] != c) && (forall m :: m in moves ==> m.parent != c)
  }

  ghost predicate Childless(e: Parents, c: nat) {
    forall n :: n in e ==> e[n] != c
  }

  lemma {:induction false} UpMisses(e: Parents, c: nat, n: nat, k: nat)
    requires Childless(e, c) && n != c
    ensures Up(e, n, k) != Some(c)
    decreases k
  {
    if k > 0 && n in e {
      UpMisses(e, c, e[n], k - 1);
    }
  }

  lemma NotAbove(e: Parents, c: nat, n: nat)
    requires Childless(e, c) && n != c
    ensures !Ancestor(e, c, n)
  {
    forall k: nat ensures Up(e, n, k) != Some(c) {
      UpMisses(e, c, n, k);
    }
  }

  lemma LeafAncestry(e: Parents, c: nat, p: nat, a: nat, b: nat)
    requires Childless(e, c) && b != c
    ensures Ancestor(e[c := p], a, b) <==> Ancestor(e, a, b)
  {
    var f := e[c := p];
    forall k: nat
      ensures Up(f, b, k) == Up(e, b, k)
    {
      forall j: nat | j < k ensures Up(e, b, j) != Some(c) {
        UpMisses(e, c, b, j);
      }
      UpAvoids(e, c, p, b, k);
    }
  }

  /** A creation edge recorded before anything hangs under the node changes no fold, whether
      or not the node has moved meanwhile. */
  lemma {:induction false} LeafFold(base: Parents, moves: seq<Move>, c: nat, p: nat)
    requires Leaf(base, moves, c)
    ensures Fold(base[c := p], moves) == Fold(base, moves) && Childless(Fold(base, moves), c)
    decreases |moves|
  {
    hide Ancestor;
    if moves != [] {
      var init, m := moves[..|moves| - 1], moves[|moves| - 1];
      LeafFold(base, init, c, p);
      var tree := Fold(base, init);
      var e := Effective(base, tree);
      assert m in moves;
      assert Childless(e, c);
      LeafAncestry(e, c, p, m.child, m.parent);
      assert Effective(base[c := p], tree) == if c in tree then e else e[c := p];
    }
  }

  /** A birth that arrives after its node was revealed and moved is clear all along the log. */
  lemma LeafClear(base: Parents, moves: seq<Move>, c: nat, p: nat)
    requires Leaf(base, moves, c) && c != p
    ensures AlwaysClear(base, moves, c, p)
  {
    hide Fold, Ancestor;
    forall i | 0 <= i <= |moves|
      ensures Clear(base, Fold(base, moves[..i]), c, p)
    {
      LeafFold(base, moves[..i], c, p);
      NotAbove(Effective(base, Fold(base, moves[..i])), c, p);
    }
  }

  /** Recorded once a move has put its parent below the node, a creation edge closes a cycle
      that the fold, had it known the edge, would have refused. */
  lemma LateCreation(x: nat, y: nat, stamp: Stamp)
    requires x != y
    ensures var moves := [Move(stamp, x, y)]; var early, late := Fold(map[y := x], moves), Fold(map[], moves);
            && early == map[] && late == map[x := y]
            && !Forest(Effective(map[y := x], late)) && !AlwaysClear(map[], moves, y, x)
  {
    var m := Move(stamp, x, y);
    assert [m][..0] == [];
    var base: Parents := map[y := x];
    assert Up(Effective(base, map[]), y, 1) == Up(Effective(base, map[]), x, 0);
    assert Ancestor(Effective(base, map[]), x, y);
    var none: Parents := map[];
    assert Effective(none, none) == none;
    assert !Ancestor(none, x, y) by {
      forall k: nat | k >= 1 ensures Up(none, y, k) != Some(x) {}
    }
    var e := Effective(base, map[x := y]);
    assert Up(e, x, 2) == Up(e, y, 1) == Up(e, x, 0);
    LateNotClear(x, y, m);
  }

  lemma LateNotClear(x: nat, y: nat, m: Move)
    requires x != y && Fold(map[], [m]) == map[x := y]
    ensures !AlwaysClear(map[], [m], y, x)
  {
    var late: Parents := map[x := y];
    var e := Effective(map[], late);
    assert [m][..1] == [m];
    assert Up(e, x, 1) == Up(e, y, 0);
    assert Ancestor(e, y, x);
    assert !Clear(map[], Fold(map[], [m][..1]), y, x);
  }

  // ---- convergence ----

  /** Two replicas holding the same moves over the same creations hold the same relation, and
      it is a forest. */
  lemma MovesDecide(a: TreeMoves, b: TreeMoves)
    requires a.Valid() && b.Valid() && a.base == b.base && forall m :: m in MovesOf(a.log) <==> m in MovesOf(b.log)
    ensures MovesOf(a.log) == MovesOf(b.log) && a.tree == b.tree && Forest(Effective(a.base, a.tree))
  {
    hide Forest, Fold, Less, Remembers, Sorted;
    SortedUnique(MovesOf(a.log), MovesOf(b.log));
    FoldForest(a.base, MovesOf(a.log));
  }

  /** What a log holding `start` ends up with: a move joins unless its stamp is already there. */
  ghost function Arrived(start: set<Move>, moves: seq<Move>): set<Move> {
    if moves == [] then start else
    var so, m := Arrived(start, moves[..|moves| - 1]), moves[|moves| - 1];
    if exists x :: x in so && x.stamp == m.stamp then so else so + {m}
  }

  lemma ArrivedStep(start: set<Move>, moves: seq<Move>, i: nat)
    requires i <= |moves|
    ensures Arrived(start, moves[..0]) == start
    ensures i < |moves| ==> var so := Arrived(start, moves[..i]);
              Arrived(start, moves[..i + 1]) ==
              if exists x :: x in so && x.stamp == moves[i].stamp then so else so + {moves[i]}
  {
    if i < |moves| {
      assert moves[..i + 1][..i] == moves[..i];
    }
  }

  /** The first move of each stamp in a batch. */
  ghost function FirstOf(moves: seq<Move>): set<Move> {
    Arrived({}, moves)
  }

  /** No two of the moves carry one stamp. */
  ghost predicate StampsApart(ms: set<Move>) {
    forall a, b :: a in ms && b in ms && a.stamp == b.stamp ==> a == b
  }

  lemma {:induction false} ArrivedIn(start: set<Move>, moves: seq<Move>)
    ensures start <= Arrived(start, moves) <= start + Elements(moves)
    decreases |moves|
  {
    if moves != [] {
      var init, m := moves[..|moves| - 1], moves[|moves| - 1];
      ArrivedIn(start, init);
      assert moves == init + [m];
    }
  }

  /** Where no stamp is shared every move is the first of its stamp. */
  lemma {:induction false} AllArrive(moves: seq<Move>)
    requires StampsApart(Elements(moves))
    ensures FirstOf(moves) == Elements(moves)
    decreases |moves|
  {
    if moves == [] {
      assert Elements(moves) == {};
    } else {
      var init, m := moves[..|moves| - 1], moves[|moves| - 1];
      assert moves == init + [m];
      assert Elements(moves) == Elements(init) + {m};
      AllArrive(init);
    }
  }

  /** The first of a batch stays, and keeps out every other of its stamp. */
  lemma {:induction false} FirstStays(m: Move, rest: seq<Move>, x: Move)
    requires x.stamp == m.stamp && x != m
    ensures m in FirstOf([m] + rest) && x !in FirstOf([m] + rest)
    decreases |rest|
  {
    var moves := [m] + rest;
    if rest == [] {
      assert moves == [m] && moves[..|moves| - 1] == [];
      assert Arrived({}, []) == {};
      assert Arrived({}, moves) == {m};
    } else {
      var init := rest[..|rest| - 1];
      assert moves[..|moves| - 1] == [m] + init;
      FirstStays(m, init, x);
    }
  }

  lemma {:induction false} Listed(ms: set<Move>) returns (p: seq<Move>)
    ensures Elements(p) == ms
  {
    if ms == {} {
      p := [];
      assert Elements(p) == {};
    } else {
      var m :| m in ms;
      var rest := Listed(ms - {m});
      p := [m] + rest;
      assert Elements(p) == {m} + Elements(rest);
    }
  }

  /** Every order of a set of moves logs the same ones if and only if no stamp is shared. */
  lemma DedupIff(ms: set<Move>)
    ensures (forall p, q :: Elements(p) == ms && Elements(q) == ms ==> FirstOf(p) == FirstOf(q)) <==> StampsApart(ms)
  {
    hide Arrived, Elements;
    if StampsApart(ms) {
      forall p, q | Elements(p) == ms && Elements(q) == ms
        ensures FirstOf(p) == FirstOf(q)
      {
        AllArrive(p);
        AllArrive(q);
      }
    } else {
      SharedStampDiffers(ms);
    }
  }

  lemma SharedStampDiffers(ms: set<Move>)
    requires !StampsApart(ms)
    ensures exists p, q :: Elements(p) == ms && Elements(q) == ms && FirstOf(p) != FirstOf(q)
  {
    hide Arrived;
    var a, b :| a in ms && b in ms && a.stamp == b.stamp && a != b;
    var rest := Listed(ms);
    var p, q := [a] + rest, [b] + rest;
    FirstStays(a, rest, b);
    FirstStays(b, rest, a);
    assert Elements(p) == ms && Elements(q) == ms;
  }

  /** Two orders of a batch end with one log exactly when they agree on the first move of each
      stamp, and then with one forest; where no stamp is shared any two orders do. */
  method FoldBothWays(moves: seq<Move>, other: seq<Move>) returns (a: TreeMoves, b: TreeMoves)
    ensures Forest(a.tree) && Forest(b.tree)
    ensures MovesOf(a.log) == MovesOf(b.log) <==> FirstOf(moves) == FirstOf(other)
    ensures FirstOf(moves) == FirstOf(other) ==> a.tree == b.tree
    ensures Elements(moves) == Elements(other) && StampsApart(Elements(moves)) ==> a.tree == b.tree
  {
    hide Forest, Fold, Less, Remembers, Sorted, Arrived;
    a := new TreeMoves();
    b := new TreeMoves();
    assert Elements(MovesOf([])) == {};
    a.ApplyAll(moves);
    b.ApplyAll(other);
    BareForest(a.tree, MovesOf(a.log));
    BareForest(b.tree, MovesOf(b.log));
    if FirstOf(moves) == FirstOf(other) {
      SameElements(MovesOf(a.log), MovesOf(b.log));
      MovesDecide(a, b);
    }
    if Elements(moves) == Elements(other) && StampsApart(Elements(moves)) {
      AllArrive(moves);
      AllArrive(other);
    }
  }

  lemma SameElements(a: seq<Move>, b: seq<Move>)
    requires Elements(a) == Elements(b)
    ensures forall m :: m in a <==> m in b
  {
    forall m ensures m in a <==> m in b {
      assert m in a <==> m in Elements(a);
      assert m in b <==> m in Elements(b);
    }
  }

  lemma BareForest(tree: Parents, moves: seq<Move>)
    requires Forest(map[]) && tree == Fold(map[], moves)
    ensures Forest(tree)
  {
    hide Forest, Fold;
    FoldForest(map[], moves);
    assert Effective(map[], tree) == tree;
  }

  /** Two moves of one node under one stamp, fed in two orders: each log keeps the one that came
      first, and the node ends under two parents. */
  method DedupByArrival(stamp: Stamp, x: nat, y: nat, z: nat) returns (a: TreeMoves, b: TreeMoves)
    requires x != y && x != z && y != z
    ensures a.tree == map[x := y] && b.tree == map[x := z]
  {
    hide Less, Remembers, Sorted, Forest;
    var m, n := Move(stamp, x, y), Move(stamp, x, z);
    a := new TreeMoves();
    b := new TreeMoves();
    var added := a.Apply(m);
    added := a.Apply(n);
    added := b.Apply(n);
    added := b.Apply(m);
    OneMove(MovesOf(a.log), m);
    OneMove(MovesOf(b.log), n);
  }

  lemma OneMove(moves: seq<Move>, m: Move)
    requires Sorted(moves) && (forall x :: x in moves <==> x == m) && m.child != m.parent
    ensures Fold(map[], moves) == map[m.child := m.parent]
  {
    SortedUnique(moves, [m]);
    var none: Parents := map[];
    assert [m][..0] == [] && Effective(none, none) == none;
    forall k: nat | k >= 1 ensures Up(none, m.parent, k) != Some(m.child) {}
  }
}
