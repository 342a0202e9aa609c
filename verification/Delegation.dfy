/** Who stands above whom in the delegation, and the authority-aware decision. */
module Delegation {
  import opened Stamps
  import opened Collections
  import opened Acl
  import opened Authority
  import opened Provenance

  // ---- the walk up the grantors ----

  /** A standing Own grant over `path` was made to `who` by `up`. */
  ghost predicate Lift(g: Graph, s: Snapshot, path: Path, who: nat, up: nat)
    requires Fits(g, s)
  {
    exists i: nat :: i < |g.records| && OwnAllow(g, i, who, path) && Live(s, i) && g.Grantor(i) == up
  }

  /** Actors each delegated to by the next. */
  ghost predicate Ladder(g: Graph, s: Snapshot, path: Path, w: seq<nat>)
    requires Fits(g, s)
  {
    |w| > 0 && forall k :: 0 <= k < |w| - 1 ==> Lift(g, s, path, w[k], w[k + 1])
  }

  ghost predicate Reaches(g: Graph, s: Snapshot, path: Path, from: nat, to: nat)
    requires Fits(g, s)
  {
    exists w :: Ladder(g, s, path, w) && w[0] == from && w[|w| - 1] == to
  }

  /** The authority a deny needs over a grant made by `grantor`. */
  ghost predicate AtOrAbove(g: Graph, s: Snapshot, author: nat, grantor: nat, path: Path)
    requires Fits(g, s)
  {
    author == g.creator || Reaches(g, s, path, grantor, author)
  }

  lemma ReachSelf(g: Graph, s: Snapshot, path: Path, who: nat)
    requires Fits(g, s)
    ensures Reaches(g, s, path, who, who)
  {
    assert Ladder(g, s, path, [who]);
  }

  lemma ReachMore(g: Graph, s: Snapshot, path: Path, from: nat, who: nat, up: nat)
    requires Fits(g, s) && Reaches(g, s, path, from, who) && Lift(g, s, path, who, up)
    ensures Reaches(g, s, path, from, up)
  {
    hide Lift;
    var w :| Ladder(g, s, path, w) && w[0] == from && w[|w| - 1] == who;
    assert Ladder(g, s, path, w + [up]);
  }

  /** What a set closed under lifting holds, it reaches, and no more. */
  lemma {:induction false} ClosedLadder(g: Graph, s: Snapshot, path: Path, closed: seq<nat>, w: seq<nat>, k: nat)
    requires Fits(g, s) && Ladder(g, s, path, w) && w[0] in closed && k < |w|
    requires forall who, up :: who in closed && Lift(g, s, path, who, up) ==> up in closed
    ensures w[k] in closed
  {
    hide Lift;
    if k > 0 {
      ClosedLadder(g, s, path, closed, w, k - 1);
      assert Lift(g, s, path, w[k - 1], w[k - 1 + 1]);
    }
  }

  lemma ClosedReach(g: Graph, s: Snapshot, path: Path, closed: seq<nat>, from: nat, to: nat)
    requires Fits(g, s) && from in closed && Reaches(g, s, path, from, to)
    requires forall who, up :: who in closed && Lift(g, s, path, who, up) ==> up in closed
    ensures to in closed
  {
    hide Lift;
    var w :| Ladder(g, s, path, w) && w[0] == from && w[|w| - 1] == to;
    ClosedLadder(g, s, path, closed, w, |w| - 1);
  }

  /** Each actor met is the one started from or some record's grantor. */
  ghost predicate Met(g: Graph, start: nat, seen: seq<nat>) {
    forall x :: x in seen ==> x == start || exists i: nat :: i < |g.records| && g.Grantor(i) == x
  }

  lemma MetBounded(g: Graph, start: nat, seen: seq<nat>)
    requires Distinct(seen) && Met(g, start, seen)
    ensures |seen| <= |g.records| + 1
  {
    var names := seq(|g.records|, i requires 0 <= i < |g.records| => g.Grantor(i)) + [start];
    forall x | x in seen ensures x in names {
      if x == start {
        assert names[|g.records|] == x;
      } else {
        var i: nat :| i < |g.records| && g.Grantor(i) == x;
        assert names[i] == x;
      }
    }
    DistinctWithin(seen, names);
  }

  /** Everything in the first `f` actors of the frontier has been lifted, and everything in
      `seen` is reachable from `start`. */
  ghost predicate Sweep(g: Graph, s: Snapshot, path: Path, start: nat, author: nat, seen: seq<nat>, done: seq<nat>)
    requires Fits(g, s)
  {
    && Distinct(seen) && Met(g, start, seen) && start in seen && author !in seen
    && (forall x :: x in seen ==> Reaches(g, s, path, start, x))
    && (forall who, up :: who in done && Lift(g, s, path, who, up) ==> up in seen)
  }

  /** Lift one actor: everyone who delegated to it joins `seen`, or `author` is met. */
  method LiftOne(g: Graph, s: Snapshot, path: Path, ghost start: nat, author: nat, who: nat,
                 seen: seq<nat>, next: seq<nat>, ghost done: seq<nat>)
    returns (found: bool, seen': seq<nat>, next': seq<nat>)
    requires Fits(g, s) && Sweep(g, s, path, start, author, seen, done) && who in seen
    ensures found ==> Reaches(g, s, path, start, author)
    ensures !found ==> Sweep(g, s, path, start, author, seen', done + [who])
    ensures !found ==> exists more :: seen' == seen + more && next' == next + more
  {
    hide OwnAllow, Lift, Distinct, Met, Reaches;
    seen', next' := seen, next;
    ghost var more: seq<nat> := [];
    assert seen' == seen + more && next' == next + more;
    var i: nat := 0;
    while i < |g.records|
      invariant 0 <= i <= |g.records|
      invariant Sweep(g, s, path, start, author, seen', done)
      invariant seen' == seen + more && next' == next + more
      invariant forall j: nat :: j < i && OwnAllow(g, j, who, path) && Live(s, j) ==> g.Grantor(j) in seen'
    {
      if OwnAllow(g, i, who, path) && Live(s, i) {
        var up := g.Grantor(i);
        LiftBy(g, s, path, start, who, i);
        if up == author {
          return true, seen', next';
        }
        if up !in seen' {
          JoinSeen(g, start, seen', i);
          more := more + [up];
          seen', next' := seen' + [up], next' + [up];
        }
      }
      i := i + 1;
    }
    LiftedAll(g, s, path, who, seen');
    found := false;
  }

  lemma LiftBy(g: Graph, s: Snapshot, path: Path, start: nat, who: nat, i: nat)
    requires Fits(g, s) && i < |g.records| && OwnAllow(g, i, who, path) && Live(s, i) && Reaches(g, s, path, start, who)
    ensures Reaches(g, s, path, start, g.Grantor(i))
  {
    hide Reaches;
    assert Lift(g, s, path, who, g.Grantor(i));
    ReachMore(g, s, path, start, who, g.Grantor(i));
  }

  lemma JoinSeen(g: Graph, start: nat, seen: seq<nat>, i: nat)
    requires i < |g.records| && Distinct(seen) && Met(g, start, seen) && g.Grantor(i) !in seen
    ensures Distinct(seen + [g.Grantor(i)]) && Met(g, start, seen + [g.Grantor(i)])
  {
  }

  lemma LiftedAll(g: Graph, s: Snapshot, path: Path, who: nat, seen: seq<nat>)
    requires Fits(g, s)
    requires forall j: nat :: j < |g.records| && OwnAllow(g, j, who, path) && Live(s, j) ==> g.Grantor(j) in seen
    ensures forall up :: Lift(g, s, path, who, up) ==> up in seen
  {
  }

  /** One round: lift every actor of the frontier. */
  method LiftFrontier(g: Graph, s: Snapshot, path: Path, ghost start: nat, author: nat, frontier: seq<nat>,
                      seen: seq<nat>, ghost done: seq<nat>) returns (found: bool, seen': seq<nat>, next: seq<nat>)
    requires Fits(g, s) && Sweep(g, s, path, start, author, seen, done) && forall x :: x in frontier ==> x in seen
    ensures found ==> Reaches(g, s, path, start, author)
    ensures !found ==> Sweep(g, s, path, start, author, seen', done + frontier) && seen' == seen + next
  {
    hide Sweep, Reaches;
    seen', next := seen, [];
    var f := 0;
    assert done + frontier[..0] == done;
    while f < |frontier|
      invariant 0 <= f <= |frontier| && seen' == seen + next
      invariant Sweep(g, s, path, start, author, seen', done + frontier[..f])
    {
      found, seen', next := LiftOne(g, s, path, start, author, frontier[f], seen', next, done + frontier[..f]);
      if found {
        return;
      }
      assert done + frontier[..f + 1] == done + frontier[..f] + [frontier[f]];
      f := f + 1;
    }
    assert done + frontier[..f] == done + frontier;
    found := false;
  }

  /** Whether `author` is at or above `grantor`: the creator, the grantor itself, or reached
      by walking up the standing delegations of `path` a frontier at a time. */
  method IsAtOrAbove(g: Graph, s: Snapshot, author: nat, grantor: nat, path: Path) returns (above: bool)
    requires Fits(g, s)
    ensures above == AtOrAbove(g, s, author, grantor, path)
  {
    hide Sweep, Reaches, Lift, Distinct, Met;
    ReachSelf(g, s, path, grantor);
    if author == g.creator || author == grantor {
      return true;
    }
    var seen, frontier := [grantor], [grantor];
    ghost var done: seq<nat> := [];
    SweepStart(g, s, path, grantor, author);
    assert done + frontier == seen;
    var round := 0;
    while round <= |g.records| && frontier != []
      invariant 0 <= round <= |g.records| + 1
      invariant Sweep(g, s, path, grantor, author, seen, done) && done + frontier == seen
      invariant frontier != [] ==> |seen| >= round + 1
    {
      var found, seen', next := LiftFrontier(g, s, path, grantor, author, frontier, seen, done);
      if found {
        return true;
      }
      done := done + frontier;
      seen, frontier := seen', next;
      round := round + 1;
    }
    SweepBounded(g, s, path, grantor, author, seen, done);
    assert frontier == [] && done == seen;
    SweepEnd(g, s, path, grantor, author, seen);
    return false;
  }

  lemma SweepStart(g: Graph, s: Snapshot, path: Path, start: nat, author: nat)
    requires Fits(g, s) && author != start
    ensures Sweep(g, s, path, start, author, [start], [])
  {
    hide Reaches;
    ReachSelf(g, s, path, start);
  }

  lemma SweepBounded(g: Graph, s: Snapshot, path: Path, start: nat, author: nat, seen: seq<nat>, done: seq<nat>)
    requires Fits(g, s) && Sweep(g, s, path, start, author, seen, done)
    ensures |seen| <= |g.records| + 1
  {
    hide Reaches, Lift;
    MetBounded(g, start, seen);
  }

  lemma SweepEnd(g: Graph, s: Snapshot, path: Path, start: nat, author: nat, seen: seq<nat>)
    requires Fits(g, s) && Sweep(g, s, path, start, author, seen, seen)
    ensures !Reaches(g, s, path, start, author)
  {
    hide Reaches, Lift;
    if Reaches(g, s, path, start, author) {
      ClosedReach(g, s, path, seen, start, author);
      assert false;
    }
  }
}
