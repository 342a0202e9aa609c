/** Where rooted authority comes from, and what the settling phase does with a graph the
    iteration leaves oscillating. */
module Provenance {
  import opened Stamps
  import opened Collections
  import opened Acl
  import opened Authority

  // ---- every rooted record traces to the creator ----

  /** Record `c[0]`'s grantor owned its path through `c[1]`, whose grantor owned that path
      through `c[2]`, and so on up to a grant the creator made. */
  ghost predicate Chain(g: Graph, c: seq<nat>) {
    && g.Valid() && |c| > 0
    && (forall k :: 0 <= k < |c| ==> c[k] < |g.records| && g.resolved[c[k]].Some?)
    && (forall k :: 0 <= k < |c| - 1 ==> OwnAllow(g, c[k + 1], g.Grantor(c[k]), g.resolved[c[k]].value))
    && g.Grantor(c[|c| - 1]) == g.creator
  }

  ghost predicate Traces(g: Graph, i: nat) {
    exists c :: Chain(g, c) && c[0] == i
  }

  ghost predicate AllTraced(g: Graph, rooted: seq<bool>) {
    forall i: nat :: i < |rooted| && rooted[i] ==> Traces(g, i)
  }

  lemma ChainMore(g: Graph, i: nat, j: nat)
    requires g.Valid() && i < |g.records| && j < |g.records| && g.resolved[i].Some?
    requires OwnAllow(g, j, g.Grantor(i), g.resolved[i].value) && Traces(g, j)
    ensures Traces(g, i)
  {
    hide OwnAllow;
    var c :| Chain(g, c) && c[0] == j;
    var d := [i] + c;
    forall k | 0 <= k < |d| - 1
      ensures OwnAllow(g, d[k + 1], g.Grantor(d[k]), g.resolved[d[k]].value)
    {
      if k > 0 {
        assert d[k] == c[k - 1] && d[k + 1] == c[k];
      }
    }
    assert Chain(g, d) && d[0] == i;
  }

  lemma RootedTraces(g: Graph, s: Snapshot, i: nat)
    requires Fits(g, s) && AllTraced(g, s.rooted) && i < |g.records| && Roots(g, s, i)
    ensures Traces(g, i)
  {
    hide OwnAllow, Traces;
    if g.Grantor(i) == g.creator {
      ChainOne(g, i);
    } else {
      var j: nat :| j < |g.records| && OwnAllow(g, j, g.Grantor(i), g.resolved[i].value) && Live(s, j);
      ChainMore(g, i, j);
    }
  }

  lemma ChainOne(g: Graph, i: nat)
    requires g.Valid() && i < |g.records| && g.resolved[i].Some? && g.Grantor(i) == g.creator
    ensures Traces(g, i)
  {
    assert Chain(g, [i]);
  }

  lemma PassTraces(g: Graph, s: Snapshot)
    requires Fits(g, s) && AllTraced(g, s.rooted)
    ensures AllTraced(g, RootPass(g, s))
  {
    hide Roots, Traces;
    forall i: nat | i < |g.records| && RootPass(g, s)[i]
      ensures Traces(g, i)
    {
      RootedTraces(g, s, i);
    }
  }

  lemma {:induction false} IterateTraces(g: Graph, k: nat)
    requires g.Valid()
    ensures AllTraced(g, Iterate(g, k).rooted)
  {
    hide Traces, RootPass, RevokePass;
    if k > 0 {
      IterateTraces(g, k - 1);
      PassTraces(g, Iterate(g, k - 1));
    }
  }

  lemma {:induction false} SettleTraces(g: Graph, s: Snapshot, k: nat)
    requires Fits(g, s) && AllTraced(g, s.rooted)
    ensures AllTraced(g, Settle(g, s, k).rooted)
    decreases k
  {
    hide Traces, RootPass;
    if k > 0 {
      PassTraces(g, s);
      SettleTraces(g, Snapshot(RootPass(g, s), s.revoked), k - 1);
    }
  }

  /** Every record the evaluator treats as rooted traces to the creator, whether or not the
      iteration converged. */
  lemma SolutionTraces(g: Graph)
    requires g.Valid()
    ensures AllTraced(g, Solution(g).rooted)
  {
    hide AllTraced, RootPass, RevokePass, Iterate;
    IterateTraces(g, Bound(g));
    SettleTraces(g, Pin(g, Iterate(g, Bound(g))), |g.records| + 1);
  }

  /** Delegation only narrows: every grant up the chain governs the path at its foot. */
  lemma {:induction false} ChainAttenuates(g: Graph, c: seq<nat>, k: nat)
    requires Chain(g, c) && k < |c|
    ensures Governs(g.resolved[c[k]].value, g.resolved[c[0]].value)
  {
    if k > 0 {
      ChainAttenuates(g, c, k - 1);
      assert OwnAllow(g, c[k - 1 + 1], g.Grantor(c[k - 1]), g.resolved[c[k - 1]].value);
      PrefixTransitive(g.resolved[c[k]].value, g.resolved[c[k - 1]].value, g.resolved[c[0]].value);
    }
  }

  lemma PrefixTransitive(a: Path, b: Path, c: Path)
    requires a <= b && b <= c
    ensures a <= c
  {
  }

  /** Without a grant by the creator nothing is ever rooted. */
  lemma CyclesConferNothing(g: Graph, i: nat)
    requires g.Valid() && i < |g.records| && forall j: nat :: j < |g.records| ==> g.Grantor(j) != g.creator
    ensures !Solution(g).rooted[i]
  {
    SolutionTraces(g);
    if Traces(g, i) {
      TraceTop(g, i);
      assert false;
    }
  }

  lemma TraceTop(g: Graph, i: nat)
    requires g.Valid() && Traces(g, i)
    ensures exists j: nat :: j < |g.records| && g.Grantor(j) == g.creator
  {
    var c :| Chain(g, c) && c[0] == i;
    assert g.Grantor(c[|c| - 1]) == g.creator;
  }

  // ---- settling ----

  /** With the revokes held at `off`, record `i` stands if the Own grant `j` does. */
  ghost predicate Supports(g: Graph, off: seq<bool>, i: nat, j: nat)
    requires g.Valid() && |off| == |g.records| && i < |g.records| && j < |g.records|
  {
    g.resolved[i].Some? && g.Grantor(i) != g.creator && OwnAllow(g, j, g.Grantor(i), g.resolved[i].value) && !off[j]
  }

  ghost predicate Base(g: Graph, i: nat)
    requires g.Valid() && i < |g.records|
  {
    g.resolved[i].Some? && g.Grantor(i) == g.creator
  }

  /** The records the creator roots through at most `k` grants. */
  ghost function Ground(g: Graph, off: seq<bool>, k: nat): set<nat>
    requires g.Valid() && |off| == |g.records|
  {
    if k == 0 then {} else
    var below := Ground(g, off, k - 1);
    set i: nat | i < |g.records| &&
                 (Base(g, i) || exists j: nat :: j in below && j < |g.records| && Supports(g, off, i, j))
  }

  /** The least set rooting can settle on. */
  ghost function Standing(g: Graph, off: seq<bool>): set<nat>
    requires g.Valid() && |off| == |g.records|
  {
    Ground(g, off, |g.records|)
  }

  lemma {:induction false} GroundGrows(g: Graph, off: seq<bool>, k: nat)
    requires g.Valid() && |off| == |g.records|
    ensures Ground(g, off, k) <= Ground(g, off, k + 1)
  {
    hide Base, Supports;
    if k > 0 {
      GroundGrows(g, off, k - 1);
    }
  }

  lemma GroundBounded(g: Graph, off: seq<bool>, k: nat)
    requires g.Valid() && |off| == |g.records|
    ensures forall i: nat :: i in Ground(g, off, k) ==> i < |g.records|
    ensures |Ground(g, off, k)| <= |g.records|
  {
    Smaller(Ground(g, off, k), Below(|g.records|));
  }

  ghost function Below(n: nat): (r: set<nat>)
    ensures |r| == n && forall i: nat :: i in r <==> i < n
  {
    if n == 0 then {} else Below(n - 1) + {n - 1}
  }

  /** The stages grow strictly until they stop, and so stop within as many as records. */
  lemma {:induction false} GroundStops(g: Graph, off: seq<bool>, k: nat)
    requires g.Valid() && |off| == |g.records|
    ensures |Ground(g, off, k)| >= k || Ground(g, off, k) == Ground(g, off, k + 1)
  {
    hide Base, Supports;
    if k > 0 {
      GroundStops(g, off, k - 1);
      GroundGrows(g, off, k - 1);
      Smaller(Ground(g, off, k - 1), Ground(g, off, k));
    }
  }

  /** What the stages reach is closed: supporting a standing record is standing. */
  lemma StandingClosed(g: Graph, off: seq<bool>)
    requires g.Valid() && |off| == |g.records|
    ensures Ground(g, off, |g.records| + 1) == Standing(g, off)
  {
    hide Base, Supports, Ground;
    var n := |g.records|;
    GroundStops(g, off, n);
    GroundGrows(g, off, n);
    GroundBounded(g, off, n + 1);
    Smaller(Ground(g, off, n), Ground(g, off, n + 1));
  }

  lemma StandingStep(g: Graph, off: seq<bool>, i: nat, j: nat)
    requires g.Valid() && |off| == |g.records| && i < |g.records| && j < |g.records|
    ensures Base(g, i) ==> i in Standing(g, off)
    ensures j in Standing(g, off) && Supports(g, off, i, j) ==> i in Standing(g, off)
  {
    hide Base, Supports;
    StandingClosed(g, off);
  }

  /** A root pass grounds a record, or carries one from a grant it supports. */
  lemma RootsEither(g: Graph, s: Snapshot, i: nat)
    requires Fits(g, s) && i < |g.records|
    ensures Roots(g, s, i) <==>
              Base(g, i) || exists j: nat :: j < |g.records| && Supports(g, s.revoked, i, j) && s.rooted[j]
  {
    hide OwnAllow;
    if Roots(g, s, i) && g.Grantor(i) != g.creator {
      var j: nat :| j < |g.records| && OwnAllow(g, j, g.Grantor(i), g.resolved[i].value) && Live(s, j);
      assert Supports(g, s.revoked, i, j);
    }
    if j: nat :| j < |g.records| && Supports(g, s.revoked, i, j) && s.rooted[j] {
      assert OwnAllow(g, j, g.Grantor(i), g.resolved[i].value) && Live(s, j);
    }
  }

  ghost function Rooted(s: Snapshot): set<nat> {
    set i: nat | i < |s.rooted| && s.rooted[i]
  }

  /** Settling never loses what the creator roots. */
  lemma {:induction false} SettleGrounds(g: Graph, s: Snapshot, m: nat, k: nat)
    requires Fits(g, s) && Ground(g, s.revoked, m) <= Rooted(s)
    ensures Ground(g, s.revoked, m + k) <= Rooted(Settle(g, s, k))
    decreases k
  {
    hide Base, Supports, RootPass, Roots;
    if k > 0 {
      var t := Snapshot(RootPass(g, s), s.revoked);
      forall i: nat | i in Ground(g, s.revoked, m + 1)
        ensures i in Rooted(t)
      {
        RootsEither(g, s, i);
      }
      SettleGrounds(g, t, m + 1, k - 1);
    }
  }

  /** A granting step between two records the creator does not root. */
  ghost function Adrift(g: Graph, off: seq<bool>): (nat, nat) -> bool
    requires g.Valid() && |off| == |g.records|
  {
    (i: nat, j: nat) => i < |g.records| && j < |g.records| && Supports(g, off, i, j) &&
                        i !in Standing(g, off) && j !in Standing(g, off)
  }

  /** A walk of `k` adrift grants from `i`, which the creator does not root, ends at a record
      the snapshot roots. */
  ghost predicate Ends(g: Graph, s: Snapshot, k: nat, i: nat)
    requires Fits(g, s)
  {
    i !in Standing(g, s.revoked) && exists w :: EndsBy(g, s, k, i, w)
  }

  ghost predicate EndsBy(g: Graph, s: Snapshot, k: nat, i: nat, w: seq<nat>)
    requires Fits(g, s)
  {
    |w| == k + 1 && Walk(|g.records|, Adrift(g, s.revoked), w) && w[0] == i && s.rooted[w[k]]
  }

  /** The records that adrift walks of `k` grants lead from to ones the snapshot roots. */
  ghost function Reached(g: Graph, s: Snapshot, k: nat): set<nat>
    requires Fits(g, s)
  {
    set i: nat | i < |g.records| && Ends(g, s, k, i)
  }

  /** A record settling still roots, though the creator does not, begins a walk of adrift
      grants as long as the settling, to a record rooted at its start. */
  lemma {:induction false} AdriftWalk(g: Graph, s: Snapshot, k: nat, i: nat) returns (w: seq<nat>)
    requires Fits(g, s) && i < |g.records| && Settle(g, s, k).rooted[i] && i !in Standing(g, s.revoked)
    ensures EndsBy(g, s, k, i, w)
    decreases k
  {
    hide Supports, Base, RootPass, Roots, Standing;
    if k == 0 {
      w := [i];
    } else {
      SettleLast(g, s, k);
      var t := Settle(g, s, k - 1);
      RootsEither(g, t, i);
      StandingStep(g, s.revoked, i, i);
      var j: nat :| j < |g.records| && Supports(g, s.revoked, i, j) && t.rooted[j];
      StandingStep(g, s.revoked, i, j);
      var rest := AdriftWalk(g, s, k - 1, j);
      w := [i] + rest;
    }
  }

  /** And such a walk carries the rooting back to its beginning. */
  lemma {:induction false} WalkRoots(g: Graph, s: Snapshot, k: nat, i: nat, w: seq<nat>)
    requires Fits(g, s) && EndsBy(g, s, k, i, w)
    ensures i < |g.records| && Settle(g, s, k).rooted[i]
    decreases k
  {
    hide Supports, Base, RootPass, Roots, Standing;
    if k > 0 {
      var tail := w[1..];
      assert Adrift(g, s.revoked)(w[0], w[0 + 1]);
      forall a | 0 <= a < |tail| - 1
        ensures Adrift(g, s.revoked)(tail[a], tail[a + 1])
      {
        assert Adrift(g, s.revoked)(w[a + 1], w[a + 1 + 1]);
      }
      WalkRoots(g, s, k - 1, w[1], tail);
      SettleLast(g, s, k);
      RootsEither(g, Settle(g, s, k - 1), i);
    }
  }

  /** Outside what the creator roots, settling roots exactly what such walks reach. */
  lemma EndsIff(g: Graph, s: Snapshot, k: nat, i: nat)
    requires Fits(g, s) && i < |g.records| && i !in Standing(g, s.revoked)
    ensures Settle(g, s, k).rooted[i] <==> Ends(g, s, k, i)
  {
    hide Settle, Standing, EndsBy;
    if Settle(g, s, k).rooted[i] {
      var w := AdriftWalk(g, s, k, i);
    }
    if w :| EndsBy(g, s, k, i, w) {
      WalkRoots(g, s, k, i, w);
    }
  }

  lemma {:induction false} SettleLast(g: Graph, s: Snapshot, k: nat)
    requires Fits(g, s) && k > 0
    ensures Settle(g, s, k) == Snapshot(RootPass(g, Settle(g, s, k - 1)), s.revoked)
    decreases k
  {
    hide RootPass;
    if k > 1 {
      SettleLast(g, Snapshot(RootPass(g, s), s.revoked), k - 1);
    }
  }

  /** Settling from `s` reaches exactly what the creator roots. */
  ghost predicate SettlesWell(g: Graph, s: Snapshot)
    requires Fits(g, s)
  {
    Rooted(Settle(g, s, |g.records| + 1)) == Standing(g, s.revoked)
  }

  /** Past as many passes as records, settling roots all the creator does. */
  lemma StandingRooted(g: Graph, s: Snapshot, k: nat, i: nat)
    requires Fits(g, s) && k >= |g.records| && i in Standing(g, s.revoked)
    ensures i < |g.records| && Settle(g, s, k).rooted[i]
  {
    hide Settle, Supports, Base, Ground;
    var off := s.revoked;
    GroundZero(g, off);
    SettleGrounds(g, s, 0, k);
    GroundAll(g, off, k);
  }

  lemma {:induction false} GroundAll(g: Graph, off: seq<bool>, k: nat)
    requires g.Valid() && |off| == |g.records| && k >= |g.records|
    ensures Standing(g, off) <= Ground(g, off, k)
    decreases k
  {
    hide Base, Supports, Ground;
    if k > |g.records| {
      GroundAll(g, off, k - 1);
      GroundGrows(g, off, k - 1);
    }
  }

  /** From a snapshot, settling reaches exactly what the creator roots if and only if no adrift
      walk as long as the settling ends at a record the snapshot roots. */
  lemma SettlesWellIff(g: Graph, s: Snapshot)
    requires Fits(g, s)
    ensures SettlesWell(g, s) <==> Reached(g, s, |g.records| + 1) == {}
  {
    hide Settle, Standing, EndsBy;
    var k := |g.records| + 1;
    var end := Settle(g, s, k);
    forall i: nat | i < |g.records|
      ensures i in Standing(g, s.revoked) ==> end.rooted[i]
      ensures i !in Standing(g, s.revoked) ==> (end.rooted[i] <==> Ends(g, s, k, i))
      ensures Ends(g, s, k, i) ==> i !in Standing(g, s.revoked)
    {
      if i in Standing(g, s.revoked) {
        StandingRooted(g, s, k, i);
      } else {
        EndsIff(g, s, k, i);
      }
    }
    StandingBelow(g, s.revoked);
    assert Reached(g, s, k) == Rooted(end) - Standing(g, s.revoked);
    assert Standing(g, s.revoked) <= Rooted(end);
    SplitEmpty(Rooted(end), Standing(g, s.revoked));
  }

  lemma SplitEmpty<T>(a: set<T>, b: set<T>)
    requires b <= a
    ensures a - b == {} <==> a == b
  {
    forall x | x in a
      ensures x in b || x in a - b
    {
    }
  }

  lemma StandingBelow(g: Graph, off: seq<bool>)
    requires g.Valid() && |off| == |g.records|
    ensures forall i: nat :: i in Standing(g, off) ==> i < |g.records|
  {
    hide Ground;
    GroundBounded(g, off, |g.records|);
  }

  /** One pass more would change nothing. */
  ghost predicate Stops(g: Graph, s: Snapshot)
    requires Fits(g, s)
  {
    Settle(g, s, |g.records| + 2) == Settle(g, s, |g.records| + 1)
  }

  /** The adrift walks one step longer reach the same records. */
  ghost predicate EvenEnds(g: Graph, s: Snapshot)
    requires Fits(g, s)
  {
    Reached(g, s, |g.records| + 1) == Reached(g, s, |g.records| + 2)
  }

  /** From a snapshot, settling has stopped by its last pass if and only if the records adrift
      walks reach from rooted ones do not depend on one step more. */
  lemma StopsIff(g: Graph, s: Snapshot)
    requires Fits(g, s)
    ensures Stops(g, s) <==> EvenEnds(g, s)
  {
    hide Settle, Standing, EndsBy;
    var k := |g.records| + 1;
    var a, b := Settle(g, s, k), Settle(g, s, k + 1);
    forall i: nat | i < |g.records|
      ensures i in Standing(g, s.revoked) ==> a.rooted[i] && b.rooted[i]
      ensures i !in Standing(g, s.revoked) ==>
                (a.rooted[i] <==> Ends(g, s, k, i)) && (b.rooted[i] <==> Ends(g, s, k + 1, i))
      ensures i in Standing(g, s.revoked) ==> !Ends(g, s, k, i) && !Ends(g, s, k + 1, i)
    {
      if i in Standing(g, s.revoked) {
        StandingRooted(g, s, k, i);
        StandingRooted(g, s, k + 1, i);
      } else {
        EndsIff(g, s, k, i);
        EndsIff(g, s, k + 1, i);
      }
    }
    if EvenEnds(g, s) {
      forall i: nat | i < |g.records|
        ensures a.rooted[i] == b.rooted[i]
      {
        assert i in Reached(g, s, k) <==> i in Reached(g, s, k + 1);
      }
      assert a.rooted == b.rooted;
    }
  }

  /** The snapshot the evaluator settles from. */
  ghost function Pinned(g: Graph): (s: Snapshot)
    requires g.Valid()
    ensures Fits(g, s)
  {
    Pin(g, Iterate(g, Bound(g)))
  }

  /** What is decided on does not depend on the pass count if and only if the adrift walks from
      the pinned snapshot do not depend on one step more. */
  lemma PassCountIff(g: Graph)
    requires g.Valid()
    ensures (forall k: nat :: k > |g.records| ==> Settle(g, Pinned(g), k) == Solution(g)) <==> EvenEnds(g, Pinned(g))
  {
    hide Pinned, EvenEnds, Settle;
    var n, s := |g.records|, Pinned(g);
    assert Solution(g) == Settle(g, s, n + 1) by { SolutionSettles(g); }
    StopsIff(g, s);
    var next := n + 2;
    assert next > n && (Settle(g, s, next) == Solution(g) <==> Stops(g, s));
    if Stops(g, s) {
      forall k: nat | k > n
        ensures Settle(g, s, k) == Settle(g, s, n + 1)
      {
        StopsForGood(g, s, k);
      }
    }
  }

  lemma SolutionSettles(g: Graph)
    requires g.Valid()
    ensures Solution(g) == Settle(g, Pinned(g), |g.records| + 1)
  {
  }

  lemma {:induction false} StopsForGood(g: Graph, s: Snapshot, k: nat)
    requires Fits(g, s) && Stops(g, s) && k > |g.records|
    ensures Settle(g, s, k) == Settle(g, s, |g.records| + 1)
    decreases k
  {
    hide Settle, RootPass;
    if k > |g.records| + 1 {
      StopsForGood(g, s, k - 1);
      SettleLast(g, s, k);
      SettleLast(g, s, |g.records| + 2);
    }
  }

  /** What is decided on is what the creator roots if and only if no adrift walk from the pinned
      snapshot is as long as the settling. */
  lemma SolutionStandsIff(g: Graph)
    requires g.Valid()
    ensures Rooted(Solution(g)) == Standing(g, Solution(g).revoked) <==>
            Reached(g, Pinned(g), |g.records| + 1) == {}
  {
    hide Pinned, Settle, Standing, Ends;
    SolutionSettles(g);
    SettlesWellIff(g, Pinned(g));
  }

  lemma AcyclicSettles(g: Graph, s: Snapshot)
    requires Fits(g, s) && Acyclic(|g.records|, Adrift(g, s.revoked))
    ensures SettlesWell(g, s)
  {
    hide Acyclic, Adrift, Settle, SettlesWell, Standing;
    var n, k := |g.records|, |g.records| + 1;
    forall i: nat | i < n
      ensures !Ends(g, s, k, i)
    {
      if w :| EndsBy(g, s, k, i, w) {
        LongWalkCloses(n, Adrift(g, s.revoked), w);
        assert false;
      }
    }
    assert Reached(g, s, k) == {};
    SettlesWellIff(g, s);
  }

  lemma GroundZero(g: Graph, off: seq<bool>)
    requires g.Valid() && |off| == |g.records|
    ensures Ground(g, off, 0) == {}
  {
  }

  /** A closed walk of adrift grants holds itself up from the snapshot that roots it. */
  lemma {:induction false} CycleHolds(g: Graph, s: Snapshot, w: seq<nat>, k: nat)
    requires Fits(g, s) && |w| >= 2 && w[0] == w[|w| - 1] && Walk(|g.records|, Adrift(g, s.revoked), w)
    requires forall a :: 0 <= a < |w| ==> s.rooted[w[a]]
    ensures Settle(g, s, k).rooted[w[0]]
    decreases k
  {
    hide Supports, Base, RootPass, Roots, Standing;
    if k > 0 {
      var t := Snapshot(RootPass(g, s), s.revoked);
      forall a | 0 <= a < |w|
        ensures t.rooted[w[a]]
      {
        var b := if a == |w| - 1 then 0 else a;
        assert Adrift(g, s.revoked)(w[b], w[b + 1]);
        RootsEither(g, s, w[b]);
      }
      CycleHolds(g, t, w, k - 1);
    }
  }

  ghost function On(g: Graph, w: seq<nat>, off: seq<bool>): (s: Snapshot)
    requires g.Valid() && |off| == |g.records|
    ensures Fits(g, s) && s.revoked == off
  {
    Snapshot(seq(|g.records|, i => i in w), off)
  }

  /** Settling reaches what the creator roots from every snapshot exactly when no adrift
      grants form a cycle. */
  lemma SettlesIff(g: Graph, off: seq<bool>)
    requires g.Valid() && |off| == |g.records|
    ensures (forall s :: Fits(g, s) && s.revoked == off ==> SettlesWell(g, s)) <==> Acyclic(|g.records|, Adrift(g, off))
  {
    hide Adrift, Settle, Supports, Base, Ground, SettlesWell, Acyclic;
    if Acyclic(|g.records|, Adrift(g, off)) {
      forall s | Fits(g, s) && s.revoked == off
        ensures SettlesWell(g, s)
      {
        AcyclicSettles(g, s);
      }
    } else {
      CycleUnsettles(g, off);
    }
  }

  lemma CycleUnsettles(g: Graph, off: seq<bool>)
    requires g.Valid() && |off| == |g.records| && !Acyclic(|g.records|, Adrift(g, off))
    ensures exists s :: Fits(g, s) && s.revoked == off && !SettlesWell(g, s)
  {
    hide Settle, Supports, Base, Ground, Adrift;
    var w :| Walk(|g.records|, Adrift(g, off), w) && |w| >= 2 && w[0] == w[|w| - 1];
    var s := On(g, w, off);
    CycleHolds(g, s, w, |g.records| + 1);
    AdriftEnds(g, off, w[0], w[1]);
    assert w[0] in Rooted(Settle(g, s, |g.records| + 1));
    assert !SettlesWell(g, s);
  }

  lemma AdriftEnds(g: Graph, off: seq<bool>, i: nat, j: nat)
    requires g.Valid() && |off| == |g.records| && Adrift(g, off)(i, j)
    ensures i !in Standing(g, off)
  {
  }

  /** A cycle is not enough for settling to go on: a record its own grantee granted is held up
      or left as it is by every pass. */
  lemma SelfGrantStops(creator: nat, who: nat, s: Snapshot)
    requires who != creator && |s.rooted| == 1 && s.revoked == [false]
    ensures var g := Graph([Record(Tuple(0, Actor(who), Direct(Own), Allow, At([]), who), [])], [Some([])], creator);
            && Fits(g, s) && !Acyclic(1, Adrift(g, [false])) && RootPass(g, s) == s.rooted && Stops(g, s)
  {
    var g := Graph([Record(Tuple(0, Actor(who), Direct(Own), Allow, At([]), who), [])], [Some([])], creator);
    assert OwnAllow(g, 0, who, []);
    assert OwnsPath(g, s, who, []) <==> s.rooted[0];
    assert RootPass(g, s) == s.rooted;
    SettleFixed(g, s, 2);
    SettleFixed(g, s, 3);
    assert !Base(g, 0) && Supports(g, [false], 0, 0);
    assert Ground(g, [false], 0) == {};
    assert 0 !in Ground(g, [false], 1);
    assert Standing(g, [false]) == Ground(g, [false], 1);
    assert Adrift(g, [false])(0, 0);
    assert Walk(1, Adrift(g, [false]), [0, 0]);
  }
}
