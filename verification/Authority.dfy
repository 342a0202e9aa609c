/** Which grants stand: rooting and revocation, each recursive through the other, solved by
    a bounded iteration from nothing. */
module Authority {
  import opened Stamps
  import opened Acl

  /** A stored tuple and the actors that have revoked it. */
  datatype Record = Record(tuple: Tuple, revokedBy: seq<nat>)

  /** The records, each one's current path, and the actor that owns the root. */
  datatype Graph = Graph(records: seq<Record>, resolved: seq<Option<Path>>, creator: nat) {
    predicate Valid() { |resolved| == |records| }

    function Grantor(i: nat): nat
      requires i < |records|
    {
      records[i].tuple.grantor
    }
  }

  /** Which records are rooted, and which effectively revoked. */
  datatype Snapshot = Snapshot(rooted: seq<bool>, revoked: seq<bool>)

  predicate Fits(g: Graph, s: Snapshot) {
    g.Valid() && |s.rooted| == |g.records| && |s.revoked| == |g.records|
  }

  /** Record `j` allows `who` ownership of a path that governs `target`. Only an actor-id
      grant counts: membership of a group or class is not known here. */
  predicate OwnAllow(g: Graph, j: nat, who: nat, target: Path)
    requires g.Valid() && j < |g.records|
  {
    var t := g.records[j].tuple;
    t.subject == Actor(who) && t.grant == Direct(Own) && t.effect == Allow &&
    g.resolved[j].Some? && Governs(g.resolved[j].value, target)
  }

  predicate Live(s: Snapshot, j: nat)
    requires j < |s.rooted| && j < |s.revoked|
  {
    s.rooted[j] && !s.revoked[j]
  }

  /** The creator owns everything; anyone else owns through a rooted, unrevoked grant. */
  predicate OwnsPath(g: Graph, s: Snapshot, who: nat, target: Path)
    requires Fits(g, s)
  {
    who == g.creator || exists j | 0 <= j < |g.records| :: OwnAllow(g, j, who, target) && Live(s, j)
  }

  predicate Roots(g: Graph, s: Snapshot, i: nat)
    requires Fits(g, s) && i < |g.records|
  {
    g.resolved[i].Some? && OwnsPath(g, s, g.Grantor(i), g.resolved[i].value)
  }

  predicate Revokes(g: Graph, s: Snapshot, i: nat)
    requires Fits(g, s) && i < |g.records|
  {
    exists who | who in g.records[i].revokedBy ::
      who == g.creator || who == g.Grantor(i) || (g.resolved[i].Some? && OwnsPath(g, s, who, g.resolved[i].value))
  }

  function RootPass(g: Graph, s: Snapshot): (r: seq<bool>)
    requires Fits(g, s)
    ensures |r| == |g.records| && forall i: nat :: i < |r| ==> r[i] == Roots(g, s, i)
  {
    seq(|g.records|, i requires 0 <= i < |g.records| => Roots(g, s, i))
  }

  function RevokePass(g: Graph, s: Snapshot): (r: seq<bool>)
    requires Fits(g, s)
    ensures |r| == |g.records| && forall i: nat :: i < |r| ==> r[i] == Revokes(g, s, i)
  {
    seq(|g.records|, i requires 0 <= i < |g.records| => Revokes(g, s, i))
  }

  /** One synchronous pass: both relations from the previous snapshot. */
  function Pass(g: Graph, s: Snapshot): (r: Snapshot)
    requires Fits(g, s)
    ensures Fits(g, r)
  {
    Snapshot(RootPass(g, s), RevokePass(g, s))
  }

  function Nothing(g: Graph): (s: Snapshot)
    requires g.Valid()
    ensures Fits(g, s)
  {
    Snapshot(seq(|g.records|, i => false), seq(|g.records|, i => false))
  }

  ghost function Iterate(g: Graph, k: nat): (s: Snapshot)
    requires g.Valid()
    ensures Fits(g, s)
  {
    if k == 0 then Nothing(g) else Pass(g, Iterate(g, k - 1))
  }

  /** A revoke the next pass would change is disregarded. */
  function Pin(g: Graph, s: Snapshot): (r: Snapshot)
    requires Fits(g, s)
    ensures Fits(g, r)
  {
    var flux := RevokePass(g, s);
    Snapshot(s.rooted, seq(|g.records|, i requires 0 <= i < |g.records| => s.revoked[i] && flux[i]))
  }

  /** Rooting alone, with the revokes held where they are. */
  ghost function Settle(g: Graph, s: Snapshot, k: nat): (r: Snapshot)
    requires Fits(g, s)
    ensures Fits(g, r) && r.revoked == s.revoked
    decreases k
  {
    if k == 0 then s else Settle(g, Snapshot(RootPass(g, s), s.revoked), k - 1)
  }

  function Bound(g: Graph): nat {
    2 * |g.records| + 2
  }

  /** What the evaluator decides on: the bounded iteration, revokes in flux pinned off, and
      rooting settled. */
  ghost function Solution(g: Graph): (s: Snapshot)
    requires g.Valid()
    ensures Fits(g, s)
  {
    Settle(g, Pin(g, Iterate(g, Bound(g))), |g.records| + 1)
  }

  // ---- the loops ----

  ghost predicate Fixed(g: Graph, s: Snapshot)
    requires Fits(g, s)
  {
    Pass(g, s) == s
  }

  lemma {:induction false} FixedStays(g: Graph, k: nat, m: nat)
    requires g.Valid() && Fixed(g, Iterate(g, k)) && k <= m
    ensures Iterate(g, m) == Iterate(g, k)
    decreases m - k
  {
    hide Pass;
    if k < m {
      FixedStays(g, k, m - 1);
    }
  }

  lemma PinFixed(g: Graph, s: Snapshot)
    requires Fits(g, s) && Fixed(g, s)
    ensures Pin(g, s) == s
  {
  }

  lemma {:induction false} SettleFixed(g: Graph, s: Snapshot, k: nat)
    requires Fits(g, s) && RootPass(g, s) == s.rooted
    ensures Settle(g, s, k) == s
    decreases k
  {
    if k > 0 {
      assert Snapshot(RootPass(g, s), s.revoked) == s;
      SettleFixed(g, s, k - 1);
    }
  }

  /** The evaluator's two loops, each stopping early once a pass changes nothing. */
  method Solve(g: Graph) returns (s: Snapshot, converged: bool)
    requires g.Valid()
    ensures Fits(g, s) && s == Solution(g)
    ensures converged ==> Fixed(g, s) && s == Iterate(g, Bound(g))
    ensures !converged ==> forall k: nat :: k < Bound(g) ==> !Fixed(g, Iterate(g, k))
  {
    hide Iterate, Pass, Pin, Settle;
    s, converged := IterateToBound(g);
    if converged {
      SolutionAtFixed(g, s);
    } else {
      s := SettleRooting(g, Pin(g, s));
    }
  }

  lemma IterateFrom(g: Graph, k: nat)
    requires g.Valid()
    ensures Iterate(g, 0) == Nothing(g) && Iterate(g, k + 1) == Pass(g, Iterate(g, k))
  {
    hide Pass, Nothing;
  }

  lemma FixedIs(g: Graph, s: Snapshot)
    requires Fits(g, s)
    ensures Fixed(g, s) <==> Pass(g, s) == s
  {
    hide Pass;
  }

  /** Passes from nothing, up to the bound or until one changes nothing. */
  method IterateToBound(g: Graph) returns (s: Snapshot, converged: bool)
    requires g.Valid()
    ensures Fits(g, s) && s == Iterate(g, Bound(g))
    ensures converged ==> Fixed(g, s)
    ensures !converged ==> forall k: nat :: k < Bound(g) ==> !Fixed(g, Iterate(g, k))
  {
    hide Pass, Iterate, Nothing, Fixed;
    s := Nothing(g);
    converged := false;
    IterateFrom(g, 0);
    var k: nat := 0;
    while k < Bound(g)
      invariant 0 <= k <= Bound(g) && s == Iterate(g, k)
      invariant forall j: nat :: j < k ==> !Fixed(g, Iterate(g, j))
    {
      var next := Pass(g, s);
      FixedIs(g, s);
      if next == s {
        converged := true;
        FixedStays(g, k, Bound(g));
        return;
      }
      IterateFrom(g, k);
      s := next;
      k := k + 1;
    }
  }

  /** Root passes with the revokes held, one more than there are records or until one changes
      nothing. */
  method SettleRooting(g: Graph, pinned: Snapshot) returns (s: Snapshot)
    requires Fits(g, pinned)
    ensures s == Settle(g, pinned, |g.records| + 1)
  {
    hide RootPass;
    s := pinned;
    var m := |g.records| + 1;
    while m > 0
      invariant 0 <= m && Fits(g, s) && Settle(g, s, m) == Settle(g, pinned, |g.records| + 1)
      decreases m
    {
      var next := RootPass(g, s);
      if next == s.rooted {
        SettleFixed(g, s, m);
        return;
      }
      s := Snapshot(next, s.revoked);
      m := m - 1;
    }
  }

  // ---- acyclic graphs ----

  /** A revoke that counts whoever owns what. */
  predicate StandingRevoke(g: Graph, i: nat)
    requires i < |g.records|
  {
    g.creator in g.records[i].revokedBy || g.Grantor(i) in g.records[i].revokedBy
  }

  /** Deciding record `i` asks whether the Own grant `j` stands. */
  ghost predicate DependsOn(g: Graph, i: nat, j: nat)
    requires g.Valid() && i < |g.records| && j < |g.records|
  {
    g.resolved[i].Some? && exists who ::
      && who != g.creator && OwnAllow(g, j, who, g.resolved[i].value)
      && (who == g.Grantor(i) || (who in g.records[i].revokedBy && !StandingRevoke(g, i)))
  }

  /** A walk along the relation `rel` over the records. */
  ghost predicate Walk(n: nat, rel: (nat, nat) -> bool, w: seq<nat>) {
    && (forall a :: 0 <= a < |w| ==> w[a] < n)
    && (forall a :: 0 <= a < |w| - 1 ==> rel(w[a], w[a + 1]))
  }

  /** No walk returns to where it started. */
  ghost predicate Acyclic(n: nat, rel: (nat, nat) -> bool) {
    forall w :: Walk(n, rel, w) && |w| >= 2 ==> w[0] != w[|w| - 1]
  }

  ghost function Dependence(g: Graph): (nat, nat) -> bool
    requires g.Valid()
  {
    (i: nat, j: nat) => i < |g.records| && j < |g.records| && DependsOn(g, i, j)
  }

  /** The records decided within `k` passes, whatever the snapshot began as: those all of
      whose dependences were decided a pass earlier. */
  ghost function Stage(n: nat, rel: (nat, nat) -> bool, k: nat): set<nat> {
    if k == 0 then {} else
    var done := Stage(n, rel, k - 1);
    set i: nat | i < n && LeadsInto(n, rel, i, done)
  }

  ghost predicate LeadsInto(n: nat, rel: (nat, nat) -> bool, i: nat, done: set<nat>) {
    forall j: nat :: j < n && rel(i, j) ==> j in done
  }

  lemma {:induction false} Pigeonhole(w: seq<nat>, n: nat) returns (a: nat, b: nat)
    requires |w| > n && forall i :: 0 <= i < |w| ==> w[i] < n
    ensures a < b < |w| && w[a] == w[b]
    decreases n
  {
    var last := |w| - 1;
    if c :| 0 <= c < last && w[c] == w[last] {
      return c, last;
    }
    assert 0 <= w[last] < n;
    var u := seq(last, i requires 0 <= i < last => if w[i] == n - 1 then w[last] else w[i]);
    forall i | 0 <= i < |u| ensures u[i] < n - 1 {
      assert w[i] != w[last];
    }
    a, b := Pigeonhole(u, n - 1);
  }

  /** A walk long enough closes on itself. */
  lemma LongWalkCloses(n: nat, rel: (nat, nat) -> bool, w: seq<nat>)
    requires Walk(n, rel, w) && |w| > n
    ensures !Acyclic(n, rel)
  {
    var a, b := Pigeonhole(w, n);
    var c := w[a..b + 1];
    assert Walk(n, rel, c) && c[0] == c[|c| - 1];
  }

  /** A record still undecided after `k` stages begins an undecided walk of `k + 1` steps. */
  lemma {:induction false} LateWalk(n: nat, rel: (nat, nat) -> bool, k: nat, i: nat) returns (w: seq<nat>)
    requires i < n && i !in Stage(n, rel, k)
    ensures Walk(n, rel, w) && |w| == k + 1 && w[0] == i
    decreases k
  {
    if k == 0 {
      w := [i];
    } else {
      var j: nat :| j < n && rel(i, j) && j !in Stage(n, rel, k - 1);
      var rest := LateWalk(n, rel, k - 1, j);
      w := [i] + rest;
    }
  }

  lemma AllStaged(n: nat, rel: (nat, nat) -> bool, i: nat)
    requires Acyclic(n, rel) && i < n
    ensures i in Stage(n, rel, n)
  {
    hide Acyclic, Stage;
    if i !in Stage(n, rel, n) {
      var w := LateWalk(n, rel, n, i);
      LongWalkCloses(n, rel, w);
      assert false;
    }
  }

  ghost predicate SameAt(s: Snapshot, t: Snapshot, i: nat) {
    && i < |s.rooted| && i < |s.revoked| && i < |t.rooted| && i < |t.revoked|
    && s.rooted[i] == t.rooted[i] && s.revoked[i] == t.revoked[i]
  }

  lemma SameOwns(g: Graph, s: Snapshot, t: Snapshot, who: nat, target: Path)
    requires Fits(g, s) && Fits(g, t)
    requires who == g.creator || forall j: nat :: j < |g.records| && OwnAllow(g, j, who, target) ==> SameAt(s, t, j)
    ensures OwnsPath(g, s, who, target) == OwnsPath(g, t, who, target)
  {
    hide OwnAllow;
  }

  /** A pass decides a record from the grants it depends on alone. */
  lemma SamePass(g: Graph, s: Snapshot, t: Snapshot, i: nat)
    requires Fits(g, s) && Fits(g, t) && i < |g.records|
    requires forall j: nat :: j < |g.records| && DependsOn(g, i, j) ==> SameAt(s, t, j)
    ensures SameAt(Pass(g, s), Pass(g, t), i)
  {
    hide OwnAllow, OwnsPath, SameAt, DependsOn;
    if g.resolved[i].Some? {
      var p := g.resolved[i].value;
      SameAsked(g, s, t, i, g.Grantor(i));
      if !StandingRevoke(g, i) {
        forall who | who in g.records[i].revokedBy
          ensures OwnsPath(g, s, who, p) == OwnsPath(g, t, who, p)
        {
          SameAsked(g, s, t, i, who);
        }
      }
    }
    SameRevokes(g, s, t, i);
    SameBoth(Pass(g, s), Pass(g, t), i);
  }

  lemma SameBoth(s: Snapshot, t: Snapshot, i: nat)
    requires i < |s.rooted| && i < |s.revoked| && i < |t.rooted| && i < |t.revoked|
    requires s.rooted[i] == t.rooted[i] && s.revoked[i] == t.revoked[i]
    ensures SameAt(s, t, i)
  {
  }

  lemma SameRevokes(g: Graph, s: Snapshot, t: Snapshot, i: nat)
    requires Fits(g, s) && Fits(g, t) && i < |g.records|
    requires g.resolved[i].Some? && !StandingRevoke(g, i) ==>
               forall who :: who in g.records[i].revokedBy ==>
                 OwnsPath(g, s, who, g.resolved[i].value) == OwnsPath(g, t, who, g.resolved[i].value)
    ensures Revokes(g, s, i) == Revokes(g, t, i)
  {
    hide OwnsPath;
  }

  lemma SameAsked(g: Graph, s: Snapshot, t: Snapshot, i: nat, who: nat)
    requires Fits(g, s) && Fits(g, t) && i < |g.records| && g.resolved[i].Some?
    requires forall j: nat :: j < |g.records| && DependsOn(g, i, j) ==> SameAt(s, t, j)
    requires who == g.Grantor(i) || (who in g.records[i].revokedBy && !StandingRevoke(g, i))
    ensures OwnsPath(g, s, who, g.resolved[i].value) == OwnsPath(g, t, who, g.resolved[i].value)
  {
    hide OwnAllow, OwnsPath, SameAt;
    if who != g.creator {
      forall j: nat | j < |g.records| && OwnAllow(g, j, who, g.resolved[i].value)
        ensures SameAt(s, t, j)
      {
        assert DependsOn(g, i, j);
      }
    }
    SameOwns(g, s, t, who, g.resolved[i].value);
  }

  /** Two runs of passes, whatever they begin from, agree after `k` on every record of the
      first `k` stages. */
  lemma StagesAgree(g: Graph, s: Snapshot, t: Snapshot, k: nat, i: nat)
    requires Fits(g, s) && Fits(g, t) && i in Stage(|g.records|, Dependence(g), k + 1)
    requires forall j: nat :: j in Stage(|g.records|, Dependence(g), k) ==> SameAt(s, t, j)
    ensures i < |g.records| && SameAt(Pass(g, s), Pass(g, t), i)
  {
    hide SameAt, Pass, DependsOn;
    var rel := Dependence(g);
    StageMember(|g.records|, rel, k + 1, i);
    forall j: nat | j < |g.records| && DependsOn(g, i, j)
      ensures SameAt(s, t, j)
    {
      assert rel(i, j);
    }
    SamePass(g, s, t, i);
  }

  lemma StageMember(n: nat, rel: (nat, nat) -> bool, k: nat, i: nat)
    requires i in Stage(n, rel, k)
    ensures k > 0 && i < n && LeadsInto(n, rel, i, Stage(n, rel, k - 1))
  {
  }

  /** Passes repeated from `s`. */
  ghost function From(g: Graph, s: Snapshot, k: nat): (r: Snapshot)
    requires Fits(g, s)
    ensures Fits(g, r)
    decreases k
  {
    if k == 0 then s else Pass(g, From(g, s, k - 1))
  }

  lemma {:induction false} FromAgree(g: Graph, s: Snapshot, t: Snapshot, k: nat, i: nat)
    requires Fits(g, s) && Fits(g, t) && i in Stage(|g.records|, Dependence(g), k)
    ensures SameAt(From(g, s, k), From(g, t, k), i)
    decreases k
  {
    hide SameAt, Pass, Dependence, Stage;
    StageMember(|g.records|, Dependence(g), k, i);
    var done, a, b := Stage(|g.records|, Dependence(g), k - 1), From(g, s, k - 1), From(g, t, k - 1);
    forall j: nat | j in done
      ensures SameAt(a, b, j)
    {
      FromAgree(g, s, t, k - 1, j);
    }
    StagesAgree(g, a, b, k - 1, i);
  }

  lemma SameEverywhere(g: Graph, s: Snapshot, t: Snapshot)
    requires Fits(g, s) && Fits(g, t) && forall i: nat :: i < |g.records| ==> SameAt(s, t, i)
    ensures s == t
  {
    forall i: nat | i < |g.records|
      ensures s.rooted[i] == t.rooted[i] && s.revoked[i] == t.revoked[i]
    {
      assert SameAt(s, t, i);
    }
    assert s.rooted == t.rooted && s.revoked == t.revoked;
  }

  /** On an acyclic graph any two starting snapshots meet within as many passes as there are
      records. */
  lemma AcyclicMeets(g: Graph, s: Snapshot, t: Snapshot)
    requires Fits(g, s) && Fits(g, t) && Acyclic(|g.records|, Dependence(g))
    ensures From(g, s, |g.records|) == From(g, t, |g.records|)
  {
    hide SameAt, From, Dependence, Stage, Acyclic;
    forall i: nat | i < |g.records|
      ensures SameAt(From(g, s, |g.records|), From(g, t, |g.records|), i)
    {
      AllStaged(|g.records|, Dependence(g), i);
      FromAgree(g, s, t, |g.records|, i);
    }
    SameEverywhere(g, From(g, s, |g.records|), From(g, t, |g.records|));
  }

  lemma {:induction false} FromNothing(g: Graph, k: nat)
    requires g.Valid()
    ensures From(g, Nothing(g), k) == Iterate(g, k)
    ensures From(g, Pass(g, Nothing(g)), k) == Iterate(g, k + 1)
    decreases k
  {
    hide Pass, Nothing;
    if k > 0 {
      FromNothing(g, k - 1);
    }
  }

  lemma {:induction false} FromFixed(g: Graph, s: Snapshot, k: nat)
    requires Fits(g, s) && Fixed(g, s)
    ensures From(g, s, k) == s
    decreases k
  {
    hide Pass;
    if k > 0 {
      FromFixed(g, s, k - 1);
    }
  }

  /** On an acyclic graph the iteration is at a fixpoint after as many passes as records,
      well inside the bound; it is the only fixpoint; and it is what is decided on. */
  lemma AcyclicConverges(g: Graph)
    requires g.Valid() && Acyclic(|g.records|, Dependence(g))
    ensures |g.records| < Bound(g) && Fixed(g, Iterate(g, |g.records|))
    ensures forall s :: Fits(g, s) && Fixed(g, s) ==> s == Iterate(g, |g.records|)
    ensures Solution(g) == Iterate(g, |g.records|)
  {
    hide Pass, Nothing, Dependence, Acyclic, From, Pin, Settle;
    var n := |g.records|;
    AcyclicMeets(g, Nothing(g), Pass(g, Nothing(g)));
    FromNothing(g, n);
    forall s | Fits(g, s) && Fixed(g, s)
      ensures s == Iterate(g, n)
    {
      AcyclicMeets(g, s, Nothing(g));
      FromFixed(g, s, n);
    }
    FixedStays(g, n, Bound(g));
    SolutionAtFixed(g, Iterate(g, n));
  }

  lemma SolutionAtFixed(g: Graph, s: Snapshot)
    requires g.Valid() && s == Iterate(g, Bound(g)) && Fixed(g, s)
    ensures Solution(g) == s
  {
    hide Iterate;
    PinFixed(g, s);
    SettleFixed(g, s, |g.records| + 1);
  }
}
