/** The authority-aware verdict: what it grants, when it is the plain one, and that it reads
    the records as a set. */
module Decisions {
  import opened Stamps
  import opened Collections
  import opened Acl
  import opened Authority
  import opened Provenance
  import opened Delegation

  /** An unrevoked deny that bears on the request. */
  predicate Denial(g: Graph, s: Snapshot, actor: Querier, path: Path, i: nat)
    requires Fits(g, s) && i < |g.records|
  {
    var t := g.records[i].tuple;
    !s.revoked[i] && t.effect == Deny && Covers(t.subject, actor) &&
    g.resolved[i].Some? && Governs(g.resolved[i].value, path)
  }

  /** A deny of the capability, or of ownership where ownership is what confers it. */
  predicate Relevant(grant: Grant, capability: Capability, viaOwn: bool) {
    grant == Direct(capability) || (grant == Direct(Own) && viaOwn)
  }

  /** A deny whose author is at or above the granter suppresses the grant. */
  ghost predicate Suppressed(g: Graph, s: Snapshot, actor: Querier, path: Path, capability: Capability,
                             granter: nat, granterPath: Path, viaOwn: bool)
    requires Fits(g, s)
  {
    exists i: nat :: i < |g.records| && Denial(g, s, actor, path, i) &&
                     Relevant(g.records[i].tuple.grant, capability, viaOwn) &&
                     AtOrAbove(g, s, g.Grantor(i), granter, granterPath)
  }

  /** A rooted, unrevoked allow that bears on the request and could confer the capability. */
  predicate Offers(g: Graph, s: Snapshot, actor: Querier, path: Path, capability: Capability, i: nat)
    requires Fits(g, s) && i < |g.records|
  {
    var t := g.records[i].tuple;
    Live(s, i) && t.effect == Allow && Covers(t.subject, actor) &&
    g.resolved[i].Some? && Governs(g.resolved[i].value, path) &&
    (t.grant == Direct(Own) || t.grant == Direct(capability))
  }

  ghost predicate Confers(g: Graph, s: Snapshot, actor: Querier, path: Path, capability: Capability, i: nat)
    requires Fits(g, s) && i < |g.records|
  {
    Offers(g, s, actor, path, capability, i) &&
    !Suppressed(g, s, actor, path, capability, g.Grantor(i), g.resolved[i].value,
                g.records[i].tuple.grant == Direct(Own))
  }

  /** The creator's own hold on the root, open only to the creator's own denies. */
  ghost predicate CreatorHolds(g: Graph, s: Snapshot, actor: Querier, path: Path, capability: Capability)
    requires Fits(g, s)
  {
    actor.id == g.creator && !Suppressed(g, s, actor, path, capability, g.creator, [], true)
  }

  ghost function Verdict(g: Graph, s: Snapshot, actor: Querier, path: Path, capability: Capability): Decision
    requires Fits(g, s)
  {
    if CreatorHolds(g, s, actor, path, capability) ||
       exists i: nat :: i < |g.records| && Confers(g, s, actor, path, capability, i) then Allowed
    else if exists i: nat :: i < |g.records| && Denial(g, s, actor, path, i) &&
                             g.records[i].tuple.grant == Direct(capability)
    then Denied
    else Abstain
  }

  function GraphOf(records: seq<Record>, creator: nat, resolve: Resolver): (g: Graph)
    ensures g.Valid() && g.records == records && g.creator == creator
    ensures forall i :: 0 <= i < |records| ==> g.resolved[i] == Resolve(records[i].tuple.scope, resolve)
  {
    Graph(records, seq(|records|, i requires 0 <= i < |records| => Resolve(records[i].tuple.scope, resolve)), creator)
  }

  // ---- the evaluator ----

  method DenySuppresses(g: Graph, s: Snapshot, actor: Querier, path: Path, capability: Capability,
                        granter: nat, granterPath: Path, viaOwn: bool) returns (suppressed: bool)
    requires Fits(g, s)
    ensures suppressed == Suppressed(g, s, actor, path, capability, granter, granterPath, viaOwn)
  {
    hide Denial, Relevant, AtOrAbove;
    var i: nat := 0;
    while i < |g.records|
      invariant 0 <= i <= |g.records|
      invariant forall j: nat :: j < i && Denial(g, s, actor, path, j) ==>
                  !Relevant(g.records[j].tuple.grant, capability, viaOwn) ||
                  !AtOrAbove(g, s, g.Grantor(j), granter, granterPath)
    {
      if Denial(g, s, actor, path, i) && Relevant(g.records[i].tuple.grant, capability, viaOwn) {
        var above := IsAtOrAbove(g, s, g.Grantor(i), granter, granterPath);
        if above {
          return true;
        }
      }
      i := i + 1;
    }
    return false;
  }

  method SomeConfers(g: Graph, s: Snapshot, actor: Querier, path: Path, capability: Capability) returns (allowed: bool)
    requires Fits(g, s)
    ensures allowed <==> exists i: nat :: i < |g.records| && Confers(g, s, actor, path, capability, i)
  {
    hide Suppressed;
    var i: nat := 0;
    while i < |g.records|
      invariant 0 <= i <= |g.records|
      invariant forall j: nat :: j < i ==> !Confers(g, s, actor, path, capability, j)
    {
      if Offers(g, s, actor, path, capability, i) {
        var suppressed := DenySuppresses(g, s, actor, path, capability, g.Grantor(i), g.resolved[i].value,
                                         g.records[i].tuple.grant == Direct(Own));
        if !suppressed {
          assert Confers(g, s, actor, path, capability, i);
          return true;
        }
      }
      i := i + 1;
    }
    return false;
  }

  /** Whether an actor holds a capability at a path, by grants that trace to the creator. */
  method DecideWithAuthority(records: seq<Record>, creator: nat, actor: Querier, path: Path, capability: Capability,
                             resolve: Resolver) returns (decision: Decision)
    ensures var g := GraphOf(records, creator, resolve); decision == Verdict(g, Solution(g), actor, path, capability)
  {
    hide Suppressed, Confers, Denial, Solution;
    var g := GraphOf(records, creator, resolve);
    var s, converged := Solve(g);
    if actor.id == creator {
      var suppressed := DenySuppresses(g, s, actor, path, capability, creator, [], true);
      if !suppressed {
        return Allowed;
      }
    }
    var allowed := SomeConfers(g, s, actor, path, capability);
    if allowed {
      return Allowed;
    }
    var i: nat := 0;
    while i < |records|
      invariant 0 <= i <= |records|
      invariant forall j: nat :: j < i ==>
                  !(Denial(g, s, actor, path, j) && records[j].tuple.grant == Direct(capability))
    {
      if Denial(g, s, actor, path, i) && records[i].tuple.grant == Direct(capability) {
        return Denied;
      }
      i := i + 1;
    }
    return Abstain;
  }

  // ---- what an allow rests on ----

  /** An actor other than the creator is allowed only by a record that traces to it. */
  lemma AllowTraces(g: Graph, actor: Querier, path: Path, capability: Capability)
    requires g.Valid() && actor.id != g.creator && Verdict(g, Solution(g), actor, path, capability) == Allowed
    ensures exists i: nat :: i < |g.records| && Offers(g, Solution(g), actor, path, capability, i) && Traces(g, i)
  {
    hide Suppressed, Offers, Traces, Solution;
    SolutionTraces(g);
    var s := Solution(g);
    var i: nat :| i < |g.records| && Confers(g, s, actor, path, capability, i);
    OffersRooted(g, s, actor, path, capability, i);
  }

  lemma OffersRooted(g: Graph, s: Snapshot, actor: Querier, path: Path, capability: Capability, i: nat)
    requires Fits(g, s) && i < |g.records| && Offers(g, s, actor, path, capability, i)
    ensures s.rooted[i]
  {
  }

  /** A set of records the creator had no part in allows nobody but the creator anything. */
  lemma ForgeriesConferNothing(g: Graph, actor: Querier, path: Path, capability: Capability)
    requires g.Valid() && actor.id != g.creator && forall j: nat :: j < |g.records| ==> g.Grantor(j) != g.creator
    ensures Verdict(g, Solution(g), actor, path, capability) != Allowed
  {
    hide Solution, Traces, Offers, Verdict;
    if Verdict(g, Solution(g), actor, path, capability) == Allowed {
      AllowTraces(g, actor, path, capability);
      var i: nat :| i < |g.records| && Offers(g, Solution(g), actor, path, capability, i) && Traces(g, i);
      TraceTop(g, i);
      assert false;
    }
  }

  // ---- the plain evaluator ----

  ghost predicate Plain(g: Graph) {
    g.Valid() && forall i: nat :: i < |g.records| ==> g.Grantor(i) == g.creator && g.records[i].revokedBy == []
  }

  ghost function PlainSnapshot(g: Graph): (s: Snapshot)
    requires g.Valid()
    ensures Fits(g, s) && forall i: nat :: i < |g.records| ==> s.rooted[i] == g.resolved[i].Some? && !s.revoked[i]
  {
    Snapshot(seq(|g.records|, i requires 0 <= i < |g.records| => g.resolved[i].Some?), seq(|g.records|, i => false))
  }

  lemma PlainPass(g: Graph, s: Snapshot)
    requires Plain(g) && Fits(g, s)
    ensures Pass(g, s) == PlainSnapshot(g)
  {
    var p, q := Pass(g, s), PlainSnapshot(g);
    assert p.rooted == q.rooted && p.revoked == q.revoked;
  }

  lemma PlainSolution(g: Graph)
    requires Plain(g)
    ensures Solution(g) == PlainSnapshot(g)
  {
    hide Pass, PlainSnapshot, Solution;
    PlainPass(g, Nothing(g));
    PlainPass(g, PlainSnapshot(g));
    assert Iterate(g, 1) == Pass(g, Iterate(g, 0));
    FixedStays(g, 1, Bound(g));
    SolutionAtFixed(g, PlainSnapshot(g));
  }

  ghost function TuplesOf(records: seq<Record>): (r: seq<Tuple>)
    ensures |r| == |records| && forall i :: 0 <= i < |r| ==> r[i] == records[i].tuple
  {
    seq(|records|, i requires 0 <= i < |records| => records[i].tuple)
  }

  lemma PlainSays(records: seq<Record>, g: Graph, actor: Querier, path: Path, resolve: Resolver, c: Capability)
    requires g == GraphOf(records, g.creator, resolve) && Plain(g)
    ensures var s := PlainSnapshot(g);
            Says(TuplesOf(records), actor, path, resolve, Deny, c) <==>
            exists i: nat :: i < |g.records| && Denial(g, s, actor, path, i) && g.records[i].tuple.grant == Direct(c)
    ensures var s := PlainSnapshot(g);
            Says(TuplesOf(records), actor, path, resolve, Allow, c) <==>
            exists i: nat :: i < |g.records| && Offers(g, s, actor, path, c, i) && g.records[i].tuple.grant == Direct(c)
  {
    var s, ts := PlainSnapshot(g), TuplesOf(records);
    if Says(ts, actor, path, resolve, Deny, c) {
      var t :| t in ts && Bears(t, actor, path, resolve) && t.effect == Deny && t.grant == Direct(c);
      var i: nat :| i < |ts| && ts[i] == t;
      assert Denial(g, s, actor, path, i);
    }
    if Says(ts, actor, path, resolve, Allow, c) {
      var t :| t in ts && Bears(t, actor, path, resolve) && t.effect == Allow && t.grant == Direct(c);
      var i: nat :| i < |ts| && ts[i] == t;
      assert Offers(g, s, actor, path, c, i);
    }
    forall i: nat | i < |g.records|
      ensures ts[i] in ts
    {
    }
  }

  lemma PlainSuppressed(records: seq<Record>, g: Graph, actor: Querier, path: Path, resolve: Resolver,
                        capability: Capability, granterPath: Path, viaOwn: bool)
    requires g == GraphOf(records, g.creator, resolve) && Plain(g)
    ensures Suppressed(g, PlainSnapshot(g), actor, path, capability, g.creator, granterPath, viaOwn) <==>
            Says(TuplesOf(records), actor, path, resolve, Deny, capability) ||
            (viaOwn && Says(TuplesOf(records), actor, path, resolve, Deny, Own))
  {
    hide Denial, Says, PlainSnapshot, Reaches, GraphOf;
    PlainSays(records, g, actor, path, resolve, capability);
    PlainSays(records, g, actor, path, resolve, Own);
  }

  /** Where every record was granted by the creator and none revoked, the authority-aware
      verdict on anyone else is the plain one. */
  lemma RefinesPlain(records: seq<Record>, creator: nat, actor: Querier, path: Path, capability: Capability,
                     resolve: Resolver)
    requires actor.id != creator
    requires forall i :: 0 <= i < |records| ==> records[i].tuple.grantor == creator && records[i].revokedBy == []
    ensures var g := GraphOf(records, creator, resolve);
            Verdict(g, Solution(g), actor, path, capability) ==
            Judged(TuplesOf(records), actor, path, capability, resolve)
  {
    hide Denial, Says, PlainSnapshot, Solution, Suppressed, Offers, GraphOf, TuplesOf;
    var g := GraphOf(records, creator, resolve);
    assert Plain(g);
    PlainSolution(g);
    var s := PlainSnapshot(g);
    PlainSays(records, g, actor, path, resolve, capability);
    PlainSays(records, g, actor, path, resolve, Own);
    forall i: nat | i < |g.records|
      ensures Confers(g, s, actor, path, capability, i) <==>
              Offers(g, s, actor, path, capability, i) &&
              !Says(TuplesOf(records), actor, path, resolve, Deny, capability) &&
              !(g.records[i].tuple.grant == Direct(Own) && Says(TuplesOf(records), actor, path, resolve, Deny, Own))
    {
      if Offers(g, s, actor, path, capability, i) {
        OfferedAt(g, s, actor, path, capability, i);
        PlainSuppressed(records, g, actor, path, resolve, capability, g.resolved[i].value,
                        g.records[i].tuple.grant == Direct(Own));
      }
    }
    PlainOffers(g, s, actor, path, capability);
  }

  lemma OfferedAt(g: Graph, s: Snapshot, actor: Querier, path: Path, capability: Capability, i: nat)
    requires Fits(g, s) && i < |g.records| && Offers(g, s, actor, path, capability, i)
    ensures g.resolved[i].Some?
    ensures g.records[i].tuple.grant == Direct(Own) || g.records[i].tuple.grant == Direct(capability)
  {
  }

  lemma PlainOffers(g: Graph, s: Snapshot, actor: Querier, path: Path, capability: Capability)
    requires Fits(g, s)
    ensures forall i: nat :: i < |g.records| ==>
              (Offers(g, s, actor, path, capability, i) <==>
               (Offers(g, s, actor, path, Own, i) && g.records[i].tuple.grant == Direct(Own)) ||
               (Offers(g, s, actor, path, capability, i) && g.records[i].tuple.grant == Direct(capability)))
  {
  }

  // ---- records as a set ----

  /** One tuple revoked by the same actors, in whatever order each record lists them. */
  ghost predicate SameRecord(x: Record, y: Record) {
    x.tuple == y.tuple && forall who :: who in x.revokedBy <==> who in y.revokedBy
  }

  /** Every record of `a` is one of `b`. */
  ghost predicate RecordsWithin(a: seq<Record>, b: seq<Record>) {
    forall x :: x in a ==> exists y :: y in b && SameRecord(x, y)
  }

  /** The record of `h` at each place is the one of `g` that `p` names. */
  ghost predicate Picks(g: Graph, h: Graph, p: seq<nat>) {
    && g.Valid() && h.Valid() && g.creator == h.creator && |h.records| == |p|
    && (forall i :: 0 <= i < |p| ==> p[i] < |g.records| && SameRecord(h.records[i], g.records[p[i]]))
    && (forall i :: 0 <= i < |p| ==> h.resolved[i] == g.resolved[p[i]])
  }

  /** The records of `h` are those of `g`, rearranged by `p`. */
  ghost predicate Shuffled(g: Graph, h: Graph, p: seq<nat>) {
    Picks(g, h, p) && |p| == |g.records| && forall j: nat :: j < |p| ==> j in p
  }

  /** `h` at `t` is `g` at `s`, save for some records that `s` treats as revoked. */
  ghost predicate Carried(g: Graph, h: Graph, p: seq<nat>, s: Snapshot, t: Snapshot) {
    && Picks(g, h, p) && Fits(g, s) && Fits(h, t)
    && (forall i :: 0 <= i < |p| ==> t.rooted[i] == s.rooted[p[i]] && t.revoked[i] == s.revoked[p[i]])
    && (forall j: nat :: j < |g.records| && !s.revoked[j] ==> j in p)
  }

  lemma MovedTo(g: Graph, h: Graph, p: seq<nat>, s: Snapshot, t: Snapshot, j: nat) returns (i: nat)
    requires Carried(g, h, p, s, t) && j < |g.records| && !s.revoked[j]
    ensures i < |p| && p[i] == j
  {
    assert j in p;
    i :| i < |p| && p[i] == j;
  }

  lemma PickedAllow(g: Graph, h: Graph, p: seq<nat>, i: nat, who: nat, target: Path)
    requires Picks(g, h, p) && i < |p|
    ensures OwnAllow(h, i, who, target) == OwnAllow(g, p[i], who, target)
  {
  }

  lemma CarriedLift(g: Graph, h: Graph, p: seq<nat>, s: Snapshot, t: Snapshot, path: Path, who: nat, up: nat)
    requires Carried(g, h, p, s, t)
    ensures Lift(h, t, path, who, up) == Lift(g, s, path, who, up)
  {
    hide OwnAllow;
    if Lift(h, t, path, who, up) {
      var i: nat :| i < |h.records| && OwnAllow(h, i, who, path) && Live(t, i) && h.Grantor(i) == up;
      PickedAllow(g, h, p, i, who, path);
      assert Live(s, p[i]);
    }
    if Lift(g, s, path, who, up) {
      var j: nat :| j < |g.records| && OwnAllow(g, j, who, path) && Live(s, j) && g.Grantor(j) == up;
      var i := MovedTo(g, h, p, s, t, j);
      PickedAllow(g, h, p, i, who, path);
      assert Live(t, i);
    }
  }

  lemma CarriedOwns(g: Graph, h: Graph, p: seq<nat>, s: Snapshot, t: Snapshot, who: nat, target: Path)
    requires Carried(g, h, p, s, t)
    ensures OwnsPath(h, t, who, target) == OwnsPath(g, s, who, target)
  {
    hide OwnAllow, Carried;
    CarriedSame(g, h, p, s, t);
    OwnsLift(g, s, who, target);
    OwnsLift(h, t, who, target);
    forall up
      ensures Lift(h, t, target, who, up) == Lift(g, s, target, who, up)
    {
      CarriedLift(g, h, p, s, t, target, who, up);
    }
  }

  lemma CarriedSame(g: Graph, h: Graph, p: seq<nat>, s: Snapshot, t: Snapshot)
    requires Carried(g, h, p, s, t)
    ensures g.creator == h.creator && Fits(g, s) && Fits(h, t)
  {
  }

  lemma OwnsLift(g: Graph, s: Snapshot, who: nat, target: Path)
    requires Fits(g, s)
    ensures OwnsPath(g, s, who, target) <==> who == g.creator || exists up :: Lift(g, s, target, who, up)
  {
    hide OwnAllow;
    if j: nat :| j < |g.records| && OwnAllow(g, j, who, target) && Live(s, j) {
      assert Lift(g, s, target, who, g.Grantor(j));
    }
  }

  lemma CarriedPass(g: Graph, h: Graph, p: seq<nat>, s: Snapshot, t: Snapshot)
    requires Shuffled(g, h, p) && Carried(g, h, p, s, t)
    ensures Carried(g, h, p, Pass(g, s), Pass(h, t))
  {
    hide OwnsPath;
    forall i: nat | i < |p|
      ensures Roots(h, t, i) == Roots(g, s, p[i]) && Revokes(h, t, i) == Revokes(g, s, p[i])
    {
      if h.resolved[i].Some? {
        forall who ensures OwnsPath(h, t, who, h.resolved[i].value) == OwnsPath(g, s, who, h.resolved[i].value) {
          CarriedOwns(g, h, p, s, t, who, h.resolved[i].value);
        }
      }
    }
  }

  lemma {:induction false} CarriedIterate(g: Graph, h: Graph, p: seq<nat>, k: nat)
    requires Shuffled(g, h, p)
    ensures Carried(g, h, p, Iterate(g, k), Iterate(h, k))
  {
    hide Pass;
    if k > 0 {
      CarriedIterate(g, h, p, k - 1);
      CarriedPass(g, h, p, Iterate(g, k - 1), Iterate(h, k - 1));
    }
  }

  lemma CarriedPin(g: Graph, h: Graph, p: seq<nat>, s: Snapshot, t: Snapshot)
    requires Shuffled(g, h, p) && Carried(g, h, p, s, t)
    ensures Carried(g, h, p, Pin(g, s), Pin(h, t))
  {
    hide Revokes, Roots;
    CarriedPass(g, h, p, s, t);
  }

  lemma {:induction false} CarriedSettle(g: Graph, h: Graph, p: seq<nat>, s: Snapshot, t: Snapshot, k: nat)
    requires Shuffled(g, h, p) && Carried(g, h, p, s, t)
    ensures Carried(g, h, p, Settle(g, s, k), Settle(h, t, k))
    decreases k
  {
    hide Revokes, Roots;
    if k > 0 {
      CarriedPass(g, h, p, s, t);
      CarriedSettle(g, h, p, Snapshot(RootPass(g, s), s.revoked), Snapshot(RootPass(h, t), t.revoked), k - 1);
    }
  }

  lemma CarriedSolution(g: Graph, h: Graph, p: seq<nat>)
    requires Shuffled(g, h, p)
    ensures Carried(g, h, p, Solution(g), Solution(h))
  {
    hide Carried, Pin, Settle, Iterate;
    CarriedIterate(g, h, p, Bound(g));
    CarriedPin(g, h, p, Iterate(g, Bound(g)), Iterate(h, Bound(h)));
    CarriedSettle(g, h, p, Pin(g, Iterate(g, Bound(g))), Pin(h, Iterate(h, Bound(h))), |g.records| + 1);
  }

  lemma CarriedReach(g: Graph, h: Graph, p: seq<nat>, s: Snapshot, t: Snapshot, author: nat, grantor: nat, path: Path)
    requires Carried(g, h, p, s, t)
    ensures AtOrAbove(h, t, author, grantor, path) == AtOrAbove(g, s, author, grantor, path)
  {
    hide Lift, Carried;
    CarriedSame(g, h, p, s, t);
    forall who, up
      ensures Lift(h, t, path, who, up) == Lift(g, s, path, who, up)
    {
      CarriedLift(g, h, p, s, t, path, who, up);
    }
    forall w
      ensures Ladder(h, t, path, w) == Ladder(g, s, path, w)
    {
    }
  }

  /** Only a record that stands denies or confers anything. */
  lemma DenialStands(g: Graph, s: Snapshot, actor: Querier, path: Path, j: nat)
    requires Fits(g, s) && j < |g.records| && Denial(g, s, actor, path, j)
    ensures !s.revoked[j]
  {
  }

  lemma ConfersStands(g: Graph, s: Snapshot, actor: Querier, path: Path, capability: Capability, j: nat)
    requires Fits(g, s) && j < |g.records| && Confers(g, s, actor, path, capability, j)
    ensures !s.revoked[j] && s.rooted[j]
  {
  }

  lemma CarriedSuppressed(g: Graph, h: Graph, p: seq<nat>, s: Snapshot, t: Snapshot, actor: Querier, path: Path,
                          capability: Capability, granter: nat, granterPath: Path, viaOwn: bool)
    requires Carried(g, h, p, s, t)
    ensures Suppressed(h, t, actor, path, capability, granter, granterPath, viaOwn) ==
            Suppressed(g, s, actor, path, capability, granter, granterPath, viaOwn)
  {
    hide AtOrAbove, Relevant;
    forall i: nat | i < |p|
      ensures Denial(h, t, actor, path, i) == Denial(g, s, actor, path, p[i])
      ensures AtOrAbove(h, t, h.Grantor(i), granter, granterPath) ==
                AtOrAbove(g, s, g.Grantor(p[i]), granter, granterPath)
    {
      CarriedReach(g, h, p, s, t, h.Grantor(i), granter, granterPath);
    }
    SuppressedAcross(g, h, p, s, t, actor, path, capability, granter, granterPath, viaOwn);
  }

  lemma SuppressedAcross(g: Graph, h: Graph, p: seq<nat>, s: Snapshot, t: Snapshot, actor: Querier, path: Path,
                         capability: Capability, granter: nat, granterPath: Path, viaOwn: bool)
    requires Carried(g, h, p, s, t)
    requires forall i: nat :: i < |p| ==> Denial(h, t, actor, path, i) == Denial(g, s, actor, path, p[i])
    requires forall i: nat :: i < |p| ==>
               AtOrAbove(h, t, h.Grantor(i), granter, granterPath) ==
               AtOrAbove(g, s, g.Grantor(p[i]), granter, granterPath)
    ensures Suppressed(h, t, actor, path, capability, granter, granterPath, viaOwn) ==
            Suppressed(g, s, actor, path, capability, granter, granterPath, viaOwn)
  {
    hide AtOrAbove, Relevant, Denial;
    if Suppressed(g, s, actor, path, capability, granter, granterPath, viaOwn) {
      var j: nat :| j < |g.records| && Denial(g, s, actor, path, j) &&
                    Relevant(g.records[j].tuple.grant, capability, viaOwn) &&
                    AtOrAbove(g, s, g.Grantor(j), granter, granterPath);
      DenialStands(g, s, actor, path, j);
      var i := MovedTo(g, h, p, s, t, j);
      assert Denial(h, t, actor, path, i);
    }
    if Suppressed(h, t, actor, path, capability, granter, granterPath, viaOwn) {
      var i: nat :| i < |h.records| && Denial(h, t, actor, path, i) &&
                    Relevant(h.records[i].tuple.grant, capability, viaOwn) &&
                    AtOrAbove(h, t, h.Grantor(i), granter, granterPath);
      assert Denial(g, s, actor, path, p[i]);
    }
  }

  lemma CarriedConfers(g: Graph, h: Graph, p: seq<nat>, s: Snapshot, t: Snapshot, actor: Querier, path: Path,
                       capability: Capability, i: nat)
    requires Carried(g, h, p, s, t) && i < |p|
    ensures Confers(h, t, actor, path, capability, i) == Confers(g, s, actor, path, capability, p[i])
    ensures Denial(h, t, actor, path, i) == Denial(g, s, actor, path, p[i])
  {
    hide Suppressed;
    if h.resolved[i].Some? {
      CarriedSuppressed(g, h, p, s, t, actor, path, capability, h.Grantor(i), h.resolved[i].value,
                        h.records[i].tuple.grant == Direct(Own));
    }
  }

  lemma CarriedVerdict(g: Graph, h: Graph, p: seq<nat>, s: Snapshot, t: Snapshot, actor: Querier, path: Path,
                       capability: Capability)
    requires Carried(g, h, p, s, t)
    ensures Verdict(h, t, actor, path, capability) == Verdict(g, s, actor, path, capability)
  {
    hide Suppressed, Confers, Denial;
    CarriedSuppressed(g, h, p, s, t, actor, path, capability, g.creator, [], true);
    forall i: nat | i < |p|
      ensures Confers(h, t, actor, path, capability, i) == Confers(g, s, actor, path, capability, p[i])
      ensures Denial(h, t, actor, path, i) == Denial(g, s, actor, path, p[i])
    {
      CarriedConfers(g, h, p, s, t, actor, path, capability, i);
    }
    if j: nat :| j < |g.records| && Confers(g, s, actor, path, capability, j) {
      ConfersStands(g, s, actor, path, capability, j);
      var i := MovedTo(g, h, p, s, t, j);
      assert Confers(h, t, actor, path, capability, i);
    }
    if j: nat :| j < |g.records| && Denial(g, s, actor, path, j) && g.records[j].tuple.grant == Direct(capability) {
      DenialStands(g, s, actor, path, j);
      var i := MovedTo(g, h, p, s, t, j);
      assert Denial(h, t, actor, path, i);
    }
  }

  // ---- revoked records ----

  /** The records of `g` at the places `p` alone, and what `s` says of them. */
  ghost function Only(g: Graph, p: seq<nat>): (h: Graph)
    requires g.Valid() && forall i :: 0 <= i < |p| ==> p[i] < |g.records|
    ensures h.Valid() && |h.records| == |p| && h.creator == g.creator
    ensures forall i :: 0 <= i < |p| ==> h.records[i] == g.records[p[i]] && h.resolved[i] == g.resolved[p[i]]
  {
    Graph(seq(|p|, i requires 0 <= i < |p| => g.records[p[i]]), seq(|p|, i requires 0 <= i < |p| => g.resolved[p[i]]),
          g.creator)
  }

  ghost function SaysOf(s: Snapshot, p: seq<nat>): (t: Snapshot)
    requires |s.revoked| == |s.rooted| && forall i :: 0 <= i < |p| ==> p[i] < |s.rooted|
    ensures |t.rooted| == |p| && |t.revoked| == |p|
    ensures forall i :: 0 <= i < |p| ==> t.rooted[i] == s.rooted[p[i]] && t.revoked[i] == s.revoked[p[i]]
  {
    Snapshot(seq(|p|, i requires 0 <= i < |p| => s.rooted[p[i]]), seq(|p|, i requires 0 <= i < |p| => s.revoked[p[i]]))
  }

  /** Records treated as revoked have no part in a verdict: with any of them taken out, all of
      them say, it is the same. */
  lemma RevokedInert(g: Graph, s: Snapshot, p: seq<nat>, actor: Querier, path: Path, capability: Capability)
    requires Fits(g, s) && forall i :: 0 <= i < |p| ==> p[i] < |g.records|
    requires forall j: nat :: j < |g.records| && j !in p ==> s.revoked[j]
    ensures Verdict(Only(g, p), SaysOf(s, p), actor, path, capability) == Verdict(g, s, actor, path, capability)
  {
    hide Verdict;
    CarriedVerdict(g, Only(g, p), p, s, SaysOf(s, p), actor, path, capability);
  }

  /** The creator's revoke of any record counts, and anyone's of its own grant, however the rest
      of the graph is decided. */
  lemma StandingRevoked(g: Graph, i: nat)
    requires g.Valid() && i < |g.records|
    requires g.creator in g.records[i].revokedBy || g.records[i].tuple.grantor in g.records[i].revokedBy
    ensures Solution(g).revoked[i]
  {
    hide Roots, OwnsPath;
    var k := Bound(g);
    var s := Iterate(g, k);
    assert Revokes(g, s, i);
    assert k > 0 && s == Pass(g, Iterate(g, k - 1));
    assert Revokes(g, Iterate(g, k - 1), i);
    SettleKeepsRevoked(g, Pin(g, s), |g.records| + 1);
  }

  lemma {:induction false} SettleKeepsRevoked(g: Graph, s: Snapshot, k: nat)
    requires Fits(g, s)
    ensures Settle(g, s, k).revoked == s.revoked
    decreases k
  {
    hide Roots;
    if k > 0 {
      SettleKeepsRevoked(g, Snapshot(RootPass(g, s), s.revoked), k - 1);
    }
  }

  /** A deny revoked by the creator or by its own grantor denies nothing: where every deny is,
      nobody is denied and whatever offers the capability confers it. */
  lemma RevokedDenies(g: Graph, actor: Querier, path: Path, capability: Capability)
    requires g.Valid()
    requires forall i :: 0 <= i < |g.records| && g.records[i].tuple.effect == Deny ==>
               g.creator in g.records[i].revokedBy || g.records[i].tuple.grantor in g.records[i].revokedBy
    ensures Verdict(g, Solution(g), actor, path, capability) ==
            if actor.id == g.creator || exists i: nat :: i < |g.records| &&
                                                         Offers(g, Solution(g), actor, path, capability, i)
            then Allowed else Abstain
  {
    hide Solution, Offers, AtOrAbove;
    forall i: nat | i < |g.records|
      ensures !Denial(g, Solution(g), actor, path, i)
    {
      if g.records[i].tuple.effect == Deny {
        StandingRevoked(g, i);
      }
    }
    forall i: nat | i < |g.records|
      ensures Confers(g, Solution(g), actor, path, capability, i) <==>
                Offers(g, Solution(g), actor, path, capability, i)
    {
      if Offers(g, Solution(g), actor, path, capability, i) {
        OfferedAt(g, Solution(g), actor, path, capability, i);
      }
    }
  }

  ghost function Place(a: seq<Record>, b: seq<Record>, r: Record): (i: nat)
    requires RecordsWithin(b, a) && r in b
    ensures i < |a| && SameRecord(r, a[i])
  {
    var y :| y in a && SameRecord(r, y);
    var i: nat :| i < |a| && a[i] == y;
    i
  }

  lemma TuplesWithin(a: seq<Record>, b: seq<Record>)
    requires RecordsWithin(a, b) && Distinct(TuplesOf(a))
    ensures |a| <= |b|
  {
    var s, t := TuplesOf(a), TuplesOf(b);
    forall x | x in s
      ensures x in t
    {
      var i: nat :| i < |s| && s[i] == x;
      var j := Place(b, a, a[i]);
      assert t[j] == x;
    }
    DistinctWithin(s, t);
  }

  lemma ShuffleOf(a: seq<Record>, b: seq<Record>, creator: nat, resolve: Resolver) returns (p: seq<nat>)
    requires Distinct(TuplesOf(a)) && Distinct(TuplesOf(b)) && RecordsWithin(a, b) && RecordsWithin(b, a)
    ensures Shuffled(GraphOf(a, creator, resolve), GraphOf(b, creator, resolve), p)
  {
    hide RecordsWithin;
    TuplesWithin(a, b);
    TuplesWithin(b, a);
    p := seq(|b|, i requires 0 <= i < |b| => Place(a, b, b[i]));
    forall j: nat | j < |p|
      ensures j in p
    {
      var i := Place(b, a, a[j]);
      assert TuplesOf(a)[p[i]] == TuplesOf(a)[j];
      assert p[i] == j;
    }
  }

  /** Replicas holding the same set of records decide every request alike, in whatever order
      each holds them and in whatever order each lists a record's revokers. */
  lemma ReplicasAgree(a: seq<Record>, b: seq<Record>, creator: nat, actor: Querier, path: Path, capability: Capability,
                      resolve: Resolver)
    requires Distinct(TuplesOf(a)) && Distinct(TuplesOf(b)) && RecordsWithin(a, b) && RecordsWithin(b, a)
    ensures var g, h := GraphOf(a, creator, resolve), GraphOf(b, creator, resolve);
            Verdict(g, Solution(g), actor, path, capability) == Verdict(h, Solution(h), actor, path, capability)
  {
    hide Verdict, Solution, Distinct, Shuffled, GraphOf, RecordsWithin;
    var p := ShuffleOf(a, b, creator, resolve);
    var g, h := GraphOf(a, creator, resolve), GraphOf(b, creator, resolve);
    CarriedSolution(g, h, p);
    CarriedVerdict(g, h, p, Solution(g), Solution(h), actor, path, capability);
  }
}
