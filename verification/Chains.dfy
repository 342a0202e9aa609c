/** What authority rests on, in terms of the stored records alone: an unrevoked chain of Own
    grants from the creator always stands, whatever else is in the graph; its holder's revokes
    count; and an actor nobody granted ownership roots and revokes nothing. */
module Chains {
  import opened Stamps
  import opened Collections
  import opened Acl
  import opened Authority
  import opened Provenance
  import opened Delegation
  import opened Decisions

  /** The record allows ownership, to that actor by its id, of a path that `target` extends. */
  ghost predicate GrantsOwn(g: Graph, j: nat, who: nat, target: Path)
    requires g.Valid() && j < |g.records|
  {
    var t := g.records[j].tuple;
    && t.subject == Actor(who) && t.grant == Direct(Own) && t.effect == Allow
    && match g.resolved[j] case None => false case Some(p) => |p| <= |target| && target[..|p|] == p
  }

  lemma GrantsOwnIs(g: Graph, j: nat, who: nat, target: Path)
    requires g.Valid() && j < |g.records|
    ensures GrantsOwn(g, j, who, target) <==> OwnAllow(g, j, who, target)
  {
  }

  // ---- a chain of grants stands ----

  /** Nobody revoked any record of the chain: `c[0]`'s grantor owns its path through `c[1]`, and so
      on up to a record the creator granted. */
  ghost predicate Honest(g: Graph, c: seq<nat>) {
    && g.Valid() && |c| > 0
    && (forall k :: 0 <= k < |c| ==> c[k] < |g.records| && g.resolved[c[k]].Some? && g.records[c[k]].revokedBy == [])
    && (forall k :: 0 <= k < |c| - 1 ==>
          GrantsOwn(g, c[k + 1], g.records[c[k]].tuple.grantor, g.resolved[c[k]].value))
    && g.records[c[|c| - 1]].tuple.grantor == g.creator
  }

  /** A chain that comes back to a record is a chain without the detour. */
  lemma {:induction false} WithoutDetours(g: Graph, c: seq<nat>) returns (d: seq<nat>)
    requires Honest(g, c)
    ensures Honest(g, d) && d[0] == c[0] && |d| <= |g.records|
    decreases |c|
  {
    hide GrantsOwn;
    if |c| <= |g.records| {
      d := c;
    } else {
      var a, b := Pigeonhole(c, |g.records|);
      var e := c[..a] + c[b..];
      forall k | 0 <= k < |e| - 1
        ensures GrantsOwn(g, e[k + 1], g.records[e[k]].tuple.grantor, g.resolved[e[k]].value)
      {
        if k + 1 < a {
          assert e[k] == c[k] && e[k + 1] == c[k + 1];
        } else if k + 1 == a {
          assert e[k] == c[k] && e[k + 1] == c[b] && c[b] == c[k + 1];
        } else {
          assert e[k] == c[k + (b - a)] && e[k + 1] == c[k + (b - a) + 1];
        }
      }
      assert e[|e| - 1] == c[|c| - 1] && e[0] == c[0];
      d := WithoutDetours(g, e);
    }
  }

  /** All of the chain from `a` on is rooted, and none of it revoked. */
  ghost predicate StandsFrom(g: Graph, s: Snapshot, c: seq<nat>, a: nat) {
    && Fits(g, s) && (forall k :: 0 <= k < |c| ==> c[k] < |g.records| && !s.revoked[c[k]])
    && (forall k :: a <= k < |c| ==> s.rooted[c[k]])
  }

  /** A root pass adds one more record of the chain, and loses none. */
  lemma RootsMore(g: Graph, s: Snapshot, c: seq<nat>, a: nat)
    requires Honest(g, c) && StandsFrom(g, s, c, a)
    ensures forall k :: 0 <= k < |c| && a <= k + 1 ==> Roots(g, s, c[k])
  {
    hide GrantsOwn, OwnAllow;
    forall k | 0 <= k < |c| && a <= k + 1
      ensures Roots(g, s, c[k])
    {
      if k < |c| - 1 {
        var who, path := g.records[c[k]].tuple.grantor, g.resolved[c[k]].value;
        GrantsOwnIs(g, c[k + 1], who, path);
        assert OwnAllow(g, c[k + 1], who, path) && Live(s, c[k + 1]);
      }
    }
  }

  lemma {:induction false} IterateStands(g: Graph, c: seq<nat>, k: nat)
    requires Honest(g, c)
    ensures StandsFrom(g, Iterate(g, k), c, if k <= |c| then |c| - k else 0)
  {
    hide Roots, GrantsOwn;
    if k > 0 {
      IterateStands(g, c, k - 1);
      RootsMore(g, Iterate(g, k - 1), c, if k - 1 <= |c| then |c| - (k - 1) else 0);
      NoneRevoked(g, Iterate(g, k - 1), c);
    }
  }

  lemma NoneRevoked(g: Graph, s: Snapshot, c: seq<nat>)
    requires Honest(g, c) && Fits(g, s)
    ensures forall k :: 0 <= k < |c| ==> !Revokes(g, s, c[k])
  {
    hide GrantsOwn, OwnsPath;
  }

  lemma {:induction false} SettleStands(g: Graph, s: Snapshot, c: seq<nat>, k: nat)
    requires Honest(g, c) && StandsFrom(g, s, c, 0)
    ensures StandsFrom(g, Settle(g, s, k), c, 0)
    decreases k
  {
    hide Roots, GrantsOwn, Honest;
    if k > 0 {
      RootsMore(g, s, c, 0);
      SettleStands(g, Snapshot(RootPass(g, s), s.revoked), c, k - 1);
    }
  }

  lemma ChainAtBound(g: Graph, c: seq<nat>) returns (d: seq<nat>)
    requires Honest(g, c)
    ensures Honest(g, d) && d[0] == c[0]
    ensures forall k: nat :: k >= |g.records| ==> StandsFrom(g, Iterate(g, k), d, 0)
    ensures StandsFrom(g, Pin(g, Iterate(g, Bound(g))), d, 0) && StandsFrom(g, Solution(g), d, 0)
  {
    hide Honest, Iterate, Revokes, Roots;
    HonestSome(g, c);
    d := WithoutDetours(g, c);
    forall k: nat | k >= |g.records|
      ensures StandsFrom(g, Iterate(g, k), d, 0)
    {
      IterateStands(g, d, k);
    }
    SettleStands(g, Pin(g, Iterate(g, Bound(g))), d, |g.records| + 1);
  }

  /** An unrevoked chain from the creator stands, forged cycles and oscillation elsewhere
      notwithstanding. */
  lemma HonestStands(g: Graph, c: seq<nat>)
    requires Honest(g, c)
    ensures Solution(g).rooted[c[0]] && !Solution(g).revoked[c[0]]
  {
    hide Honest, Iterate, Pin, Settle;
    var d := ChainAtBound(g, c);
    assert StandsFrom(g, Solution(g), d, 0);
    HonestSome(g, d);
  }

  lemma HonestSome(g: Graph, c: seq<nat>)
    requires Honest(g, c)
    ensures |c| > 0 && g.Valid() && c[0] < |g.records|
  {
  }

  /** The holder of such a chain revokes whatever lies under what it owns. */
  lemma OwnerRevokes(g: Graph, c: seq<nat>, i: nat, who: nat)
    requires Honest(g, c) && i < |g.records| && who in g.records[i].revokedBy
    requires g.resolved[i].Some? && GrantsOwn(g, c[0], who, g.resolved[i].value)
    ensures Solution(g).revoked[i]
  {
    hide Honest, Iterate, GrantsOwn, OwnAllow, Settle, Roots;
    HonestSome(g, c);
    var d := ChainAtBound(g, c);
    HonestSome(g, d);
    var k := Bound(g);
    GrantsOwnIs(g, c[0], who, g.resolved[i].value);
    LiveOwnerRevokes(g, Iterate(g, k), c[0], i, who);
    LiveOwnerRevokes(g, Iterate(g, k - 1), c[0], i, who);
    IterateOnce(g, k);
    SettleKeepsRevoked(g, Pin(g, Iterate(g, k)), |g.records| + 1);
  }

  lemma IterateOnce(g: Graph, k: nat)
    requires g.Valid() && k > 0
    ensures Iterate(g, k).revoked == RevokePass(g, Iterate(g, k - 1))
  {
  }

  lemma LiveOwnerRevokes(g: Graph, s: Snapshot, j: nat, i: nat, who: nat)
    requires Fits(g, s) && i < |g.records| && j < |g.records| && who in g.records[i].revokedBy
    requires g.resolved[i].Some? && OwnAllow(g, j, who, g.resolved[i].value) && s.rooted[j] && !s.revoked[j]
    ensures Revokes(g, s, i)
  {
    hide OwnAllow;
    assert Live(s, j);
  }

  // ---- without a grant of ownership ----

  /** Some record grants `who` ownership of what `i` is about. */
  ghost predicate OwnsOnRecord(g: Graph, who: nat, i: nat)
    requires g.Valid() && i < |g.records|
  {
    g.resolved[i].Some? && exists j: nat :: j < |g.records| && GrantsOwn(g, j, who, g.resolved[i].value)
  }

  lemma NotOwned(g: Graph, s: Snapshot, who: nat, i: nat)
    requires Fits(g, s) && i < |g.records| && who != g.creator && !OwnsOnRecord(g, who, i) && g.resolved[i].Some?
    ensures !OwnsPath(g, s, who, g.resolved[i].value)
  {
    hide GrantsOwn, OwnAllow;
    forall j: nat | j < |g.records|
      ensures !OwnAllow(g, j, who, g.resolved[i].value)
    {
      GrantsOwnIs(g, j, who, g.resolved[i].value);
    }
  }

  /** A grant by an actor that no record makes an owner of its path is never rooted. */
  lemma StrangerRootsNothing(g: Graph, i: nat)
    requires g.Valid() && i < |g.records|
    requires g.records[i].tuple.grantor != g.creator && !OwnsOnRecord(g, g.records[i].tuple.grantor, i)
    ensures !Solution(g).rooted[i]
  {
    hide OwnsPath, OwnsOnRecord, Iterate, Pin;
    var s := Pin(g, Iterate(g, Bound(g)));
    var n := |g.records|;
    SettleOneMore(g, s, n);
    var t := Settle(g, s, n);
    if g.resolved[i].Some? {
      NotOwned(g, t, g.records[i].tuple.grantor, i);
    }
  }

  lemma {:induction false} SettleOneMore(g: Graph, s: Snapshot, k: nat)
    requires Fits(g, s)
    ensures Settle(g, s, k + 1).rooted == RootPass(g, Settle(g, s, k))
    decreases k
  {
    hide RootPass;
    if k > 0 {
      SettleOneMore(g, Snapshot(RootPass(g, s), s.revoked), k - 1);
    }
  }

  /** Revokes by actors that neither created the document, nor granted the record, nor are made
      owners of its path by any record, count for nothing. */
  lemma StrangerRevokesNothing(g: Graph, i: nat)
    requires g.Valid() && i < |g.records|
    requires forall who :: who in g.records[i].revokedBy ==>
               who != g.creator && who != g.records[i].tuple.grantor && !OwnsOnRecord(g, who, i)
    ensures !Solution(g).revoked[i]
  {
    hide OwnsPath, OwnsOnRecord, Iterate, Settle;
    var s := Iterate(g, Bound(g));
    if g.resolved[i].Some? {
      forall who | who in g.records[i].revokedBy
        ensures !OwnsPath(g, s, who, g.resolved[i].value)
      {
        NotOwned(g, s, who, i);
      }
    }
    assert !Revokes(g, s, i);
    SettleKeepsRevoked(g, Pin(g, s), |g.records| + 1);
  }

  // ---- the verdict, record by record ----

  /** The record speaks of this actor, and of a path that `path` extends. */
  ghost predicate SpeaksOf(g: Graph, i: nat, actor: Querier, path: Path)
    requires g.Valid() && i < |g.records|
  {
    && (match g.records[i].tuple.subject
        case Actor(id) => id == actor.id
        case Group(name) => name in actor.groups
        case Authenticated => actor.authenticated
        case Anonymous => !actor.authenticated
        case Anyone => true)
    && match g.resolved[i] case None => false case Some(p) => |p| <= |path| && path[..|p|] == p
  }

  /** A deny revoked by the creator or by its own grantor denies nothing: where every deny is, the
      creator and whoever a standing allow speaks of are allowed, and everyone else is told
      nothing. */
  lemma AllowedIff(g: Graph, actor: Querier, path: Path, capability: Capability)
    requires g.Valid()
    requires forall i :: 0 <= i < |g.records| && g.records[i].tuple.effect == Deny ==>
               g.creator in g.records[i].revokedBy || g.records[i].tuple.grantor in g.records[i].revokedBy
    ensures var s := Solution(g);
            Verdict(g, s, actor, path, capability) ==
            if actor.id == g.creator || exists i: nat :: Gives(g, s, actor, path, capability, i) then Allowed
            else Abstain
  {
    hide Solution, SpeaksOf, Verdict, Offers, Gives;
    RevokedDenies(g, actor, path, capability);
    forall i: nat
      ensures Gives(g, Solution(g), actor, path, capability, i) <==>
              i < |g.records| && Offers(g, Solution(g), actor, path, capability, i)
    {
      GivesIff(g, Solution(g), actor, path, capability, i);
    }
  }

  /** A rooted, unrevoked allow of the capability or of ownership speaks of the actor here. */
  ghost predicate Gives(g: Graph, s: Snapshot, actor: Querier, path: Path, capability: Capability, i: nat)
    requires Fits(g, s)
  {
    && i < |g.records| && SpeaksOf(g, i, actor, path) && g.records[i].tuple.effect == Allow
    && (g.records[i].tuple.grant == Direct(Own) || g.records[i].tuple.grant == Direct(capability))
    && s.rooted[i] && !s.revoked[i]
  }

  lemma GivesIff(g: Graph, s: Snapshot, actor: Querier, path: Path, capability: Capability, i: nat)
    requires Fits(g, s)
    ensures Gives(g, s, actor, path, capability, i) <==> i < |g.records| && Offers(g, s, actor, path, capability, i)
  {
    hide SpeaksOf;
    if i < |g.records| {
      SpeaksIff(g, i, actor, path);
    }
  }

  lemma SpeaksIff(g: Graph, i: nat, actor: Querier, path: Path)
    requires g.Valid() && i < |g.records|
    ensures SpeaksOf(g, i, actor, path) <==>
            Covers(g.records[i].tuple.subject, actor) && g.resolved[i].Some? && Governs(g.resolved[i].value, path)
  {
  }

  /** Where nothing is allowed, exactly those are denied of whom an unrevoked deny of the capability
      speaks, whoever wrote it. */
  lemma DeniedIff(g: Graph, actor: Querier, path: Path, capability: Capability)
    requires g.Valid() && actor.id != g.creator
    requires forall i :: 0 <= i < |g.records| ==> g.records[i].tuple.effect == Deny
    ensures var s := Solution(g);
            Verdict(g, s, actor, path, capability) ==
            if exists i: nat :: i < |g.records| && SpeaksOf(g, i, actor, path) &&
                 g.records[i].tuple.grant == Direct(capability) && !s.revoked[i]
            then Denied else Abstain
  {
    hide Solution, SpeaksOf, Suppressed;
    forall i: nat | i < |g.records|
      ensures SpeaksOf(g, i, actor, path) <==>
              Covers(g.records[i].tuple.subject, actor) && g.resolved[i].Some? && Governs(g.resolved[i].value, path)
    {
      SpeaksIff(g, i, actor, path);
    }
  }

  // ---- whose deny overrules whose grant ----

  /** A standing record makes `who` owner of `path` by `up`'s grant. */
  ghost predicate Delegated(g: Graph, s: Snapshot, path: Path, who: nat, up: nat)
    requires Fits(g, s)
  {
    exists j: nat :: j < |g.records| && GrantsOwn(g, j, who, path) && s.rooted[j] && !s.revoked[j] &&
                     g.records[j].tuple.grantor == up
  }

  /** From `who` up to `author`, each made an owner of `path` by the next. */
  ghost predicate UpTo(g: Graph, s: Snapshot, path: Path, w: seq<nat>, who: nat, author: nat)
    requires Fits(g, s)
  {
    && |w| > 0 && w[0] == who && w[|w| - 1] == author
    && forall k :: 0 <= k < |w| - 1 ==> Delegated(g, s, path, w[k], w[k + 1])
  }

  lemma DelegatedIs(g: Graph, s: Snapshot, path: Path, who: nat, up: nat)
    requires Fits(g, s)
    ensures Delegated(g, s, path, who, up) <==> Lift(g, s, path, who, up)
  {
    hide GrantsOwn, OwnAllow;
    forall j: nat | j < |g.records|
      ensures GrantsOwn(g, j, who, path) <==> OwnAllow(g, j, who, path)
      ensures Live(s, j) <==> s.rooted[j] && !s.revoked[j]
    {
      GrantsOwnIs(g, j, who, path);
    }
  }

  lemma UpToIs(g: Graph, s: Snapshot, path: Path, who: nat, author: nat)
    requires Fits(g, s)
    ensures (exists w :: UpTo(g, s, path, w, who, author)) <==> Reaches(g, s, path, who, author)
  {
    hide Delegated, Lift;
    forall a, b
      ensures Delegated(g, s, path, a, b) <==> Lift(g, s, path, a, b)
    {
      DelegatedIs(g, s, path, a, b);
    }
    if w :| UpTo(g, s, path, w, who, author) {
      assert Ladder(g, s, path, w);
    }
    if w :| Ladder(g, s, path, w) && w[0] == who && w[|w| - 1] == author {
      assert UpTo(g, s, path, w, who, author);
    }
  }

  /** The author of a deny may overrule a grant by `granter` of what is at `path`. */
  ghost predicate Superior(g: Graph, s: Snapshot, author: nat, granter: nat, path: Path)
    requires Fits(g, s)
  {
    author == g.creator || exists w :: UpTo(g, s, path, w, granter, author)
  }

  lemma SuperiorIs(g: Graph, s: Snapshot, author: nat, granter: nat, path: Path)
    requires Fits(g, s)
    ensures Superior(g, s, author, granter, path) <==> AtOrAbove(g, s, author, granter, path)
  {
    hide UpTo, Reaches;
    UpToIs(g, s, path, granter, author);
  }

  /** An unrevoked deny of the capability speaks of the actor here. */
  ghost predicate Bars(g: Graph, s: Snapshot, actor: Querier, path: Path, capability: Capability, i: nat)
    requires Fits(g, s)
  {
    && i < |g.records| && SpeaksOf(g, i, actor, path) && g.records[i].tuple.effect == Deny
    && g.records[i].tuple.grant == Direct(capability) && !s.revoked[i]
  }

  lemma BarsDenies(g: Graph, s: Snapshot, actor: Querier, path: Path, capability: Capability, i: nat)
    requires Fits(g, s) && Bars(g, s, actor, path, capability, i)
    ensures i < |g.records| && Denial(g, s, actor, path, i) && g.records[i].tuple.grant == Direct(capability)
    ensures forall own :: Relevant(g.records[i].tuple.grant, capability, own)
  {
    hide SpeaksOf;
    SpeaksIff(g, i, actor, path);
  }

  /** An unrevoked deny by the creator binds everyone it speaks of, the creator included. */
  lemma CreatorsDenyBinds(g: Graph, s: Snapshot, actor: Querier, path: Path, capability: Capability, d: nat)
    requires Fits(g, s) && Bars(g, s, actor, path, capability, d) && g.records[d].tuple.grantor == g.creator
    ensures Verdict(g, s, actor, path, capability) == Denied
  {
    hide Bars, Denial, Offers, AtOrAbove, Relevant;
    BarsDenies(g, s, actor, path, capability, d);
    forall granter, p, own
      ensures Suppressed(g, s, actor, path, capability, granter, p, own)
    {
      CreatorAbove(g, s, granter, p);
      assert Relevant(g.records[d].tuple.grant, capability, own);
    }
    assert !CreatorHolds(g, s, actor, path, capability);
    forall i: nat | i < |g.records|
      ensures !Confers(g, s, actor, path, capability, i)
    {
      if Offers(g, s, actor, path, capability, i) {
        OfferedAt(g, s, actor, path, capability, i);
      }
    }
  }

  lemma CreatorAbove(g: Graph, s: Snapshot, granter: nat, path: Path)
    requires Fits(g, s)
    ensures AtOrAbove(g, s, g.creator, granter, path)
  {
  }

  /** A deny binds an actor other than the creator wherever all that is allowed it was granted by
      the deny's author, or by owners whose ownership goes up to that author. */
  lemma SuperiorsDenyBinds(g: Graph, s: Snapshot, actor: Querier, path: Path, capability: Capability, d: nat)
    requires Fits(g, s) && Bars(g, s, actor, path, capability, d) && actor.id != g.creator
    requires forall i: nat :: Gives(g, s, actor, path, capability, i) && g.resolved[i].Some? ==>
               Superior(g, s, g.records[d].tuple.grantor, g.records[i].tuple.grantor, g.resolved[i].value)
    ensures Verdict(g, s, actor, path, capability) == Denied
  {
    hide Bars, Denial, Offers, AtOrAbove, Relevant, Gives, Superior;
    BarsDenies(g, s, actor, path, capability, d);
    forall i: nat | i < |g.records|
      ensures !Confers(g, s, actor, path, capability, i)
    {
      if Offers(g, s, actor, path, capability, i) {
        OfferedAt(g, s, actor, path, capability, i);
        GivesIff(g, s, actor, path, capability, i);
        SuperiorIs(g, s, g.records[d].tuple.grantor, g.records[i].tuple.grantor, g.resolved[i].value);
        assert Relevant(g.records[d].tuple.grant, capability, g.records[i].tuple.grant == Direct(Own));
      }
    }
  }

  /** A grant is not undone by those it does not answer to: where no unrevoked deny that speaks of
      the actor is by the creator or by anyone the grant's own chain of ownership goes up to, the
      grant confers. */
  lemma OthersDenyNothing(g: Graph, s: Snapshot, actor: Querier, path: Path, capability: Capability, i: nat)
    requires Fits(g, s) && Gives(g, s, actor, path, capability, i) && g.resolved[i].Some?
    requires forall d: nat :: d < |g.records| && g.records[d].tuple.effect == Deny && SpeaksOf(g, d, actor, path) &&
                              !s.revoked[d] ==>
               !Superior(g, s, g.records[d].tuple.grantor, g.records[i].tuple.grantor, g.resolved[i].value)
    ensures Verdict(g, s, actor, path, capability) == Allowed
  {
    hide Offers, AtOrAbove, Relevant, Gives, Superior, SpeaksOf;
    GivesIff(g, s, actor, path, capability, i);
    forall d: nat | d < |g.records| && Denial(g, s, actor, path, d)
      ensures !AtOrAbove(g, s, g.Grantor(d), g.Grantor(i), g.resolved[i].value)
    {
      SpeaksIff(g, d, actor, path);
      SuperiorIs(g, s, g.Grantor(d), g.Grantor(i), g.resolved[i].value);
    }
    assert Confers(g, s, actor, path, capability, i);
  }
}
