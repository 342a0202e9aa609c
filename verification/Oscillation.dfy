/** Two record sets, neither with forged provenance, on which the iteration never settles:
    what the evaluator then decides. */
module Oscillation {
  import opened Stamps
  import opened Acl
  import opened Authority
  import opened Provenance
  import opened Delegation
  import opened Decisions

  // ---- an owner gives up its own grant ----

  /** The creator grants `who` ownership of `at`, and `who` revokes it. */
  ghost function GivenUp(creator: nat, who: nat, at: Path): (g: Graph)
    ensures g.Valid() && |g.records| == 1
  {
    Graph([Record(Tuple(0, Actor(who), Direct(Own), Allow, At(at), creator), [who])], [Some(at)], creator)
  }

  lemma GivenUpPass(creator: nat, who: nat, at: Path, s: Snapshot)
    requires who != creator && Fits(GivenUp(creator, who, at), s)
    ensures Pass(GivenUp(creator, who, at), s) == Snapshot([true], [s.rooted[0] && !s.revoked[0]])
  {
    var g := GivenUp(creator, who, at);
    assert OwnAllow(g, 0, who, at) && who in g.records[0].revokedBy;
    assert OwnsPath(g, s, who, at) <==> Live(s, 0);
    assert Revokes(g, s, 0) <==> OwnsPath(g, s, who, at);
    assert Pass(g, s).rooted == [true] && Pass(g, s).revoked == [Live(s, 0)];
  }

  lemma {:induction false} GivenUpSwings(creator: nat, who: nat, at: Path, k: nat)
    requires who != creator && k > 0
    ensures Iterate(GivenUp(creator, who, at), k) == Snapshot([true], [k % 2 == 0])
  {
    hide Pass;
    var g := GivenUp(creator, who, at);
    GivenUpPass(creator, who, at, Iterate(g, k - 1));
    if k > 1 {
      GivenUpSwings(creator, who, at, k - 1);
    }
  }

  /** The revoke strips the very ownership that authorizes it, so it comes and goes with each
      pass, is taken to be in flux, and is disregarded: the owner keeps everything. */
  lemma GivenUpKept(creator: nat, actor: Querier, at: Path, path: Path, capability: Capability)
    requires actor.id != creator && Governs(at, path)
    ensures var g := GivenUp(creator, actor.id, at);
            && (forall k :: !Fixed(g, Iterate(g, k)))
            && Solution(g) == Snapshot([true], [false])
            && Verdict(g, Solution(g), actor, path, capability) == Allowed
  {
    hide Pass, Iterate;
    var g := GivenUp(creator, actor.id, at);
    forall k
      ensures !Fixed(g, Iterate(g, k))
    {
      GivenUpStep(creator, actor.id, at, k);
    }
    GivenUpSolution(creator, actor.id, at);
    assert Offers(g, Solution(g), actor, path, capability, 0);
    assert Confers(g, Solution(g), actor, path, capability, 0);
  }

  lemma GivenUpStep(creator: nat, who: nat, at: Path, k: nat)
    requires who != creator
    ensures !Fixed(GivenUp(creator, who, at), Iterate(GivenUp(creator, who, at), k))
  {
    hide Pass;
    var g := GivenUp(creator, who, at);
    GivenUpPass(creator, who, at, Iterate(g, k));
    if k > 0 {
      GivenUpSwings(creator, who, at, k);
    }
  }

  lemma GivenUpSolution(creator: nat, who: nat, at: Path)
    requires who != creator
    ensures Solution(GivenUp(creator, who, at)) == Snapshot([true], [false])
  {
    hide Iterate;
    var g := GivenUp(creator, who, at);
    GivenUpSwings(creator, who, at, 4);
    GivenUpPass(creator, who, at, Iterate(g, 4));
    var pinned := Pin(g, Iterate(g, 4));
    assert pinned == Snapshot([true], [false]);
    GivenUpPass(creator, who, at, pinned);
    SettleFixed(g, pinned, 2);
  }

  // ---- settling that does not settle ----

  /** The creator (0) grants 1; 1 grants 2; 2 grants 1 back. The creator's grant is revoked by
      both, and 1 revokes what 2 gave it. */
  ghost function Swing(): (g: Graph)
    ensures g.Valid() && |g.records| == 3
  {
    Graph([Record(Tuple(0, Actor(2), Direct(Own), Allow, At([]), 1), []),
           Record(Tuple(1, Actor(1), Direct(Own), Allow, At([]), 0), [2, 1]),
           Record(Tuple(2, Actor(1), Direct(Own), Allow, At([]), 2), [1])],
          [Some([]), Some([]), Some([])], 0)
  }

  lemma SwingOwns(s: Snapshot)
    requires Fits(Swing(), s)
    ensures OwnsPath(Swing(), s, 1, []) == (Live(s, 1) || Live(s, 2))
    ensures OwnsPath(Swing(), s, 2, []) == Live(s, 0)
  {
    var g := Swing();
    assert OwnAllow(g, 1, 1, []) && OwnAllow(g, 2, 1, []) && OwnAllow(g, 0, 2, []);
  }

  lemma SwingRoots(s: Snapshot)
    requires Fits(Swing(), s)
    ensures RootPass(Swing(), s) == [Live(s, 1) || Live(s, 2), true, Live(s, 0)]
  {
    SwingOwns(s);
    assert OwnsPath(Swing(), s, 0, []);
    assert Roots(Swing(), s, 0) == OwnsPath(Swing(), s, 1, []);
    assert Roots(Swing(), s, 2) == OwnsPath(Swing(), s, 2, []);
  }

  lemma SwingRevokes(s: Snapshot)
    requires Fits(Swing(), s)
    ensures RevokePass(Swing(), s) == [false, Live(s, 0) || Live(s, 1) || Live(s, 2), Live(s, 1) || Live(s, 2)]
  {
    var g := Swing();
    SwingOwns(s);
    assert g.records[1].revokedBy == [2, 1] && g.records[2].revokedBy == [1];
    assert 2 in g.records[1].revokedBy && 1 in g.records[1].revokedBy && 1 in g.records[2].revokedBy;
    assert Revokes(g, s, 1) == (OwnsPath(g, s, 2, []) || OwnsPath(g, s, 1, []));
    assert Revokes(g, s, 2) == OwnsPath(g, s, 1, []);
  }

  lemma SwingPass(s: Snapshot)
    requires Fits(Swing(), s)
    ensures Pass(Swing(), s) == Snapshot([Live(s, 1) || Live(s, 2), true, Live(s, 0)],
                                         [false, Live(s, 0) || Live(s, 1) || Live(s, 2), Live(s, 1) || Live(s, 2)])
  {
    hide RootPass, RevokePass;
    SwingRoots(s);
    SwingRevokes(s);
  }

  lemma {:induction false} SwingIterate(k: nat)
    requires k >= 2
    ensures Iterate(Swing(), k) == if k % 2 == 0 then Snapshot([true, true, false], [false, true, true])
                                   else Snapshot([false, true, true], [false, true, false])
  {
    hide Pass, Swing;
    var g := Swing();
    if k == 2 {
      SwingPass(Iterate(g, 0));
      SwingPass(Iterate(g, 1));
      assert Iterate(g, 1) == Pass(g, Iterate(g, 0));
    } else {
      SwingIterate(k - 1);
      SwingPass(Iterate(g, k - 1));
    }
  }

  lemma SwingPin()
    ensures Pin(Swing(), Iterate(Swing(), 8)) == Snapshot([true, true, false], [false, true, false])
  {
    hide Swing, RevokePass, Iterate;
    var g := Swing();
    SwingIterate(8);
    SwingRevokes(Iterate(g, 8));
  }

  lemma {:induction false} SwingSettle(k: nat)
    ensures var end := Settle(Swing(), Snapshot([true, true, false], [false, true, false]), k);
            end == Snapshot(if k % 2 == 0 then [true, true, false] else [false, true, true], [false, true, false])
  {
    hide Swing, RootPass;
    var s := Snapshot([true, true, false], [false, true, false]);
    if k > 0 {
      SwingSettle(k - 1);
      SettleLast(Swing(), s, k);
      SwingRoots(Settle(Swing(), s, k - 1));
    }
  }

  /** Rooting with the pinned revokes swings for ever between actor 2's grant and the one it
      made, neither of which the creator any longer roots; where it stops, and so whether
      actor 2 is allowed, is the parity of the number of passes. */
  lemma VerdictByPassCount(path: Path, capability: Capability)
    ensures var g, actor := Swing(), Querier(2, [], [], true);
            var pinned := Pin(g, Iterate(g, Bound(g)));
            && Standing(g, pinned.revoked) == {1}
            && Solution(g) == Settle(g, pinned, 4)
            && Verdict(g, Settle(g, pinned, 4), actor, path, capability) == Allowed
            && Verdict(g, Settle(g, pinned, 5), actor, path, capability) == Abstain
            && !EvenEnds(g, pinned)
  {
    hide Iterate, Pin, Settle, Standing, EvenEnds;
    SwingPin();
    SwingSettle(4);
    SwingSettle(5);
    SwingStanding();
    SwingVerdicts(path, capability);
    StopsIff(Swing(), Pin(Swing(), Iterate(Swing(), Bound(Swing()))));
  }

  lemma SwingStanding()
    ensures Standing(Swing(), [false, true, false]) == {1}
  {
    SwingGround(3);
  }

  lemma {:induction false} SwingGround(k: nat)
    requires k > 0
    ensures Ground(Swing(), [false, true, false], k) == {1}
  {
    hide Base, Supports;
    var g, off := Swing(), [false, true, false];
    SwingSupports();
    if k > 1 {
      SwingGround(k - 1);
    }
  }

  lemma SwingSupports()
    ensures forall i: nat :: i < 3 ==> (Base(Swing(), i) <==> i == 1)
    ensures forall i: nat :: i < 3 ==> !Supports(Swing(), [false, true, false], i, 1)
  {
  }

  lemma SwingUndenied(s: Snapshot, path: Path, i: nat)
    requires Fits(Swing(), s) && i < 3
    ensures !Denial(Swing(), s, Querier(2, [], [], true), path, i)
  {
  }

  lemma SwingAllowed(path: Path, capability: Capability)
    ensures var s := Snapshot([true, true, false], [false, true, false]);
            Verdict(Swing(), s, Querier(2, [], [], true), path, capability) == Allowed
  {
    hide Denial;
    var g, actor, s := Swing(), Querier(2, [], [], true), Snapshot([true, true, false], [false, true, false]);
    forall i: nat | i < 3
      ensures !Denial(g, s, actor, path, i)
    {
      SwingUndenied(s, path, i);
    }
    assert Confers(g, s, actor, path, capability, 0);
  }

  lemma SwingAbstains(path: Path, capability: Capability)
    ensures var t := Snapshot([false, true, true], [false, true, false]);
            Verdict(Swing(), t, Querier(2, [], [], true), path, capability) == Abstain
  {
    hide Denial, Suppressed;
    var g, actor, t := Swing(), Querier(2, [], [], true), Snapshot([false, true, true], [false, true, false]);
    forall i: nat | i < 3
      ensures !Offers(g, t, actor, path, capability, i) && !Denial(g, t, actor, path, i)
    {
      SwingUndenied(t, path, i);
    }
  }

  lemma SwingVerdicts(path: Path, capability: Capability)
    ensures var g, actor, off := Swing(), Querier(2, [], [], true), [false, true, false];
            && Verdict(g, Snapshot([true, true, false], off), actor, path, capability) == Allowed
            && Verdict(g, Snapshot([false, true, true], off), actor, path, capability) == Abstain
  {
    hide Verdict;
    SwingAllowed(path, capability);
    SwingAbstains(path, capability);
  }
}
