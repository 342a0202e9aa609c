/** Filtered delivery: a group that loses a member on the way is sent untagged, so nobody
    waits on it. */
module Delivery {
  import opened Stamps
  import opened Groups
  import opened Buffers
  import opened Documents

  /** The keys of the groups with a member among the ops not delivered. */
  method SplitGroups(dropped: seq<Op>) returns (split: set<Key>)
    ensures forall k :: k in split <==> exists op :: op in dropped && InGroup(op, k)
  {
    split := {};
    var i := 0;
    while i < |dropped|
      invariant 0 <= i <= |dropped|
      invariant forall k :: k in split <==> exists j :: 0 <= j < i && InGroup(dropped[j], k)
    {
      if dropped[i].tx.Some? {
        split := split + {KeyOf(dropped[i])};
        assert InGroup(dropped[i], KeyOf(dropped[i]));
      }
      i := i + 1;
    }
  }

  /** Clear the tag of every op in a split group, in place. */
  method DestrandSplit(ops: array<Op>, split: set<Key>)
    modifies ops
    ensures ops[..] == UntagAll(old(ops[..]), split)
  {
    if split == {} {
      assert ops[..] == UntagAll(ops[..], split);
      return;
    }
    var i := 0;
    while i < ops.Length
      invariant 0 <= i <= ops.Length
      invariant forall j :: 0 <= j < i ==> ops[j] == Untag(old(ops[j]), split)
      invariant forall j :: i <= j < ops.Length ==> ops[j] == old(ops[j])
    {
      if ops[i].tx.Some? && KeyOf(ops[i]) in split {
        ops[i] := ops[i].(tx := None);
      }
      i := i + 1;
    }
  }

  /** Every group in the batch is all there and agrees on its size. */
  ghost predicate Whole(batch: set<Op>) {
    forall op :: op in batch && op.tx.Some? ==> Complete(Members(batch, KeyOf(op)))
  }

  /** What is sent: the ops kept, untagged where their group was split. */
  ghost function Sent(kept: set<Op>, split: set<Key>): set<Op> {
    set op | op in kept :: Untag(op, split)
  }

  ghost predicate Names(split: set<Key>, dropped: set<Op>) {
    forall k :: k in split <==> Members(dropped, k) != {}
  }

  /** A group carried whole keeps every member and its tag; a split one keeps no tag. */
  lemma SentGroup(kept: set<Op>, dropped: set<Op>, split: set<Key>, k: Key)
    requires Names(split, dropped)
    ensures k !in split ==> Members(Sent(kept, split), k) == Members(kept + dropped, k)
    ensures k in split ==> Members(Sent(kept, split), k) == {}
  {
    var sent := Sent(kept, split);
    forall op
      ensures k !in split ==> (op in Members(sent, k) <==> op in Members(kept + dropped, k))
      ensures k in split ==> op !in Members(sent, k)
    {
      if op in Members(sent, k) {
        var source :| source in kept && op == Untag(source, split);
      }
      if k !in split && op in Members(kept + dropped, k) {
        assert op in dropped ==> op in Members(dropped, k);
        assert Untag(op, split) == op;
      }
    }
  }

  /** So every group that arrives tagged arrives complete. */
  lemma SentResolves(kept: set<Op>, dropped: set<Op>, split: set<Key>, op: Op)
    requires Whole(kept + dropped) && Names(split, dropped) && op in Sent(kept, split) && op.tx.Some?
    ensures Spent(Sent(kept, split), KeyOf(op))
  {
    hide Unanimous, Names;
    var k, sent := KeyOf(op), Sent(kept, split);
    SentGroup(kept, dropped, split, k);
    assert op in Members(sent, k);
    assert op in kept + dropped;
    CompleteResolves(Members(sent, k));
  }

  lemma CompleteResolves(ms: set<Op>)
    requires Complete(ms) && ms != {}
    ensures Resolves(ms)
  {
    var op :| op in ms;
  }

  /** A settled replica that has received just what was sent holds nothing under a tag. */
  lemma NoneStranded(doc: Document, kept: set<Op>, dropped: set<Op>, split: set<Key>)
    requires doc.Valid() && doc.Settled() && doc.Tracks(Sent(kept, split))
    requires Whole(kept + dropped) && Names(split, dropped)
    ensures forall o :: o in Bag(doc.buffer) ==> o.tx.None?
  {
    hide Quiet, Applied, Tracking, BufferValid, Whole, Names, Spent, Sent, ClocksOf, HighOf, Bag;
    var d := Sent(kept, split);
    SettledState(doc, d);
    forall o | o in Bag(doc.buffer)
      ensures o.tx.None?
    {
      var op :| op in d && op.id !in Applied(doc.ready, d) && o == Untag(op, SpentKeys(d));
      if op.tx.Some? {
        SentResolves(kept, dropped, split, op);
        InSpentKeys(d, KeyOf(op));
      }
    }
  }

  /** Filter a batch of whole groups, destrand the survivors and fold them, in whatever order
      they are given, at a fresh replica: every survivor arrives, nothing is left waiting on a
      group, and each group carried whole arrives with its tags. */
  method DeliverFiltered(gate: Ready, who: nat, ops: array<Op>, dropped: seq<Op>) returns (doc: Document)
    requires Monotone(gate) && SingleEnvelope(Bag(ops[..]) + Bag(dropped)) && Whole(Bag(ops[..]) + Bag(dropped))
    requires AllAdmissible(Bag(ops[..]))
    modifies ops
    ensures doc.Valid() && doc.Settled() && forall o :: o in Bag(doc.buffer) ==> o.tx.None?
    ensures doc.Tracks(Bag(ops[..])) && Ids(Bag(ops[..])) == Ids(Bag(old(ops[..])))
    ensures forall k :: Members(Bag(dropped), k) == {} ==> Members(Bag(ops[..]), k) == Members(Bag(old(ops[..])), k)
    ensures forall k :: Members(Bag(dropped), k) != {} ==> Members(Bag(ops[..]), k) == {}
  {
    hide Quiet, Applied, Tracking, BufferValid, Whole, SingleEnvelope, Bag, Covered, HighAt, AllAdmissible, UntagAll,
         Monotone;
    ghost var kept := Bag(ops[..]);
    ghost var before := ops[..];
    var split := SplitGroups(dropped);
    DroppedNames(dropped, split);
    DestrandSplit(ops, split);
    UntagFacts(before, split);
    assert Bag(ops[..]) == Sent(kept, split);
    forall k
      ensures Members(Bag(dropped), k) == {} ==> Members(Bag(ops[..]), k) == Members(kept, k)
      ensures Members(Bag(dropped), k) != {} ==> Members(Bag(ops[..]), k) == {}
    {
      SentGroup(kept, Bag(dropped), split, k);
      MembersJoin(kept, Bag(dropped), k);
    }
    SentSound(kept, Bag(dropped), split);
    doc := new Document(who, gate);
    assert {} + Bag(ops[..]) == Bag(ops[..]);
    doc.Deliver(ops[..], {});
    assert {} + Admitted(Bag(ops[..])) == Bag(ops[..]);
    NoneStranded(doc, kept, Bag(dropped), split);
  }

  lemma DroppedNames(dropped: seq<Op>, split: set<Key>)
    requires forall k :: k in split <==> exists op :: op in dropped && InGroup(op, k)
    ensures Names(split, Bag(dropped))
  {
    forall op ensures op in dropped <==> op in Bag(dropped) {}
    forall k
      ensures k in split <==> Members(Bag(dropped), k) != {}
    {
      if op :| op in dropped && InGroup(op, k) {
        assert op in Members(Bag(dropped), k);
      }
      if Members(Bag(dropped), k) != {} {
        var op :| op in Members(Bag(dropped), k);
        assert op in dropped && InGroup(op, k);
      }
    }
  }

  lemma MembersJoin(kept: set<Op>, dropped: set<Op>, k: Key)
    ensures Members(kept + dropped, k) == Members(kept, k) + Members(dropped, k)
  {
  }

  lemma SentSound(kept: set<Op>, dropped: set<Op>, split: set<Key>)
    requires SingleEnvelope(kept + dropped) && AllAdmissible(kept)
    ensures SingleEnvelope(Sent(kept, split)) && Admitted(Sent(kept, split)) == Sent(kept, split)
  {
    hide Reach;
    var sent := Sent(kept, split);
    forall a, b | a in sent && b in sent && a.id == b.id
      ensures a == b
    {
      var x :| x in kept && a == Untag(x, split);
      var y :| y in kept && b == Untag(y, split);
      assert x in kept + dropped && y in kept + dropped;
    }
    forall op | op in sent
      ensures IsAdmissible(op)
    {
      var x :| x in kept && op == Untag(x, split);
      UntagAdmissible(x, split);
    }
  }

  lemma UntagAdmissible(op: Op, split: set<Key>)
    requires IsAdmissible(op)
    ensures IsAdmissible(Untag(op, split))
  {
  }
}
