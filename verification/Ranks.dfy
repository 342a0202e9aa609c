/** The orders that settle every contest, spelled out field by field, and the contests they
    settle: which claim an id shows, where its tombstone stays, where a placed node sits. */
module Ranks {
  import opened Stamps
  import opened Bytes
  import opened Codec
  import opened Lists
  import opened Convergence
  import P = Placements

  /** By lamport, then client, then offset. */
  ghost predicate Earlier(a: Stamp, b: Stamp) {
    || a.lamport < b.lamport
    || (a.lamport == b.lamport && a.client < b.client)
    || (a.lamport == b.lamport && a.client == b.client && a.offset < b.offset)
  }

  lemma EarlierIs(a: Stamp, b: Stamp)
    ensures Earlier(a, b) <==> Less(a, b)
  {
  }

  /** The root before any parent, then the earlier parent, then left before right. */
  ghost predicate EarlierAnchor(a: Anchor, b: Anchor) {
    match (a.parent, b.parent)
    case (None, Some(_)) => true
    case (Some(_), None) => false
    case (None, None) => a.side == Left && b.side == Right
    case (Some(x), Some(y)) => Earlier(x, y) || (x == y && a.side == Left && b.side == Right)
  }

  lemma EarlierAnchorIs(a: Anchor, b: Anchor)
    ensures EarlierAnchor(a, b) <==> AnchorLess(a, b)
  {
  }

  /** After what they share, `a` ends or has the lesser byte. */
  ghost predicate EarlierBytes(a: seq<Byte>, b: seq<Byte>) {
    exists k: nat :: EarlierFrom(a, b, k)
  }

  ghost predicate EarlierFrom(a: seq<Byte>, b: seq<Byte>, k: nat) {
    k <= |a| && k < |b| && a[..k] == b[..k] && (k == |a| || a[k] < b[k])
  }

  lemma {:induction false} EarlierBytesIs(a: seq<Byte>, b: seq<Byte>)
    ensures EarlierBytes(a, b) <==> LexLess(a, b)
    decreases |a|
  {
    if a != [] && b != [] && a[0] == b[0] {
      EarlierBytesIs(a[1..], b[1..]);
      if k: nat :| EarlierFrom(a, b, k) {
        assert k > 0 && a[1..][..k - 1] == a[..k][1..] && b[1..][..k - 1] == b[..k][1..];
        assert EarlierFrom(a[1..], b[1..], k - 1);
      }
      if k: nat :| EarlierFrom(a[1..], b[1..], k) {
        assert a[..k + 1] == [a[0]] + a[1..][..k] && b[..k + 1] == [b[0]] + b[1..][..k];
        assert EarlierFrom(a, b, k + 1);
      }
    } else {
      if LexLess(a, b) {
        assert EarlierFrom(a, b, 0);
      }
      forall k: nat | EarlierFrom(a, b, k)
        ensures k > 0 ==> a != [] && b != [] && a[0] == b[0]
      {
        SameFirst(a, b, k);
      }
    }
  }

  lemma SameFirst(a: seq<Byte>, b: seq<Byte>, k: nat)
    requires EarlierFrom(a, b, k)
    ensures k > 0 ==> a != [] && b != [] && a[0] == b[0]
  {
    if k > 0 {
      assert a[..k][0] == b[..k][0];
    }
  }

  /** A scalar before any composite, composites by kind; then the earlier anchor; then the
      earlier encoding. */
  ghost predicate Stronger(c: Claim, d: Claim)
    requires ElementFits(c.value) && ElementFits(d.value)
  {
    match (c.value, d.value)
    case (Leaf(_), Composite(_, _)) => true
    case (Composite(_, _), Leaf(_)) => false
    case (Leaf(_), Leaf(_)) => StrongerAlike(c, d)
    case (Composite(k, _), Composite(l, _)) => k < l || (k == l && StrongerAlike(c, d))
  }

  ghost predicate StrongerAlike(c: Claim, d: Claim)
    requires ElementFits(c.value) && ElementFits(d.value)
  {
    || EarlierAnchor(c.anchor, d.anchor)
    || (c.anchor == d.anchor && EarlierBytes(PutElement(c.value), PutElement(d.value)))
  }

  lemma StrongerIs(c: Claim, d: Claim)
    requires ElementFits(c.value) && ElementFits(d.value)
    ensures Stronger(c, d) <==> ClaimLess(c, d)
  {
    hide EarlierAnchor, AnchorLess, EarlierBytes, LexLess, PutElement;
    EarlierAnchorIs(c.anchor, d.anchor);
    EarlierBytesIs(PutElement(c.value), PutElement(d.value));
  }

  // ---- contests over an id ----

  /** The strongest claim made on an id no delete names is what the id shows, in every order. */
  lemma StrongestShows(ops: seq<Op>, id: Stamp, c: Claim)
    requires AllFit(ops) && Causal(ops) && Insert(id, c) in ops && Delete(id) !in ops
    requires ElementFits(c.value)
    requires forall d :: Insert(id, d) in ops && d != c ==> ElementFits(d.value) && Stronger(c, d)
    ensures id in Fold(ops) && Fold(ops)[id] == Live(c, false)
  {
    hide Stronger, ClaimLess, Fold;
    FoldExplained(ops, id);
    var cs := Claims(OpSet(ops), id);
    ClaimsAre(ops, id);
    forall d | d in cs && d != c
      ensures ClaimLess(c, d) && !ClaimLess(d, c)
    {
      StrongerIs(c, d);
      ClaimTotal(c, d);
    }
    assert c in cs && !Deleted(OpSet(ops), id);
  }

  lemma ClaimsAre(ops: seq<Op>, id: Stamp)
    ensures forall c :: c in Claims(OpSet(ops), id) <==> Insert(id, c) in ops
    ensures Deleted(OpSet(ops), id) <==> Delete(id) in ops
  {
    forall op
      ensures op in OpSet(ops) <==> op in ops
    {
      if op in ops {
        var i :| 0 <= i < |ops| && ops[i] == op;
      }
    }
    forall c
      ensures c in Claims(OpSet(ops), id) <==> Insert(id, c) in ops
    {
      if Insert(id, c) in ops {
        assert Insert(id, c) in OpSet(ops);
      }
    }
  }

  /** Where the strongest claim on a deleted id also names the earliest anchor, the tombstone
      stays there. */
  lemma TombstoneStays(ops: seq<Op>, id: Stamp, c: Claim)
    requires AllFit(ops) && Causal(ops) && Insert(id, c) in ops && Delete(id) in ops
    requires ElementFits(c.value)
    requires forall d :: Insert(id, d) in ops && d != c ==>
               ElementFits(d.value) && Stronger(c, d) && (c.anchor == d.anchor || EarlierAnchor(c.anchor, d.anchor))
    ensures id in Fold(ops) && Fold(ops)[id] == Dead(c.anchor)
  {
    hide Stronger, ClaimLess, Fold, EarlierAnchor, AnchorLess;
    FoldExplained(ops, id);
    var cs := Claims(OpSet(ops), id);
    ClaimsAre(ops, id);
    forall d | d in cs && d != c
      ensures ClaimLess(c, d) && !ClaimLess(d, c) && !AnchorLess(d.anchor, c.anchor)
      ensures c.anchor == d.anchor || AnchorLess(c.anchor, d.anchor)
    {
      StrongerIs(c, d);
      ClaimTotal(c, d);
      EarlierAnchorIs(c.anchor, d.anchor);
      AnchorTotal(c.anchor, d.anchor);
    }
    AnchorTotal(c.anchor, c.anchor);
    assert c in cs && Deleted(OpSet(ops), id);
  }

  /** A placed node sits at the earliest of the anchors it asked for at its key. */
  lemma SeatIsEarliest(derive: P.Derive, asked: set<P.Asked>, index: map<P.Key, nat>, seats: map<P.Key, Anchor>,
                       a: P.Asked)
    requires P.HoldersBest(derive, asked, index, seats) && a in asked && index[a.key] == a.node
    ensures a.key in seats && (seats[a.key] == a.anchor || EarlierAnchor(seats[a.key], a.anchor))
  {
    hide EarlierAnchor, AnchorLess;
    assert P.Nearest(asked, a.key, a.node, seats[a.key]);
    EarlierAnchorIs(seats[a.key], a.anchor);
  }
}
