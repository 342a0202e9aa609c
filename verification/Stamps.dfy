/** Stamps, sides and anchors: the identities a sequence is built from, and the
    total orders that break ties between them. */
module Stamps {

  /** One past the largest value of a 64-bit counter. */
  const U64_LIMIT: nat := 0x1_0000_0000_0000_0000

  datatype Option<+T> = None | Some(value: T)

  /** A CRDT id. A client is a 128-bit UUID, read as the number its bytes spell. */
  datatype Stamp = Stamp(lamport: nat, client: nat, offset: nat)

  datatype Side = Left | Right

  /** Where an item hangs in the sequence tree: under a parent (or the root) and
      on one side of it. */
  datatype Anchor = Anchor(parent: Option<Stamp>, side: Side)

  /** The stamp order: lamport, then client, then offset. */
  predicate Less(a: Stamp, b: Stamp) {
    || a.lamport < b.lamport
    || (a.lamport == b.lamport && a.client < b.client)
    || (a.lamport == b.lamport && a.client == b.client && a.offset < b.offset)
  }

  predicate AtMost(a: Stamp, b: Stamp) {
    a == b || Less(a, b)
  }

  /** The storage order of a sequence's maps: client, then offset, then lamport,
      so the ids of one deleted run are neighbours. */
  predicate KeyAtMost(a: Stamp, b: Stamp) {
    || a.client < b.client
    || (a.client == b.client && a.offset < b.offset)
    || (a.client == b.client && a.offset == b.offset && a.lamport <= b.lamport)
  }

  /** The order on parents: the root before every id. */
  predicate ParentLess(a: Option<Stamp>, b: Option<Stamp>) {
    match (a, b)
    case (None, Some(_)) => true
    case (Some(x), Some(y)) => Less(x, y)
    case (_, None) => false
  }

  /** The order on anchors: parent first, then left before right. */
  predicate AnchorLess(a: Anchor, b: Anchor) {
    ParentLess(a.parent, b.parent) || (a.parent == b.parent && a.side == Left && b.side == Right)
  }

  function MinAnchor(a: Anchor, b: Anchor): Anchor {
    if AnchorLess(b, a) then b else a
  }

  lemma LessTotal(a: Stamp, b: Stamp)
    ensures !(Less(a, b) && Less(b, a)) && (a == b || Less(a, b) || Less(b, a))
  {
  }

  lemma AnchorTotal(a: Anchor, b: Anchor)
    ensures !(AnchorLess(a, b) && AnchorLess(b, a)) && (a == b || AnchorLess(a, b) || AnchorLess(b, a))
  {
  }

  lemma AnchorTransitive(a: Anchor, b: Anchor, c: Anchor)
    requires AnchorLess(a, b) && AnchorLess(b, c)
    ensures AnchorLess(a, c)
  {
  }
}
