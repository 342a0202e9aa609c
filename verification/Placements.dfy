/** Where movable nodes sit: one holder for each position key, one record for each key a node
    holds, and every node born in a sequence or revealed either placed or waiting. */
module Placements {
  import opened Stamps
  import opened Collections
  import T = TreeMoves

  datatype Kind = Tagged | Tagless

  /** A position: the children list and the stamp of the op that asked for it. */
  datatype Key = Key(list: nat, stamp: Stamp)

  datatype Claim = Fresh | Joined | Evicted | Refused

  datatype Edge = Edge(child: nat, parent: nat)

  /** The id of the child an insert at a key makes. */
  type Derive = (Key, Kind) -> nat

  /** A claim on record: who asked for the key, and where it asked to sit. */
  datatype Asked = Asked(key: Key, node: nat, anchor: Anchor)

  // ---- rank ----

  /** A key derives exactly two children, one of each kind. */
  predicate BornAt(derive: Derive, key: Key, node: nat) {
    derive(key, Tagged) == node || derive(key, Tagless) == node
  }

  /** A node born at the key goes before one moved there; then the smaller id. */
  predicate Outranks(derive: Derive, key: Key, a: nat, b: nat) {
    match (BornAt(derive, key, a), BornAt(derive, key, b))
    case (true, false) => true
    case (false, true) => false
    case _ => a < b
  }

  lemma OutranksTotal(derive: Derive, key: Key, a: nat, b: nat, c: nat)
    ensures !(Outranks(derive, key, a, b) && Outranks(derive, key, b, a))
    ensures a != b ==> Outranks(derive, key, a, b) || Outranks(derive, key, b, a)
    ensures Outranks(derive, key, a, b) && Outranks(derive, key, b, c) ==> Outranks(derive, key, a, c)
  {
  }

  // ---- who holds what ----

  /** `node` is the best-ranked of those who asked for `key`. */
  ghost predicate Best(derive: Derive, asked: set<Asked>, key: Key, node: nat) {
    && (exists a :: a in asked && a.key == key && a.node == node)
    && (forall a :: a in asked && a.key == key ==> a.node == node || Outranks(derive, key, node, a.node))
  }

  /** `anchor` is the least place `node` asked for at `key`. */
  ghost predicate Nearest(asked: set<Asked>, key: Key, node: nat, anchor: Anchor) {
    && Asked(key, node, anchor) in asked
    && (forall a :: a in asked && a.key == key && a.node == node ==> a.anchor == anchor || AnchorLess(anchor, a.anchor))
  }

  ghost predicate HoldersBest(derive: Derive, asked: set<Asked>, index: map<Key, nat>, seats: map<Key, Anchor>) {
    && seats.Keys == index.Keys
    && (forall a :: a in asked ==> a.key in index)
    && (forall key :: key in index ==>
          Best(derive, asked, key, index[key]) && Nearest(asked, key, index[key], seats[key]))
  }

  /** What the claims themselves decide is all there is to know of the holders. */
  lemma HoldersUnique(derive: Derive, asked: set<Asked>, index: map<Key, nat>, seats: map<Key, Anchor>,
                      index': map<Key, nat>, seats': map<Key, Anchor>)
    requires HoldersBest(derive, asked, index, seats) && HoldersBest(derive, asked, index', seats')
    ensures index == index' && seats == seats'
  {
    hide AnchorLess, Outranks;
    forall key
      ensures key in index <==> key in index'
      ensures key in index ==> index[key] == index'[key] && seats[key] == seats'[key]
    {
      if key in index {
        BestUnique(derive, asked, key, index[key], index'[key]);
        NearestUnique(asked, key, index[key], seats[key], seats'[key]);
      }
    }
    assert seats.Keys == seats'.Keys;
  }

  /** A key is held by the least id of the nodes born there that asked for it, and if none of
      them did, by the least of all that asked. */
  lemma HolderIsLeast(derive: Derive, asked: set<Asked>, index: map<Key, nat>, seats: map<Key, Anchor>, a: Asked)
    requires HoldersBest(derive, asked, index, seats) && a in asked
    ensures var key := a.key; var holder := index[key];
            && (exists b :: b in asked && b.key == key && b.node == holder)
            && ((forall b :: b in asked && b.key == key ==>
                   b.node != derive(key, Tagged) && b.node != derive(key, Tagless)) ==> holder <= a.node)
            && (a.node == derive(key, Tagged) || a.node == derive(key, Tagless) ==>
                  (holder == derive(key, Tagged) || holder == derive(key, Tagless)) && holder <= a.node)
  {
    hide Nearest;
    assert Best(derive, asked, a.key, index[a.key]);
  }

  lemma BestUnique(derive: Derive, asked: set<Asked>, key: Key, a: nat, b: nat)
    requires Best(derive, asked, key, a) && Best(derive, asked, key, b)
    ensures a == b
  {
    hide Outranks;
    OutranksTotal(derive, key, a, b, a);
  }

  lemma NearestUnique(asked: set<Asked>, key: Key, node: nat, a: Anchor, b: Anchor)
    requires Nearest(asked, key, node, a) && Nearest(asked, key, node, b)
    ensures a == b
  {
    AnchorTotal(a, b);
  }

  /** How a claim on a key is answered. */
  function Answer(derive: Derive, index: map<Key, nat>, key: Key, node: nat): Claim {
    if key !in index then Fresh
    else if index[key] == node then Joined
    else if Outranks(derive, key, node, index[key]) then Evicted
    else Refused
  }

  function SeatAfter(claim: Claim, seats: map<Key, Anchor>, key: Key, anchor: Anchor): map<Key, Anchor>
    requires claim == Joined ==> key in seats
  {
    match claim
    case Refused => seats
    case Joined => seats[key := MinAnchor(anchor, seats[key])]
    case _ => seats[key := anchor]
  }

  /** Answering a claim keeps the best claimant in place, at the nearest place it asked for. */
  lemma AnswerKeepsBest(derive: Derive, asked: set<Asked>, index: map<Key, nat>, seats: map<Key, Anchor>, key: Key,
                        node: nat, anchor: Anchor)
    requires HoldersBest(derive, asked, index, seats)
    ensures var claim := Answer(derive, index, key, node);
            var index' := if claim == Refused then index else index[key := node];
            HoldersBest(derive, asked + {Asked(key, node, anchor)}, index', SeatAfter(claim, seats, key, anchor))
  {
    hide Best, Nearest, Outranks, AnchorLess, MinAnchor;
    var asked' := asked + {Asked(key, node, anchor)};
    var claim := Answer(derive, index, key, node);
    var index' := if claim == Refused then index else index[key := node];
    var seats' := SeatAfter(claim, seats, key, anchor);
    forall k | k in index'
      ensures Best(derive, asked', k, index'[k]) && Nearest(asked', k, index'[k], seats'[k])
    {
      if k != key {
        BestElsewhere(derive, asked, k, index[k], seats[k], Asked(key, node, anchor));
      } else {
        BestHere(derive, asked, index, seats, key, node, anchor);
      }
    }
  }

  lemma BestElsewhere(derive: Derive, asked: set<Asked>, key: Key, holder: nat, seat: Anchor, more: Asked)
    requires Best(derive, asked, key, holder) && Nearest(asked, key, holder, seat) && more.key != key
    ensures Best(derive, asked + {more}, key, holder) && Nearest(asked + {more}, key, holder, seat)
  {
    hide Outranks, AnchorLess;
    var a :| a in asked && a.key == key && a.node == holder;
    assert a in asked + {more};
  }

  lemma BestHere(derive: Derive, asked: set<Asked>, index: map<Key, nat>, seats: map<Key, Anchor>, key: Key, node: nat,
                 anchor: Anchor)
    requires HoldersBest(derive, asked, index, seats)
    ensures var claim := Answer(derive, index, key, node);
            var asked' := asked + {Asked(key, node, anchor)};
            var holder := if claim == Refused then index[key] else node;
            Best(derive, asked', key, holder) && Nearest(asked', key, holder, SeatAfter(claim, seats, key, anchor)[key])
  {
    hide Outranks, AnchorLess, HoldersBest;
    var claim := Answer(derive, index, key, node);
    match claim {
      case Fresh =>
        FreshBest(derive, asked, index, seats, key, node, anchor);
      case Joined =>
        HeldBest(derive, asked, index, seats, key);
        JoinedBest(derive, asked, key, node, seats[key], anchor);
      case Evicted =>
        HeldBest(derive, asked, index, seats, key);
        EvictedBest(derive, asked, key, node, index[key], anchor);
      case Refused =>
        HeldBest(derive, asked, index, seats, key);
        RefusedBest(derive, asked, key, node, index[key], seats[key], anchor);
    }
  }

  lemma HeldBest(derive: Derive, asked: set<Asked>, index: map<Key, nat>, seats: map<Key, Anchor>, key: Key)
    requires HoldersBest(derive, asked, index, seats) && key in index
    ensures key in seats && Best(derive, asked, key, index[key]) && Nearest(asked, key, index[key], seats[key])
  {
  }

  lemma FreshBest(derive: Derive, asked: set<Asked>, index: map<Key, nat>, seats: map<Key, Anchor>, key: Key, node: nat,
                  anchor: Anchor)
    requires HoldersBest(derive, asked, index, seats) && key !in index
    ensures var asked' := asked + {Asked(key, node, anchor)};
            Best(derive, asked', key, node) && Nearest(asked', key, node, anchor)
  {
    hide Outranks, AnchorLess;
    assert Asked(key, node, anchor) in asked + {Asked(key, node, anchor)};
  }

  lemma JoinedBest(derive: Derive, asked: set<Asked>, key: Key, node: nat, seat: Anchor, anchor: Anchor)
    requires Best(derive, asked, key, node) && Nearest(asked, key, node, seat)
    ensures var asked' := asked + {Asked(key, node, anchor)};
            Best(derive, asked', key, node) && Nearest(asked', key, node, MinAnchor(anchor, seat))
  {
    hide Outranks, AnchorLess;
    var asked' := asked + {Asked(key, node, anchor)};
    assert Asked(key, node, anchor) in asked' && Asked(key, node, seat) in asked';
    AnchorTotal(anchor, seat);
    var best := MinAnchor(anchor, seat);
    forall a | a in asked' && a.key == key && a.node == node
      ensures a.anchor == best || AnchorLess(best, a.anchor)
    {
      if a in asked && best == anchor && a.anchor != seat && anchor != seat {
        AnchorTransitive(anchor, seat, a.anchor);
      }
    }
  }

  lemma EvictedBest(derive: Derive, asked: set<Asked>, key: Key, node: nat, held: nat, anchor: Anchor)
    requires Best(derive, asked, key, held) && Outranks(derive, key, node, held)
    ensures var asked' := asked + {Asked(key, node, anchor)};
            Best(derive, asked', key, node) && Nearest(asked', key, node, anchor)
  {
    hide Outranks, AnchorLess;
    var asked' := asked + {Asked(key, node, anchor)};
    assert Asked(key, node, anchor) in asked';
    forall a | a in asked && a.key == key
      ensures a.node != node && Outranks(derive, key, node, a.node)
    {
      OutranksTotal(derive, key, node, held, a.node);
      OutranksTotal(derive, key, held, node, held);
    }
  }

  lemma RefusedBest(derive: Derive, asked: set<Asked>, key: Key, node: nat, held: nat, seat: Anchor, anchor: Anchor)
    requires Best(derive, asked, key, held) && Nearest(asked, key, held, seat) && node != held
    requires !Outranks(derive, key, node, held)
    ensures var asked' := asked + {Asked(key, node, anchor)};
            Best(derive, asked', key, held) && Nearest(asked', key, held, seat)
  {
    hide Outranks, AnchorLess;
    OutranksTotal(derive, key, node, held, node);
    var a :| a in asked && a.key == key && a.node == held;
    assert a in asked + {Asked(key, node, anchor)};
  }

  // ---- records ----

  /** The index and the per-node records are exact inverses. */
  ghost predicate Inverse(records: map<nat, seq<Key>>, index: map<Key, nat>) {
    && (forall n :: n in records ==> records[n] != [] && Distinct(records[n]))
    && (forall n, k :: n in records && k in records[n] ==> k in index && index[k] == n)
    && (forall k :: k in index ==> index[k] in records && k in records[index[k]])
  }

  function Push(records: map<nat, seq<Key>>, node: nat, key: Key): map<nat, seq<Key>> {
    records[node := (if node in records then records[node] else []) + [key]]
  }

  /** The keys of a record other than one. */
  function Without(keys: seq<Key>, key: Key): (r: seq<Key>)
    ensures forall k :: k in r <==> k in keys && k != key
  {
    if keys == [] then []
    else if keys[0] == key then Without(keys[1..], key)
    else [keys[0]] + Without(keys[1..], key)
  }

  lemma {:induction false} WithoutOnce(keys: seq<Key>, key: Key)
    requires Distinct(keys)
    ensures Distinct(Without(keys, key))
  {
    if keys != [] {
      WithoutOnce(keys[1..], key);
      assert keys[0] !in keys[1..];
    }
  }

  function Drop(records: map<nat, seq<Key>>, node: nat, key: Key): map<nat, seq<Key>>
    requires node in records
  {
    var rest := Without(records[node], key);
    if rest == [] then records - {node} else records[node := rest]
  }

  lemma PushInverse(records: map<nat, seq<Key>>, index: map<Key, nat>, node: nat, key: Key)
    requires Inverse(records, index) && key !in index
    ensures Inverse(Push(records, node, key), index[key := node])
    ensures Push(records, node, key).Keys == records.Keys + {node}
  {
    var was := if node in records then records[node] else [];
    assert key !in was;
    var now := was + [key];
    assert Distinct(now);
    forall k ensures k in now <==> k in was || k == key {}
  }

  lemma DropInverse(records: map<nat, seq<Key>>, index: map<Key, nat>, key: Key)
    requires Inverse(records, index) && key in index
    ensures Inverse(Drop(records, index[key], key), index - {key})
    ensures var r := Drop(records, index[key], key);
            r.Keys + {index[key]} == records.Keys
  {
    var node := index[key];
    var r := Drop(records, node, key);
    var rest := Without(records[node], key);
    WithoutOnce(records[node], key);
    forall k | k in index - {key}
      ensures index[k] in r && k in r[index[k]]
    {
      if index[k] == node {
        assert k in rest;
      }
    }
  }

  /** Answering a claim keeps the records and the index inverse, once the winner's record is
      pushed; only the loser can lose its last. */
  lemma AnswerKeepsRecords(derive: Derive, records: map<nat, seq<Key>>, index: map<Key, nat>, key: Key, node: nat)
    requires Inverse(records, index)
    ensures var claim := Answer(derive, index, key, node);
            && (claim == Joined ==> Inverse(records, index[key := node]) && node in records)
            && (claim == Refused || claim == Evicted ==> key in index && index[key] in records && index[key] != node)
            && (claim == Fresh ==> var r := Push(records, node, key);
                  Inverse(r, index[key := node]) && r.Keys == records.Keys + {node})
            && (claim == Evicted ==> var kept := Drop(records, index[key], key); var r := Push(kept, node, key);
                  && Inverse(r, index[key := node]) && r.Keys == kept.Keys + {node}
                  && kept.Keys + {index[key]} == records.Keys)
            && (key in index ==> index[key] in records)
  {
    hide Distinct, Drop, Push, Outranks;
    var claim := Answer(derive, index, key, node);
    match claim {
      case Fresh =>
        PushInverse(records, index, node, key);
      case Joined =>
        assert index[key := node] == index;
      case Evicted =>
        DropInverse(records, index, key);
        var kept := Drop(records, index[key], key);
        PushInverse(kept, index - {key}, node, key);
        assert (index - {key})[key := node] == index[key := node];
      case Refused =>
    }
  }

  // ---- the move log ----

  /** A move made: the key it asked for and the node it names. */
  type Moved = (Key, nat)

  /** Every logged move still holds the key that placed it, in the list its parent owns. */
  ghost predicate EdgesHeld(log: map<Stamp, Edge>, owners: map<nat, nat>, index: map<Key, nat>, moved: set<Moved>) {
    forall stamp :: stamp in log ==> EdgeHeld(log[stamp], stamp, owners, index, moved)
  }

  ghost predicate EdgeHeld(edge: Edge, stamp: Stamp, owners: map<nat, nat>, index: map<Key, nat>, moved: set<Moved>) {
    exists list :: list in owners && EdgeAt(edge, Key(list, stamp), owners[list], index, moved)
  }

  ghost predicate EdgeAt(edge: Edge, key: Key, owner: nat, index: map<Key, nat>, moved: set<Moved>) {
    owner == edge.parent && key in index && index[key] == edge.child && (key, edge.child) in moved
  }

  /** The moves of this stamp all went into one list. */
  ghost predicate OneKey(moved: set<Moved>, stamp: Stamp) {
    forall a, b :: a in moved && b in moved && a.0.stamp == stamp && b.0.stamp == stamp ==> a.0 == b.0
  }

  /** No move of this stamp holds its key. */
  ghost predicate NoneHolds(index: map<Key, nat>, moved: set<Moved>, stamp: Stamp) {
    forall k, n :: (k, n) in moved && k.stamp == stamp && k in index ==> index[k] != n
  }

  /** Every move that holds its key, under a stamp carried into one list, is logged. */
  ghost predicate MovesLogged(log: map<Stamp, Edge>, owners: map<nat, nat>, index: map<Key, nat>, moved: set<Moved>) {
    forall k, n :: (k, n) in moved && k in index && index[k] == n && OneKey(moved, k.stamp) ==>
      k.list in owners && k.stamp in log && log[k.stamp] == Edge(n, owners[k.list])
  }

  /** The moves were all asked for, into known lists; their edges are held, and logged where the
      stamp went into one list. */
  ghost predicate LogKept(log: map<Stamp, Edge>, owners: map<nat, nat>, index: map<Key, nat>, moved: set<Moved>,
                          asked: set<Asked>) {
    && (forall k, n :: (k, n) in moved ==> k.list in owners && exists anchor :: Asked(k, n, anchor) in asked)
    && EdgesHeld(log, owners, index, moved) && MovesLogged(log, owners, index, moved)
  }

  /** The move log dedups on the stamp alone. */
  function Logged(log: map<Stamp, Edge>, stamp: Stamp, edge: Edge): map<Stamp, Edge> {
    if stamp in log then log else log[stamp := edge]
  }

  function Unlogged(log: map<Stamp, Edge>, stamp: Stamp, edge: Edge): map<Stamp, Edge> {
    if stamp in log && log[stamp] == edge then log - {stamp} else log
  }

  function Evictee(log: map<Stamp, Edge>, owners: map<nat, nat>, key: Key, held: nat): map<Stamp, Edge> {
    if key.list in owners then Unlogged(log, key.stamp, Edge(held, owners[key.list])) else log
  }

  /** The log once a claim has been answered: an eviction withdraws the loser's edge. */
  function Answered(log: map<Stamp, Edge>, owners: map<nat, nat>, index: map<Key, nat>, key: Key,
                    claim: Claim): map<Stamp, Edge> {
    if claim == Evicted && key in index then Evictee(log, owners, key, index[key]) else log
  }

  ghost predicate OneList(owners: map<nat, nat>) {
    forall a, b :: a in owners && b in owners && owners[a] == owners[b] ==> a == b
  }

  lemma EvictEdges(log: map<Stamp, Edge>, owners: map<nat, nat>, index: map<Key, nat>, moved: set<Moved>, key: Key,
                   node: nat)
    requires OneList(owners) && EdgesHeld(log, owners, index, moved) && key in index
    ensures EdgesHeld(Evictee(log, owners, key, index[key]), owners, index[key := node], moved)
  {
    hide OneList;
    var log' := Evictee(log, owners, key, index[key]);
    forall stamp | stamp in log'
      ensures EdgeHeld(log'[stamp], stamp, owners, index[key := node], moved)
    {
      assert log'[stamp] == log[stamp];
      var list :| list in owners && EdgeAt(log[stamp], Key(list, stamp), owners[list], index, moved);
      if Key(list, stamp) == key {
        assert false;
      }
      assert EdgeAt(log[stamp], Key(list, stamp), owners[list], index[key := node], moved);
    }
  }

  /** An eviction unlogs no move but the one that lost the key. */
  lemma EvictLogged(log: map<Stamp, Edge>, owners: map<nat, nat>, index: map<Key, nat>, moved: set<Moved>, key: Key,
                    node: nat)
    requires OneList(owners) && MovesLogged(log, owners, index, moved) && key in index && (key, node) !in moved
    ensures MovesLogged(Evictee(log, owners, key, index[key]), owners, index[key := node], moved)
  {
    var log', index' := Evictee(log, owners, key, index[key]), index[key := node];
    forall k, n | (k, n) in moved && k in index' && index'[k] == n && OneKey(moved, k.stamp)
      ensures k.list in owners && k.stamp in log' && log'[k.stamp] == Edge(n, owners[k.list])
    {
      assert k != key && index[k] == n;
      assert log[k.stamp] == Edge(n, owners[k.list]);
    }
  }

  lemma FreshEdges(log: map<Stamp, Edge>, owners: map<nat, nat>, index: map<Key, nat>, moved: set<Moved>, key: Key,
                   node: nat)
    requires EdgesHeld(log, owners, index, moved) && (key !in index || index[key] == node)
    ensures EdgesHeld(log, owners, index[key := node], moved)
  {
    forall stamp | stamp in log
      ensures EdgeHeld(log[stamp], stamp, owners, index[key := node], moved)
    {
      var list :| list in owners && EdgeAt(log[stamp], Key(list, stamp), owners[list], index, moved);
      assert EdgeAt(log[stamp], Key(list, stamp), owners[list], index[key := node], moved);
    }
  }

  /** A node that evicts has not asked before: it would have won then. */
  lemma EvictorIsNew(derive: Derive, asked: set<Asked>, index: map<Key, nat>, seats: map<Key, Anchor>, key: Key,
                     node: nat, anchor: Anchor)
    requires HoldersBest(derive, asked, index, seats) && Answer(derive, index, key, node) == Evicted
    ensures Asked(key, node, anchor) !in asked
  {
    hide Outranks, Nearest;
    OutranksTotal(derive, key, node, index[key], node);
    assert Best(derive, asked, key, index[key]);
  }

  lemma FreshIsNew(derive: Derive, asked: set<Asked>, index: map<Key, nat>, seats: map<Key, Anchor>, key: Key,
                   node: nat, anchor: Anchor)
    requires HoldersBest(derive, asked, index, seats) && key !in index
    ensures Asked(key, node, anchor) !in asked
  {
  }

  /** Answering a claim keeps the log to the moves that hold their keys. */
  lemma AnswerKeepsLog(derive: Derive, log: map<Stamp, Edge>, owners: map<nat, nat>, index: map<Key, nat>,
                       seats: map<Key, Anchor>, moved: set<Moved>, asked: set<Asked>, key: Key, node: nat,
                       anchor: Anchor)
    requires OneList(owners) && LogKept(log, owners, index, moved, asked) && HoldersBest(derive, asked, index, seats)
    ensures var claim := Answer(derive, index, key, node); var asked' := asked + {Asked(key, node, anchor)};
            && (claim == Refused ==> LogKept(log, owners, index, moved, asked'))
            && (claim == Fresh || claim == Joined ==> LogKept(log, owners, index[key := node], moved, asked'))
            && (claim == Evicted ==>
                  LogKept(Evictee(log, owners, key, index[key]), owners, index[key := node], moved, asked'))
  {
    hide EdgesHeld, OneList, Evictee, Outranks, HoldersBest, OneKey, MovesLogged;
    var claim := Answer(derive, index, key, node);
    AskedMore(moved, owners, asked, Asked(key, node, anchor));
    match claim {
      case Refused =>
      case Fresh =>
        FreshEdges(log, owners, index, moved, key, node);
        forall n ensures (key, n) !in moved {
          if (key, n) in moved {
            var at :| Asked(key, n, at) in asked;
            FreshIsNew(derive, asked, index, seats, key, n, at);
            assert false;
          }
        }
        FreshLogged(log, owners, index, moved, key, node);
      case Joined =>
        assert index[key := node] == index;
      case Evicted =>
        EvictEdges(log, owners, index, moved, key, node);
        if (key, node) in moved {
          var at :| Asked(key, node, at) in asked;
          EvictorIsNew(derive, asked, index, seats, key, node, at);
          assert false;
        }
        EvictLogged(log, owners, index, moved, key, node);
    }
  }

  lemma FreshLogged(log: map<Stamp, Edge>, owners: map<nat, nat>, index: map<Key, nat>, moved: set<Moved>, key: Key,
                    node: nat)
    requires key !in index && forall n :: (key, n) !in moved
    ensures MovesLogged(log, owners, index, moved) ==> MovesLogged(log, owners, index[key := node], moved)
  {
  }

  lemma AskedMore(moved: set<Moved>, owners: map<nat, nat>, asked: set<Asked>, more: Asked)
    requires forall k, n :: (k, n) in moved ==> k.list in owners && exists anchor :: Asked(k, n, anchor) in asked
    ensures forall k, n :: (k, n) in moved ==>
              k.list in owners && exists anchor :: Asked(k, n, anchor) in asked + {more}
  {
    forall k, n | (k, n) in moved
      ensures exists anchor :: Asked(k, n, anchor) in asked + {more}
    {
      var anchor :| Asked(k, n, anchor) in asked;
      assert Asked(k, n, anchor) in asked + {more};
    }
  }

  /** A move that holds its key is logged; where another move of its stamp is already, the stamp
      was carried into two lists. */
  lemma MoveEdge(log: map<Stamp, Edge>, owners: map<nat, nat>, index: map<Key, nat>, moved: set<Moved>,
                 asked: set<Asked>, key: Key, anchor: Anchor)
    requires LogKept(log, owners, index, moved, asked) && key in index && key.list in owners
    requires Asked(key, index[key], anchor) in asked
    ensures LogKept(Logged(log, key.stamp, Edge(index[key], owners[key.list])), owners, index,
                    moved + {(key, index[key])}, asked)
  {
    var edge, moved' := Edge(index[key], owners[key.list]), moved + {(key, index[key])};
    var log' := Logged(log, key.stamp, edge);
    assert EdgeAt(edge, key, owners[key.list], index, moved');
    forall stamp | stamp in log
      ensures EdgeHeld(log[stamp], stamp, owners, index, moved')
    {
      var list :| list in owners && EdgeAt(log[stamp], Key(list, stamp), owners[list], index, moved);
      assert EdgeAt(log[stamp], Key(list, stamp), owners[list], index, moved');
    }
    forall stamp | stamp in log'
      ensures EdgeHeld(log'[stamp], stamp, owners, index, moved')
    {
      assert Key(key.list, key.stamp) == key;
      assert stamp in log || (stamp == key.stamp && log'[stamp] == edge);
    }
    MoveLogged(log, owners, index, moved, key);
  }

  lemma OneKeyLess(moved: set<Moved>, more: Moved, stamp: Stamp)
    requires OneKey(moved + {more}, stamp)
    ensures OneKey(moved, stamp)
  {
    forall a, b | a in moved && b in moved && a.0.stamp == stamp && b.0.stamp == stamp
      ensures a.0 == b.0
    {
      assert a in moved + {more} && b in moved + {more};
    }
  }

  lemma MoveLogged(log: map<Stamp, Edge>, owners: map<nat, nat>, index: map<Key, nat>, moved: set<Moved>, key: Key)
    requires key in index && key.list in owners && EdgesHeld(log, owners, index, moved)
    requires MovesLogged(log, owners, index, moved)
    ensures MovesLogged(Logged(log, key.stamp, Edge(index[key], owners[key.list])), owners, index,
                        moved + {(key, index[key])})
  {
    var moved' := moved + {(key, index[key])};
    var log' := Logged(log, key.stamp, Edge(index[key], owners[key.list]));
    forall k, n | (k, n) in moved' && k in index && index[k] == n && OneKey(moved', k.stamp)
      ensures k.list in owners && k.stamp in log' && log'[k.stamp] == Edge(n, owners[k.list])
    {
      OneKeyLess(moved, (key, index[key]), k.stamp);
      assert (key, index[key]) in moved';
      if k == key && key.stamp in log {
        FirstLogged(log, owners, index, moved, key);
      }
    }
  }

  lemma FirstLogged(log: map<Stamp, Edge>, owners: map<nat, nat>, index: map<Key, nat>, moved: set<Moved>, key: Key)
    requires key in index && key.list in owners && key.stamp in log && EdgesHeld(log, owners, index, moved)
    requires OneKey(moved + {(key, index[key])}, key.stamp)
    ensures log[key.stamp] == Edge(index[key], owners[key.list])
  {
    var moved' := moved + {(key, index[key])};
    assert EdgeHeld(log[key.stamp], key.stamp, owners, index, moved);
    var list :| list in owners && EdgeAt(log[key.stamp], Key(list, key.stamp), owners[list], index, moved);
    assert (Key(list, key.stamp), log[key.stamp].child) in moved' && (key, index[key]) in moved';
    assert Key(list, key.stamp) == key;
  }

  /** A refused move leaves the log as it was: it holds no key. */
  lemma RefusedMove(derive: Derive, log: map<Stamp, Edge>, owners: map<nat, nat>, index: map<Key, nat>,
                    moved: set<Moved>, asked: set<Asked>, key: Key, node: nat, anchor: Anchor)
    requires LogKept(log, owners, index, moved, asked) && key.list in owners && key in index && index[key] != node
    requires Asked(key, node, anchor) in asked
    ensures LogKept(log, owners, index, moved + {(key, node)}, asked)
  {
    var moved' := moved + {(key, node)};
    forall stamp | stamp in log
      ensures EdgeHeld(log[stamp], stamp, owners, index, moved')
    {
      var list :| list in owners && EdgeAt(log[stamp], Key(list, stamp), owners[list], index, moved);
      assert EdgeAt(log[stamp], Key(list, stamp), owners[list], index, moved');
    }
    forall k, n | (k, n) in moved' && k in index && index[k] == n && OneKey(moved', k.stamp)
      ensures k.list in owners && k.stamp in log && log[k.stamp] == Edge(n, owners[k.list])
    {
      OneKeyLess(moved, (key, node), k.stamp);
    }
  }

  lemma MoreOwners(log: map<Stamp, Edge>, owners: map<nat, nat>, index: map<Key, nat>, moved: set<Moved>,
                   asked: set<Asked>, list: nat, owner: nat)
    requires LogKept(log, owners, index, moved, asked) && (list in owners ==> owners[list] == owner)
    ensures LogKept(log, owners[list := owner], index, moved, asked)
  {
    hide OneKey, EdgesHeld;
    OwnersEdges(log, owners, index, moved, list, owner);
  }

  lemma OwnersEdges(log: map<Stamp, Edge>, owners: map<nat, nat>, index: map<Key, nat>, moved: set<Moved>, list: nat,
                    owner: nat)
    requires EdgesHeld(log, owners, index, moved) && (list in owners ==> owners[list] == owner)
    ensures EdgesHeld(log, owners[list := owner], index, moved)
  {
    hide EdgeAt;
    var owners' := owners[list := owner];
    forall stamp | stamp in log
      ensures EdgeHeld(log[stamp], stamp, owners', index, moved)
    {
      var l :| l in owners && EdgeAt(log[stamp], Key(l, stamp), owners[l], index, moved);
      assert owners'[l] == owners[l];
    }
  }

  /** What is logged under a stamp is decided by who holds what and which moves were made, where
      the stamp went into one list or none of its moves holds its key. */
  lemma LogDecided(log: map<Stamp, Edge>, log': map<Stamp, Edge>, owners: map<nat, nat>, owners': map<nat, nat>,
                   index: map<Key, nat>, moved: set<Moved>, asked: set<Asked>, stamp: Stamp)
    requires LogKept(log, owners, index, moved, asked) && LogKept(log', owners', index, moved, asked)
    requires forall l :: l in owners && l in owners' ==> owners[l] == owners'[l]
    requires OneKey(moved, stamp) || NoneHolds(index, moved, stamp)
    ensures stamp in log <==> stamp in log'
    ensures stamp in log ==> log[stamp] == log'[stamp]
  {
    hide OneKey;
    if stamp in log {
      LogWithin(log, log', owners, owners', index, moved, asked, stamp);
    }
    if stamp in log' {
      LogWithin(log', log, owners', owners, index, moved, asked, stamp);
    }
  }

  lemma LogWithin(log: map<Stamp, Edge>, log': map<Stamp, Edge>, owners: map<nat, nat>, owners': map<nat, nat>,
                  index: map<Key, nat>, moved: set<Moved>, asked: set<Asked>, stamp: Stamp)
    requires LogKept(log, owners, index, moved, asked) && LogKept(log', owners', index, moved, asked)
    requires forall l :: l in owners && l in owners' ==> owners[l] == owners'[l]
    requires (OneKey(moved, stamp) || NoneHolds(index, moved, stamp)) && stamp in log
    ensures stamp in log' && log'[stamp] == log[stamp]
  {
    hide OneKey;
    assert EdgeHeld(log[stamp], stamp, owners, index, moved);
    var list :| list in owners && EdgeAt(log[stamp], Key(list, stamp), owners[list], index, moved);
    assert (Key(list, stamp), log[stamp].child) in moved;
    assert !NoneHolds(index, moved, stamp);
  }

  ghost predicate Injective(children: nat -> nat) {
    forall a, b :: children(a) == children(b) ==> a == b
  }

  ghost predicate Owned(owners: map<nat, nat>, children: nat -> nat) {
    forall l :: l in owners ==> children(owners[l]) == l
  }

  /** Every movable node is placed or waiting, and none is both. */
  ghost predicate Parted(placed: set<nat>, pending: set<nat>, movable: set<nat>) {
    placed !! pending && placed + pending == movable
  }

  ghost predicate Known(asked: set<Asked>, movable: set<nat>) {
    forall a :: a in asked ==> a.node in movable
  }

  lemma KnownMore(asked: set<Asked>, movable: set<nat>, a: Asked)
    requires Known(asked, movable)
    ensures Known(asked + {a}, movable + {a.node})
  {
  }

  /** An eviction moves its loser to waiting if it held no more; the winner is placed. */
  lemma PartedAfter(placed: set<nat>, pending: set<nat>, movable: set<nat>, kept: set<nat>, held: nat, node: nat)
    requires Parted(placed, pending, movable)
    ensures Parted(placed + {node}, pending - {node}, movable + {node})
    ensures node in placed ==> Parted(placed, pending, movable + {node})
    ensures node !in placed ==> Parted(placed, pending + {node}, movable + {node})
    ensures kept + {held} == placed && held != node ==>
              Parted(kept + {node}, pending + (if held in kept then {} else {held}) - {node}, movable + {node})
  {
  }

  /** What every step of the registry keeps. */
  ghost predicate Good(derive: Derive, children: nat -> nat, owners: map<nat, nat>, records: map<nat, seq<Key>>,
                       index: map<Key, nat>, pending: set<nat>, seats: map<Key, Anchor>, log: map<Stamp, Edge>,
                       asked: set<Asked>, moved: set<Moved>, movable: set<nat>, registered: set<nat>) {
    && Injective(children) && Owned(owners, children)
    && Inverse(records, index) && HoldersBest(derive, asked, index, seats) && LogKept(log, owners, index, moved, asked)
    && Parted(records.Keys, pending, movable) && movable <= registered && Known(asked, movable)
  }

  /** Answering a claim, storing what it won and noting who waits keeps all of it. */
  lemma AnswerKeepsGood(derive: Derive, children: nat -> nat, owners: map<nat, nat>, records: map<nat, seq<Key>>,
                        index: map<Key, nat>, pending: set<nat>, seats: map<Key, Anchor>, log: map<Stamp, Edge>,
                        asked: set<Asked>, moved: set<Moved>, movable: set<nat>, registered: set<nat>, key: Key,
                        node: nat, anchor: Anchor)
    requires Good(derive, children, owners, records, index, pending, seats, log, asked, moved, movable, registered)
    requires node in registered
    ensures var claim := Answer(derive, index, key, node);
            var asked', movable' := asked + {Asked(key, node, anchor)}, movable + {node};
            && (key in index ==> index[key] in records) && (claim == Joined ==> key in seats)
            && (claim == Refused ==>
                  Good(derive, children, owners, records, index, pending + (if node in records then {} else {node}),
                       seats, log, asked', moved, movable', registered))
            && (claim == Joined ==>
                  Good(derive, children, owners, records, index[key := node], pending,
                       SeatAfter(claim, seats, key, anchor), log, asked', moved, movable', registered))
            && (claim == Fresh ==>
                  Good(derive, children, owners, Push(records, node, key), index[key := node], pending - {node},
                       SeatAfter(claim, seats, key, anchor), log, asked', moved, movable', registered))
            && (claim == Evicted ==> key in index)
            && (claim == Evicted ==>
                  var held := index[key]; var kept := Drop(records, held, key);
                  Good(derive, children, owners, Push(kept, node, key), index[key := node],
                       pending + (if held in kept then {} else {held}) - {node}, SeatAfter(claim, seats, key, anchor),
                       Evictee(log, owners, key, held),
                       asked', moved, movable', registered))
  {
    hide Inverse, HoldersBest, LogKept, Drop, Push, Outranks, Injective, Evictee, SeatAfter, Answer, Parted, Known,
         Owned;
    AnswerKeepsBest(derive, asked, index, seats, key, node, anchor);
    RefusedSeat(seats, key, anchor);
    SeatedKey(derive, asked, index, seats, key, node);
    AnswerKeepsRecords(derive, records, index, key, node);
    OwnersOne(owners, children);
    AnswerKeepsLog(derive, log, owners, index, seats, moved, asked, key, node, anchor);
    KnownMore(asked, movable, Asked(key, node, anchor));
    var claim := Answer(derive, index, key, node);
    assert pending + {} == pending;
    if claim == Evicted {
      var held := index[key];
      PartedAfter(records.Keys, pending, movable, Drop(records, held, key).Keys, held, node);
    } else {
      PartedAfter(records.Keys, pending, movable, records.Keys, node, node);
      assert claim == Joined ==> records.Keys + {node} == records.Keys;
    }
  }

  class Registry {
    const derive: Derive
    /** The children list an element owns. */
    const children: nat -> nat
    /** Every materialised movable-kind node. */
    var registered: set<nat>
    /** The children lists, each with the element that owns it. */
    var owners: map<nat, nat>
    var records: map<nat, seq<Key>>
    var index: map<Key, nat>
    var pending: set<nat>
    var seats: map<Key, Anchor>
    var log: map<Stamp, Edge>
    /** Every claim ever made. */
    ghost var asked: set<Asked>
    /** Every move of a movable node into a known list. */
    ghost var moved: set<Moved>
    /** The nodes born in a sequence or revealed. */
    ghost var movable: set<nat>

    ghost predicate Valid()
      reads this
    {
      Good(derive, children, owners, records, index, pending, seats, log, asked, moved, movable, registered)
    }

    constructor (ids: Derive, lists: nat -> nat)
      requires Injective(lists)
      ensures Valid() && derive == ids && children == lists && movable == {} && asked == {} && moved == {}
      ensures registered == {} && owners == map[] && index == map[] && log == map[]
    {
      derive, children := ids, lists;
      registered, owners, records, index, pending := {}, map[], map[], map[], {};
      seats, log, asked, moved, movable := map[], map[], {}, {}, {};
    }

    /** Register a node's handle; a tagged one brings its children list. Idempotent. */
    method Materialise(node: nat, kind: Kind)
      requires Valid()
      modifies `registered, `owners
      ensures Valid() && registered == old(registered) + {node}
      ensures owners == if kind == Tagged then old(owners)[children(node) := node] else old(owners)
    {
      hide Inverse, HoldersBest, LogKept;
      registered := registered + {node};
      if kind == Tagged {
        MoreOwners(log, owners, index, moved, asked, children(node), node);
        owners := owners[children(node) := node];
      }
    }

    /** Take a key away from its holder: its record, and the move edge the key carried. A
        node left with no record goes back to awaiting its first. */
    method EvictPlacement(key: Key, held: nat)
      requires held in records
      modifies `records, `pending, `log
      ensures records == Drop(old(records), held, key)
      ensures pending == old(pending) + if held in records then {} else {held}
      ensures log == Evictee(old(log), owners, key, held)
    {
      if key.list in owners {
        log := Unlogged(log, key.stamp, Edge(held, owners[key.list]));
      }
      var rest := Without(records[held], key);
      if rest != [] {
        records := records[held := rest];
        return;
      }
      records := records - {held};
      pending := pending + {held};
    }

    /** Decide who owns a key when `node` asks for it, and record the answer. */
    method ClaimPlacement(key: Key, node: nat) returns (claim: Claim)
      requires key in index ==> index[key] in records
      modifies `records, `pending, `log, `index
      ensures claim == Answer(derive, old(index), key, node)
      ensures index == if claim == Refused then old(index) else old(index)[key := node]
      ensures claim != Evicted ==> records == old(records) && pending == old(pending) && log == old(log)
      ensures claim == Evicted ==> var held := old(index[key]);
                && records == Drop(old(records), held, key)
                && pending == old(pending) + (if held in records then {} else {held})
                && log == Evictee(old(log), owners, key, held)
    {
      hide Outranks, Drop, Evictee;
      if key !in index {
        index := index[key := node];
        return Fresh;
      }
      var held := index[key];
      if held == node {
        assert index == index[key := node];
        return Joined;
      }
      if !Outranks(derive, key, node, held) {
        return Refused;
      }
      EvictPlacement(key, held);
      index := index[key := node];
      return Evicted;
    }

    /** Answer a claim and store what it won: the seat, the record, the end of waiting. A
        claimant that wins nothing and holds nothing is left awaiting its first place. */
    method Settle(key: Key, node: nat, anchor: Anchor) returns (claim: Claim)
      requires Valid() && node in registered
      modifies `records, `pending, `log, `index, `seats, `asked, `movable
      ensures Valid() && asked == old(asked) + {Asked(key, node, anchor)} && movable == old(movable) + {node}
      ensures claim == Answer(derive, old(index), key, node)
      ensures claim != Refused ==> index == old(index)[key := node]
      ensures claim != Refused ==> log == Answered(old(log), owners, old(index), key, claim)
      ensures claim == Refused ==>
                records == old(records) && index == old(index) && log == old(log) && seats == old(seats)
      ensures claim == Refused ==> pending == old(pending) + if node in records then {} else {node}
    {
      hide Good, Drop, Push, Outranks, Evictee, SeatAfter, Answer;
      AnswerKeepsGood(derive, children, owners, records, index, pending, seats, log, asked, moved, movable, registered,
                      key, node, anchor);
      claim := ClaimPlacement(key, node);
      asked, movable := asked + {Asked(key, node, anchor)}, movable + {node};
      RefusedSeat(seats, key, anchor);
      seats := SeatAfter(claim, seats, key, anchor);
      assert pending + {} == pending;
      if claim == Refused {
        if node !in records {
          pending := pending + {node};
        }
      } else if claim != Joined {
        records, pending := Push(records, node, key), pending - {node};
      }
    }

    /** Install a child in a children list: materialise it and claim its birth key. */
    method InsertChild(list: nat, kind: Kind, anchor: Anchor, stamp: Stamp)
      requires Valid()
      modifies this
      ensures Valid()
      ensures list !in old(owners) ==>
                asked == old(asked) && movable == old(movable) && index == old(index) && records == old(records)
      ensures list in old(owners) ==> var key := Key(list, stamp); var child := derive(key, kind);
                && asked == old(asked) + {Asked(key, child, anchor)} && movable == old(movable) + {child}
                && moved == old(moved)
                && index == (if Answer(derive, old(index), key, child) == Refused then old(index)
                             else old(index)[key := child])
                && log == Answered(old(log), old(owners), old(index), key, Answer(derive, old(index), key, child))
    {
      hide Inverse, HoldersBest, LogKept, Injective;
      if list !in owners {
        return;
      }
      var key := Key(list, stamp);
      var child := derive(key, kind);
      OwnerKept(owners, children, list, child);
      Materialise(child, kind);
      var claim := Settle(key, child, anchor);
    }

    /** Relocate a node: claim a key in the destination and, holding it, log the move. A node
        neither placed nor awaiting a place does not move, and a refused claim changes nothing. */
    method ApplyMove(dest: nat, node: nat, anchor: Anchor, stamp: Stamp)
      requires Valid()
      modifies `records, `pending, `log, `index, `seats, `asked, `moved, `movable
      ensures Valid() && movable == old(movable)
      ensures var admitted := node in old(movable) && dest in owners;
              && asked == old(asked) + (if admitted then {Asked(Key(dest, stamp), node, anchor)} else {})
              && moved == old(moved) + if admitted then {(Key(dest, stamp), node)} else {}
      ensures var admitted := node in old(movable) && dest in owners;
              !admitted || Answer(derive, old(index), Key(dest, stamp), node) == Refused ==>
                && records == old(records) && index == old(index) && pending == old(pending)
                && log == old(log) && seats == old(seats)
      ensures node in old(movable) && dest in owners ==>
                var key := Key(dest, stamp);
                && (Answer(derive, old(index), key, node) != Refused ==>
                      index == old(index)[key := node] &&
                      log == Logged(Answered(old(log), owners, old(index), key, Answer(derive, old(index), key, node)),
                                    stamp, Edge(node, owners[dest])))
    {
      hide HoldersBest, LogKept, Injective, Inverse, Drop, Outranks;
      if (node !in records && node !in pending) || dest !in owners || node !in registered {
        return;
      }
      var key := Key(dest, stamp);
      var claim := Settle(key, node, anchor);
      if claim == Refused {
        RefusedMove(derive, log, owners, index, moved, asked, key, node, anchor);
        moved := moved + {(key, node)};
        return;
      }
      MoveEdge(log, owners, index, moved, asked, key, anchor);
      moved := moved + {(key, node)};
      log := Logged(log, stamp, Edge(node, owners[dest]));
    }

    /** Materialise a shell with no place yet. A node already materialised is left as it is. */
    method ApplyReveal(node: nat, kind: Kind)
      requires Valid()
      modifies `registered, `owners, `pending, `movable
      ensures Valid()
      ensures if node in old(registered) then movable == old(movable) && pending == old(pending)
              else movable == old(movable) + {node} && pending == old(pending) + {node}
      ensures node in old(registered) || kind == Tagless ==> owners == old(owners)
      ensures registered == old(registered) + {node}
    {
      hide HoldersBest, LogKept, Injective, Inverse;
      if node in registered {
        return;
      }
      Materialise(node, kind);
      pending, movable := pending + {node}, movable + {node};
    }
  }

  lemma SeatedKey(derive: Derive, asked: set<Asked>, index: map<Key, nat>, seats: map<Key, Anchor>, key: Key, node: nat)
    requires HoldersBest(derive, asked, index, seats)
    ensures Answer(derive, index, key, node) == Joined ==> key in seats
  {
  }

  lemma RefusedSeat(seats: map<Key, Anchor>, key: Key, anchor: Anchor)
    ensures SeatAfter(Refused, seats, key, anchor) == seats
  {
  }

  lemma OwnerKept(owners: map<nat, nat>, children: nat -> nat, list: nat, node: nat)
    requires Injective(children) && Owned(owners, children) && list in owners
    ensures owners[children(node) := node][list] == owners[list]
  {
  }

  lemma OwnersOne(owners: map<nat, nat>, children: nat -> nat)
    requires Owned(owners, children)
    ensures OneList(owners)
  {
  }

  /** Two registries that have been asked for the same places, by the same nodes, agree on
      every holder, every seat, every record and who is waiting, whatever order they came in;
      and, where the same moves were made, on what is logged under every stamp that went into one
      list or none of whose moves holds its key. */
  lemma ClaimsDecide(a: Registry, b: Registry)
    requires a.Valid() && b.Valid() && a.derive == b.derive && a.asked == b.asked && a.movable == b.movable
    ensures a.index == b.index && a.seats == b.seats && a.records.Keys == b.records.Keys && a.pending == b.pending
    ensures forall n, k :: n in a.records ==> (k in a.records[n] <==> k in b.records[n])
    ensures a.children == b.children && a.moved == b.moved ==>
              forall stamp :: OneKey(a.moved, stamp) || NoneHolds(a.index, a.moved, stamp) ==>
                (stamp in a.log <==> stamp in b.log) && (stamp in a.log ==> a.log[stamp] == b.log[stamp])
  {
    hide HoldersBest, LogKept, Inverse, OneKey, NoneHolds;
    HoldersUnique(a.derive, a.asked, a.index, a.seats, b.index, b.seats);
    SameRecords(a.records, b.records, a.index);
    if a.children == b.children && a.moved == b.moved {
      forall stamp | OneKey(a.moved, stamp) || NoneHolds(a.index, a.moved, stamp)
        ensures stamp in a.log <==> stamp in b.log
        ensures stamp in a.log ==> a.log[stamp] == b.log[stamp]
      {
        LogDecided(a.log, b.log, a.owners, b.owners, a.index, a.moved, a.asked, stamp);
      }
    }
  }

  /** One stamp carried into two lists by two nodes, the same requests in two orders: each
      registry holds both keys alike and logs the move that came first. */
  method SharedStamp(ids: Derive, lists: nat -> nat, p: nat, q: nat, x: nat, y: nat, stamp: Stamp, anchor: Anchor)
      returns (a: Registry, b: Registry)
    requires Injective(lists) && p != q && x != y && x != p && x != q && y != p && y != q
    ensures a.Valid() && b.Valid() && a.asked == b.asked && a.moved == b.moved && a.index == b.index
    ensures stamp in a.log && a.log[stamp] == Edge(x, p) && stamp in b.log && b.log[stamp] == Edge(y, q)
  {
    hide Good;
    a := TwoMoves(ids, lists, p, q, x, y, stamp, anchor);
    b := TwoMoves(ids, lists, q, p, y, x, stamp, anchor);
    assert lists(p) != lists(q);
  }

  /** Two shells moved under two elements, under one stamp. */
  method TwoMoves(ids: Derive, lists: nat -> nat, p: nat, q: nat, x: nat, y: nat, stamp: Stamp, anchor: Anchor)
      returns (r: Registry)
    requires Injective(lists) && p != q && x != y && x != p && x != q && y != p && y != q
    ensures fresh(r) && r.Valid() && r.log == map[stamp := Edge(x, p)]
    ensures var k, l := Key(lists(p), stamp), Key(lists(q), stamp);
            && r.asked == {Asked(k, x, anchor), Asked(l, y, anchor)} && r.moved == {(k, x), (l, y)}
            && r.index == map[k := x, l := y]
  {
    hide Good, Outranks, Evictee;
    r := new Registry(ids, lists);
    TwoShells(r, p, q, x, y);
    assert lists(p) != lists(q);
    r.ApplyMove(lists(p), x, anchor, stamp);
    r.ApplyMove(lists(q), y, anchor, stamp);
  }

  /** Two elements with their children lists, and two shells awaiting a place. */
  method TwoShells(r: Registry, p: nat, q: nat, x: nat, y: nat)
    requires r.Valid() && r.registered == {} && r.owners == map[] && r.movable == {} && r.index == map[]
    requires p != q && x != y && x != p && x != q && y != p && y != q
    modifies r`registered, r`owners, r`pending, r`movable
    ensures r.Valid() && r.movable == {x, y} && r.owners == map[r.children(p) := p, r.children(q) := q]
  {
    hide Good;
    r.Materialise(p, Tagged);
    r.Materialise(q, Tagged);
    r.ApplyReveal(x, Tagless);
    r.ApplyReveal(y, Tagless);
  }

  lemma SameRecords(records: map<nat, seq<Key>>, records': map<nat, seq<Key>>, index: map<Key, nat>)
    requires Inverse(records, index) && Inverse(records', index)
    ensures records.Keys == records'.Keys
    ensures forall n, k :: n in records ==> (k in records[n] <==> k in records'[n])
  {
    hide Distinct;
    forall n
      ensures n in records <==> n in records'
    {
      if n in records {
        var k := records[n][0];
        assert index[k] == n;
      }
      if n in records' {
        var k := records'[n][0];
        assert index[k] == n;
      }
    }
    forall n, k | n in records
      ensures k in records[n] <==> k in records'[n]
    {
      assert k in records[n] ==> index[k] == n;
      assert k in records'[n] ==> index[k] == n;
    }
  }

  // ---- the log as the replayed one ----

  /** The stamp-ordered log holds exactly the edges this one does. */
  ghost predicate Mirrors(moves: seq<T.Move>, log: map<Stamp, Edge>) {
    forall stamp, c, p :: T.Move(stamp, c, p) in moves <==> stamp in log && log[stamp] == Edge(c, p)
  }

  /** Logging and unlogging an edge are what the replayed log does with the same move. */
  method LogMove(moves: T.TreeMoves, ghost log: map<Stamp, Edge>, stamp: Stamp, edge: Edge) returns (added: bool)
    requires moves.Valid() && Mirrors(T.MovesOf(moves.log), log)
    modifies moves
    ensures moves.Valid() && Mirrors(T.MovesOf(moves.log), Logged(log, stamp, edge)) && (added <==> stamp !in log)
  {
    hide T.Fold, T.Sorted, T.Remembers, T.Forest;
    ghost var before := T.MovesOf(moves.log);
    assert stamp in log ==> T.Move(stamp, log[stamp].child, log[stamp].parent) in before;
    added := moves.Apply(T.Move(stamp, edge.child, edge.parent));
    StampMirrored(before, log, stamp);
  }

  method UnlogMove(moves: T.TreeMoves, ghost log: map<Stamp, Edge>, stamp: Stamp, edge: Edge) returns (removed: bool)
    requires moves.Valid() && Mirrors(T.MovesOf(moves.log), log)
    modifies moves
    ensures moves.Valid() && Mirrors(T.MovesOf(moves.log), Unlogged(log, stamp, edge))
    ensures removed <==> stamp in log && log[stamp] == edge
  {
    hide T.Fold, T.Sorted, T.Remembers, T.Forest;
    removed := moves.Remove(T.Move(stamp, edge.child, edge.parent));
  }

  lemma StampMirrored(moves: seq<T.Move>, log: map<Stamp, Edge>, stamp: Stamp)
    requires Mirrors(moves, log)
    ensures stamp !in log <==> forall x :: x in moves ==> x.stamp != stamp
  {
    assert stamp in log ==> T.Move(stamp, log[stamp].child, log[stamp].parent) in moves;
    forall x | x in moves ensures x.stamp in log {
      assert T.Move(x.stamp, x.child, x.parent) in moves;
    }
  }
}
