/** The requests a placement registry answers, in whatever order they arrive: exactly when what
    is logged under a stamp does not depend on that order. */
module Arrivals {
  import opened Stamps
  import opened Collections
  import opened Placements

  /** A node asking for a key, by its birth there or by a move. */
  datatype Request = Birth(key: Key, node: nat, anchor: Anchor) | Shift(key: Key, node: nat, anchor: Anchor)

  datatype Held = Held(index: map<Key, nat>, seats: map<Key, Anchor>, log: map<Stamp, Edge>)

  /** What one request leaves: the key goes to whoever ranks best, an eviction withdraws the
      loser's edge, and a move that has its key is logged. */
  function Take(derive: Derive, owners: map<nat, nat>, h: Held, r: Request): Held {
    var claim := Answer(derive, h.index, r.key, r.node);
    var index := if claim == Refused then h.index else h.index[r.key := r.node];
    var seats := if claim == Joined && r.key !in h.seats then h.seats else SeatAfter(claim, h.seats, r.key, r.anchor);
    var log := if claim == Evicted then Evictee(h.log, owners, r.key, h.index[r.key]) else h.log;
    if r.Shift? && claim != Refused && r.key.list in owners then
      Held(index, seats, Logged(log, r.key.stamp, Edge(r.node, owners[r.key.list])))
    else
      Held(index, seats, log)
  }

  function TakeAll(derive: Derive, owners: map<nat, nat>, h: Held, rs: seq<Request>): Held {
    if rs == [] then h else Take(derive, owners, TakeAll(derive, owners, h, rs[..|rs| - 1]), rs[|rs| - 1])
  }

  const NOTHING: Held := Held(map[], map[], map[])

  lemma {:induction false} TakeConcat(derive: Derive, owners: map<nat, nat>, h: Held, a: seq<Request>, b: seq<Request>)
    ensures TakeAll(derive, owners, h, a + b) == TakeAll(derive, owners, TakeAll(derive, owners, h, a), b)
    decreases |b|
  {
    hide Take;
    if b == [] {
      assert a + b == a;
    } else {
      TakeConcat(derive, owners, h, a, b[..|b| - 1]);
      assert (a + b)[..|a + b| - 1] == a + b[..|b| - 1];
    }
  }

  // ---- what the requests come to ----

  ghost function AskedOf(q: set<Request>): set<Asked> {
    set r | r in q :: Asked(r.key, r.node, r.anchor)
  }

  ghost function MovedOf(q: set<Request>): set<Moved> {
    set r | r in q && r.Shift? :: (r.key, r.node)
  }

  /** Every move goes into a known list. */
  ghost predicate Landed(q: set<Request>, owners: map<nat, nat>) {
    forall r :: r in q && r.Shift? ==> r.key.list in owners
  }

  ghost predicate Sound(derive: Derive, owners: map<nat, nat>, q: set<Request>, h: Held) {
    HoldersBest(derive, AskedOf(q), h.index, h.seats) && LogKept(h.log, owners, h.index, MovedOf(q), AskedOf(q))
  }

  lemma AskedWith(q: set<Request>, r: Request)
    ensures AskedOf(q + {r}) == AskedOf(q) + {Asked(r.key, r.node, r.anchor)}
    ensures MovedOf(q + {r}) == MovedOf(q) + if r.Shift? then {(r.key, r.node)} else {}
  {
  }

  lemma TakeKeeps(derive: Derive, owners: map<nat, nat>, q: set<Request>, h: Held, r: Request)
    requires OneList(owners) && Sound(derive, owners, q, h) && (r.Shift? ==> r.key.list in owners)
    ensures Sound(derive, owners, q + {r}, Take(derive, owners, h, r))
  {
    hide HoldersBest, LogKept, OneList, Evictee, Outranks, Answer, SeatAfter, Logged, AskedOf, MovedOf;
    var asked, moved, claim := AskedOf(q), MovedOf(q), Answer(derive, h.index, r.key, r.node);
    AskedWith(q, r);
    AnswerKeepsBest(derive, asked, h.index, h.seats, r.key, r.node, r.anchor);
    RefusedSeat(h.seats, r.key, r.anchor);
    SeatedKey(derive, asked, h.index, h.seats, r.key, r.node);
    AnswerKeepsLog(derive, h.log, owners, h.index, h.seats, moved, asked, r.key, r.node, r.anchor);
    AnswerIndexed(derive, h.index, r.key, r.node);
    var t := Take(derive, owners, h, r);
    var asked' := asked + {Asked(r.key, r.node, r.anchor)};
    assert moved + {} == moved;
    if r.Shift? && claim == Refused {
      RefusedMove(derive, h.log, owners, h.index, moved, asked', r.key, r.node, r.anchor);
    } else if r.Shift? {
      var log := if claim == Evicted then Evictee(h.log, owners, r.key, h.index[r.key]) else h.log;
      MoveEdge(log, owners, t.index, moved, asked', r.key, r.anchor);
    }
  }

  lemma AnswerIndexed(derive: Derive, index: map<Key, nat>, key: Key, node: nat)
    ensures var claim := Answer(derive, index, key, node);
            && (claim == Evicted || claim == Refused ==> key in index && index[key] != node)
            && (claim == Joined ==> key in index && index[key] == node)
  {
  }

  lemma NothingSound(derive: Derive, owners: map<nat, nat>)
    ensures Sound(derive, owners, {}, NOTHING)
  {
  }

  lemma {:induction false} TakenSound(derive: Derive, owners: map<nat, nat>, rs: seq<Request>)
    requires OneList(owners) && Landed(Elements(rs), owners)
    ensures Sound(derive, owners, Elements(rs), TakeAll(derive, owners, NOTHING, rs))
    decreases |rs|
  {
    hide OneList, Sound, Take;
    if rs == [] {
      assert Elements(rs) == {};
      NothingSound(derive, owners);
    } else {
      var init, r := rs[..|rs| - 1], rs[|rs| - 1];
      assert rs == init + [r];
      assert Elements(rs) == Elements(init) + {r};
      TakenSound(derive, owners, init);
      TakeKeeps(derive, owners, Elements(init), TakeAll(derive, owners, NOTHING, init), r);
    }
  }

  // ---- orders of one set ----

  /** The requests, each once, in some order. */
  ghost predicate Orders(q: set<Request>, rs: seq<Request>) {
    Elements(rs) == q && Distinct(rs)
  }

  ghost predicate SameAt(log: map<Stamp, Edge>, log': map<Stamp, Edge>, stamp: Stamp) {
    (stamp in log <==> stamp in log') && (stamp in log ==> log[stamp] == log'[stamp])
  }

  /** Every order logs the same under the stamp. */
  ghost predicate OneLog(derive: Derive, owners: map<nat, nat>, q: set<Request>, stamp: Stamp) {
    forall a, b :: Orders(q, a) && Orders(q, b) ==>
      SameAt(TakeAll(derive, owners, NOTHING, a).log, TakeAll(derive, owners, NOTHING, b).log, stamp)
  }

  /** No move of the stamp is of the node that ranks best for its key. */
  ghost predicate NoMoverBest(derive: Derive, q: set<Request>, stamp: Stamp) {
    forall k, n :: (k, n) in MovedOf(q) && k.stamp == stamp ==> !Best(derive, AskedOf(q), k, n)
  }

  lemma OneOrder(derive: Derive, owners: map<nat, nat>, q: set<Request>, stamp: Stamp, a: seq<Request>, b: seq<Request>)
    requires OneList(owners) && Landed(q, owners) && Orders(q, a) && Orders(q, b)
    requires OneKey(MovedOf(q), stamp) || NoMoverBest(derive, q, stamp)
    ensures SameAt(TakeAll(derive, owners, NOTHING, a).log, TakeAll(derive, owners, NOTHING, b).log, stamp)
  {
    hide OneList, OneKey, TakeAll, LogKept, Elements, Distinct, Best, Nearest;
    TakenSound(derive, owners, a);
    TakenSound(derive, owners, b);
    var h, t := TakeAll(derive, owners, NOTHING, a), TakeAll(derive, owners, NOTHING, b);
    HoldersUnique(derive, AskedOf(q), h.index, h.seats, t.index, t.seats);
    if NoMoverBest(derive, q, stamp) {
      forall k, n | (k, n) in MovedOf(q) && k.stamp == stamp && k in h.index
        ensures h.index[k] != n
      {
        assert Best(derive, AskedOf(q), k, h.index[k]);
      }
      assert NoneHolds(h.index, MovedOf(q), stamp);
    }
    LogDecided(h.log, t.log, owners, owners, h.index, MovedOf(q), AskedOf(q), stamp);
  }

  // ---- where the order decides ----

  lemma {:induction false} Listing(q: set<Request>) returns (rs: seq<Request>)
    ensures Orders(q, rs)
  {
    if q == {} {
      rs := [];
      assert Elements(rs) == {};
    } else {
      var r :| r in q;
      var rest := Listing(q - {r});
      rs := [r] + rest;
      assert Elements(rs) == {r} + Elements(rest);
    }
  }

  lemma OrdersConcat(a: set<Request>, b: set<Request>, p: seq<Request>, q: seq<Request>)
    requires Orders(a, p) && Orders(b, q) && a !! b
    ensures Orders(a + b, p + q)
  {
    assert Elements(p + q) == Elements(p) + Elements(q);
    forall i, j | 0 <= i < j < |p + q|
      ensures (p + q)[i] != (p + q)[j]
    {
      if i < |p| <= j {
        assert p[i] in Elements(p) && q[j - |p|] in Elements(q);
      }
    }
  }

  lemma OrdersOne(r: Request)
    ensures Orders({r}, [r])
  {
    assert Elements([r]) == {r};
  }

  /** The edge of the best claimant of its key, once logged, stays. */
  lemma BestStays(derive: Derive, owners: map<nat, nat>, q: set<Request>, h: Held, key: Key, node: nat, r: Request)
    requires OneList(owners) && key.list in owners && key in h.index && h.index[key] == node
    requires key.stamp in h.log && h.log[key.stamp] == Edge(node, owners[key.list])
    requires Best(derive, AskedOf(q), key, node) && r in q
    ensures var t := Take(derive, owners, h, r);
            && key in t.index && t.index[key] == node
            && key.stamp in t.log && t.log[key.stamp] == Edge(node, owners[key.list])
  {
    hide Outranks;
    assert Asked(r.key, r.node, r.anchor) in AskedOf(q);
    OutranksTotal(derive, key, r.node, node, r.node);
  }

  lemma {:induction false} BestStaysAll(derive: Derive, owners: map<nat, nat>, q: set<Request>, h: Held, key: Key,
                                        node: nat, rs: seq<Request>)
    requires OneList(owners) && key.list in owners && key in h.index && h.index[key] == node
    requires key.stamp in h.log && h.log[key.stamp] == Edge(node, owners[key.list])
    requires Best(derive, AskedOf(q), key, node) && Elements(rs) <= q
    ensures var t := TakeAll(derive, owners, h, rs);
            && key in t.index && t.index[key] == node
            && key.stamp in t.log && t.log[key.stamp] == Edge(node, owners[key.list])
    decreases |rs|
  {
    hide OneList, Best, Take;
    if rs != [] {
      var init, r := rs[..|rs| - 1], rs[|rs| - 1];
      assert rs == init + [r];
      assert Elements(rs) == Elements(init) + {r};
      BestStaysAll(derive, owners, q, h, key, node, init);
      BestStays(derive, owners, q, TakeAll(derive, owners, h, init), key, node, r);
    }
  }

  /** Delivered first, the best claimant's move is the one logged. */
  lemma BestFirst(derive: Derive, owners: map<nat, nat>, q: set<Request>, r: Request) returns (rs: seq<Request>)
    requires OneList(owners) && r in q && r.Shift? && r.key.list in owners && Best(derive, AskedOf(q), r.key, r.node)
    ensures Orders(q, rs)
    ensures var log := TakeAll(derive, owners, NOTHING, rs).log;
            r.key.stamp in log && log[r.key.stamp] == Edge(r.node, owners[r.key.list])
  {
    hide OneList, Best, Orders;
    var rest := Listing(q - {r});
    rs := [r] + rest;
    OrdersOne(r);
    OrdersConcat({r}, q - {r}, [r], rest);
    assert {r} + (q - {r}) == q;
    TakeConcat(derive, owners, NOTHING, [r], rest);
    FirstTaken(derive, owners, r);
    assert Elements(rest) <= q by { OrdersWithin(q - {r}, rest); }
    BestStaysAll(derive, owners, q, TakeAll(derive, owners, NOTHING, [r]), r.key, r.node, rest);
  }

  lemma OrdersWithin(q: set<Request>, rs: seq<Request>)
    requires Orders(q, rs)
    ensures Elements(rs) == q
  {
  }

  lemma FirstTaken(derive: Derive, owners: map<nat, nat>, r: Request)
    requires r.Shift? && r.key.list in owners
    ensures var h := TakeAll(derive, owners, NOTHING, [r]);
            h.index == map[r.key := r.node] && h.log == map[r.key.stamp := Edge(r.node, owners[r.key.list])]
  {
    assert [r][..0] == [];
    assert TakeAll(derive, owners, NOTHING, []) == NOTHING;
  }

  /** Under a stamp and a list, nothing but an edge into that list has been logged. */
  ghost predicate OnlyInto(log: map<Stamp, Edge>, stamp: Stamp, parent: nat) {
    stamp in log ==> log[stamp].parent == parent
  }

  /** Requests for other keys of the stamp leave the logged move of `key` where it is. */
  lemma {:induction false} OthersDeduped(derive: Derive, owners: map<nat, nat>, h: Held, key: Key, rs: seq<Request>)
    requires OneList(owners) && key.list in owners && (forall r :: r in rs ==> r.key != key)
    requires key.stamp in h.log && h.log[key.stamp].parent == owners[key.list]
    ensures var t := TakeAll(derive, owners, h, rs); key.stamp in t.log && t.log[key.stamp].parent == owners[key.list]
    decreases |rs|
  {
    if rs != [] {
      var init, r := rs[..|rs| - 1], rs[|rs| - 1];
      assert r in rs;
      OthersDeduped(derive, owners, h, key, init);
      OtherTaken(derive, owners, TakeAll(derive, owners, h, init), key, r);
    }
  }

  lemma OtherTaken(derive: Derive, owners: map<nat, nat>, h: Held, key: Key, r: Request)
    requires OneList(owners) && key.list in owners && r.key != key
    requires key.stamp in h.log && h.log[key.stamp].parent == owners[key.list]
    ensures var t := Take(derive, owners, h, r); key.stamp in t.log && t.log[key.stamp].parent == owners[key.list]
  {
    hide Outranks;
  }

  /** Once only requests for `key` are left of its stamp, nothing is logged there but into its
      list. */
  lemma {:induction false} RestInto(derive: Derive, owners: map<nat, nat>, h: Held, key: Key, rs: seq<Request>)
    requires key.list in owners && (forall r :: r in rs && r.key.stamp == key.stamp ==> r.key == key)
    requires OnlyInto(h.log, key.stamp, owners[key.list])
    ensures OnlyInto(TakeAll(derive, owners, h, rs).log, key.stamp, owners[key.list])
    decreases |rs|
  {
    hide Outranks;
    if rs != [] {
      var init, r := rs[..|rs| - 1], rs[|rs| - 1];
      assert r in rs;
      RestInto(derive, owners, h, key, init);
    }
  }

  /** Delivered first, with the other keys of its stamp next, a move keeps every other list out
      of the log. */
  lemma OtherFirst(derive: Derive, owners: map<nat, nat>, q: set<Request>, r: Request) returns (rs: seq<Request>)
    requires OneList(owners) && r in q && r.Shift? && r.key.list in owners
    ensures Orders(q, rs) && OnlyInto(TakeAll(derive, owners, NOTHING, rs).log, r.key.stamp, owners[r.key.list])
  {
    hide OneList, Orders, Take;
    var next := set x | x in q && x.key.stamp == r.key.stamp && x.key != r.key;
    var last := q - next - {r};
    var a := Listing(next);
    var b := Listing(last);
    rs := [r] + a + b;
    OrdersOne(r);
    OrdersConcat({r}, next, [r], a);
    OrdersConcat({r} + next, last, [r] + a, b);
    assert {r} + next + last == q;
    TakeConcat(derive, owners, NOTHING, [r] + a, b);
    TakeConcat(derive, owners, NOTHING, [r], a);
    FirstTaken(derive, owners, r);
    var h := TakeAll(derive, owners, NOTHING, [r]);
    ListedIn(next, a);
    ListedIn(last, b);
    OthersDeduped(derive, owners, h, r.key, a);
    RestInto(derive, owners, TakeAll(derive, owners, h, a), r.key, b);
  }

  lemma ListedIn(q: set<Request>, rs: seq<Request>)
    requires Orders(q, rs)
    ensures forall r :: r in rs ==> r in q
  {
    forall r | r in rs ensures r in q {
      assert r in Elements(rs);
    }
  }

  lemma MoverOf(q: set<Request>, k: Key, n: nat) returns (r: Request)
    requires (k, n) in MovedOf(q)
    ensures r in q && r.Shift? && r.key == k && r.node == n
  {
    r :| r in q && r.Shift? && (r.key, r.node) == (k, n);
  }

  /** A stamp carried into two lists, with a mover that ranks best for its key: two orders log two
      things. */
  lemma OrderLogs(derive: Derive, owners: map<nat, nat>, q: set<Request>, stamp: Stamp)
    requires OneList(owners) && Landed(q, owners)
    requires !OneKey(MovedOf(q), stamp) && !NoMoverBest(derive, q, stamp)
    ensures !OneLog(derive, owners, q, stamp)
  {
    hide Best, TakeAll, Orders;
    var k, n :| (k, n) in MovedOf(q) && k.stamp == stamp && Best(derive, AskedOf(q), k, n);
    var r := MoverOf(q, k, n);
    var o := OtherKey(q, k);
    var a := BestFirst(derive, owners, q, r);
    var b := OtherFirst(derive, owners, q, o);
    assert owners[r.key.list] != owners[o.key.list];
    assert !SameAt(TakeAll(derive, owners, NOTHING, a).log, TakeAll(derive, owners, NOTHING, b).log, stamp);
  }

  lemma OtherKey(q: set<Request>, k: Key) returns (o: Request)
    requires !OneKey(MovedOf(q), k.stamp)
    ensures o in q && o.Shift? && o.key.stamp == k.stamp && o.key != k
  {
    var a, b :| a in MovedOf(q) && b in MovedOf(q) && a.0.stamp == k.stamp && b.0.stamp == k.stamp && a.0 != b.0;
    o := MoverOf(q, if a.0 != k then a.0 else b.0, if a.0 != k then a.1 else b.1);
  }

  /** What is logged under a stamp is the same for every order of the requests if and only if the
      stamp's moves all went into one list, or none of them is of the node that ranks best for
      its key. */
  lemma LogOrderIff(derive: Derive, owners: map<nat, nat>, q: set<Request>, stamp: Stamp)
    requires OneList(owners) && Landed(q, owners)
    ensures OneLog(derive, owners, q, stamp) <==> OneKey(MovedOf(q), stamp) || NoMoverBest(derive, q, stamp)
  {
    hide OneList, Landed, OneKey, NoMoverBest, TakeAll, Orders, SameAt;
    if OneKey(MovedOf(q), stamp) || NoMoverBest(derive, q, stamp) {
      forall a, b | Orders(q, a) && Orders(q, b)
        ensures SameAt(TakeAll(derive, owners, NOTHING, a).log, TakeAll(derive, owners, NOTHING, b).log, stamp)
      {
        OneOrder(derive, owners, q, stamp, a, b);
      }
    } else {
      OrderLogs(derive, owners, q, stamp);
    }
  }

  // ---- the registry ----

  /** The registry answers a move just so. */
  method MoveAsTaken(r: Registry, dest: nat, node: nat, anchor: Anchor, stamp: Stamp)
    requires r.Valid() && node in r.movable && dest in r.owners
    modifies r
    ensures r.Valid()
    ensures var h := Take(r.derive, old(r.owners), old(Held(r.index, r.seats, r.log)),
                          Shift(Key(dest, stamp), node, anchor));
            r.index == h.index && r.log == h.log
  {
    hide Good, Outranks;
    r.ApplyMove(dest, node, anchor, stamp);
  }

  /** And a birth. */
  method BirthAsTaken(r: Registry, list: nat, kind: Kind, anchor: Anchor, stamp: Stamp)
    requires r.Valid() && list in r.owners
    modifies r
    ensures r.Valid()
    ensures var key := Key(list, stamp);
            var h := Take(r.derive, old(r.owners), old(Held(r.index, r.seats, r.log)),
                          Birth(key, r.derive(key, kind), anchor));
            r.index == h.index && r.log == h.log
  {
    hide Good, Outranks;
    r.InsertChild(list, kind, anchor, stamp);
  }
}
