/** Positions that survive edits: bound to an item's edge, resolved against whatever the
    sequence has become. */
module Positions {
  import opened Stamps
  import opened Collections
  import opened Trees
  import opened Fugue
  import opened Runs
  import opened Lists
  import opened Spans
  import opened SpanWalk
  import opened Reads

  datatype RelativePosition = Start | End | Before(id: Stamp) | After(id: Stamp)

  /** How many shown ids come before `id` in a sequence. */
  function Rank(s: Logical, q: seq<Stamp>, id: Stamp): nat {
    if q == [] || q[0] == id then 0 else (if Shown(s, q[0]) then 1 else 0) + Rank(s, q[1..], id)
  }

  /** The position captured at a live index: the right edge of the item before the gap, or
      the left edge of the item after it. */
  function CaptureIn(live: seq<Stamp>, index: nat, side: Side): RelativePosition {
    var i := if index <= |live| then index else |live|;
    match side
    case Left => if i > 0 then After(live[i - 1]) else Start
    case Right => if i < |live| then Before(live[i]) else End
  }

  ghost function Capture(s: Logical, index: nat, side: Side): RelativePosition {
    CaptureIn(LiveSequence(s), index, side)
  }

  /** The live index a position stands at now. */
  ghost function Resolve(s: Logical, pos: RelativePosition): nat {
    var q := SequenceOf(s);
    match pos
    case Start => 0
    case End => |LiveSequence(s)|
    case Before(id) => if id in q then Rank(s, q, id) else |LiveSequence(s)|
    case After(id) => if id in q then Rank(s, q, id) + (if Shown(s, id) then 1 else 0) else 0
  }

  // ---- ranks ----

  lemma {:induction false} RankSplit(s: Logical, a: seq<Stamp>, id: Stamp, b: seq<Stamp>)
    requires id !in a
    ensures Rank(s, a + [id] + b, id) == |ShownIn(s, a)|
  {
    hide Shown;
    if a == [] {
      assert (a + [id] + b)[0] == id;
    } else {
      RankSplit(s, a[1..], id, b);
      assert (a + [id] + b)[1..] == a[1..] + [id] + b;
    }
  }

  lemma {:induction false} ShownMember(s: Logical, q: seq<Stamp>, id: Stamp)
    ensures id in ShownIn(s, q) <==> id in q && Shown(s, id)
  {
    hide Shown;
    if q != [] {
      ShownMember(s, q[1..], id);
    }
  }

  /** An item shown at live index `i` has `i` shown items before it. */
  lemma {:induction false} RankOfShown(s: Logical, q: seq<Stamp>, i: nat)
    requires Distinct(q) && i < |ShownIn(s, q)|
    ensures ShownIn(s, q)[i] in q && Shown(s, ShownIn(s, q)[i]) && Rank(s, q, ShownIn(s, q)[i]) == i
    decreases |q|
  {
    hide Shown;
    var live := ShownIn(s, q);
    ShownMember(s, q, live[i]);
    var first := if Shown(s, q[0]) then 1 else 0;
    if i >= first {
      assert Distinct(q[1..]);
      RankOfShown(s, q[1..], i - first);
      assert q[1..][..] == q[1..];
      if live[i] == q[0] {
        RepeatedHead(q);
        assert false;
      }
    }
  }

  lemma RepeatedHead(q: seq<Stamp>)
    requires Distinct(q) && q != []
    ensures q[0] !in q[1..]
  {
  }

  lemma LiveRank(s: Logical, i: nat)
    requires i < |LiveSequence(s)|
    ensures var id := LiveSequence(s)[i];
            id in SequenceOf(s) && Shown(s, id) && Rank(s, SequenceOf(s), id) == i
  {
    hide Order, ShownIn, Rank, Distinct;
    OrderReaches(AnchorMap(s));
    RankOfShown(s, SequenceOf(s), i);
  }

  // ---- capture and resolve ----

  /** A position resolves, in the state it was captured in, to the index it was captured
      at; a stale index pins to the end. */
  lemma ResolveCapture(s: Logical, index: nat, side: Side)
    ensures Resolve(s, Capture(s, index, side)) == Min(index, |LiveSequence(s)|)
  {
    hide LiveSequence, SequenceOf, Rank, Shown;
    var live := LiveSequence(s);
    var i := Min(index, |live|);
    if side == Left && i > 0 {
      LiveRank(s, i - 1);
    } else if side == Right && i < |live| {
      LiveRank(s, i);
    }
  }

  /** Inserting an item elsewhere carries a position with the item it is bound to: gravity
      decides only the insert at the very index. */
  lemma ResolveAfterInsert(s: Logical, t: Logical, id: Stamp, at: nat, index: nat, side: Side)
    requires InsertedAt(s, t, id, at) && at <= |LiveSequence(s)| && index <= |LiveSequence(s)|
    ensures Resolve(t, Capture(s, index, side))
         == if at < index || (at == index && side == Right) then index + 1 else index
  {
    hide LiveSequence, SequenceOf, Rank, Shown;
    var live, live' := LiveSequence(s), LiveSequence(t);
    assert |live'| == |live| + 1;
    match side {
      case Left =>
        if index > 0 {
          var j := if at < index then index else index - 1;
          assert live'[j] == live[index - 1];
          LiveRank(t, j);
        }
      case Right =>
        if index < |live| {
          var j := if at <= index then index + 1 else index;
          assert live'[j] == live[index];
          LiveRank(t, j);
        }
    }
  }

  // ---- deletes ----

  lemma {:induction false} RankWithout(s: Logical, q: seq<Stamp>, d: Stamp, id: Stamp)
    requires Distinct(q) && d in q && id in q && Shown(s, d)
    ensures Rank(DeleteState(s, d), q, id) == Rank(s, q, id) - (if Rank(s, q, d) < Rank(s, q, id) then 1 else 0)
    decreases |q|
  {
    if q[0] == id {
    } else if q[0] == d {
      RepeatedHead(q);
      RankUntouched(s, q[1..], d, id);
    } else {
      assert Distinct(q[1..]);
      RankWithout(s, q[1..], d, id);
    }
  }

  lemma {:induction false} RankUntouched(s: Logical, q: seq<Stamp>, d: Stamp, id: Stamp)
    requires d !in q
    ensures Rank(DeleteState(s, d), q, id) == Rank(s, q, id)
  {
    if q != [] {
      RankUntouched(s, q[1..], d, id);
    }
  }

  lemma {:induction false} ShownWithout(s: Logical, q: seq<Stamp>, d: Stamp)
    requires Distinct(q) && d in q && Shown(s, d)
    ensures |ShownIn(DeleteState(s, d), q)| == |ShownIn(s, q)| - 1
    decreases |q|
  {
    if q[0] == d {
      RepeatedHead(q);
      ShownUntouched(s, q[1..], d);
    } else {
      assert Distinct(q[1..]);
      ShownWithout(s, q[1..], d);
    }
  }

  lemma {:induction false} ShownUntouched(s: Logical, q: seq<Stamp>, d: Stamp)
    requires d !in q
    ensures ShownIn(DeleteState(s, d), q) == ShownIn(s, q)
  {
    if q != [] {
      ShownUntouched(s, q[1..], d);
    }
  }

  lemma DeleteKeepsOrder(s: Logical, d: Stamp)
    ensures SequenceOf(DeleteState(s, d)) == SequenceOf(s)
  {
    hide Order;
    assert AnchorMap(DeleteState(s, d)) == AnchorMap(s);
  }

  /** Where the item at live index `j` stands once the one at `at` is deleted. */
  lemma RankAfterDelete(s: Logical, at: nat, j: nat)
    requires at < |LiveSequence(s)| && j < |LiveSequence(s)|
    ensures var t, q, id := DeleteState(s, LiveSequence(s)[at]), SequenceOf(s), LiveSequence(s)[j];
            && id in q && Rank(t, q, id) == (if at < j then j - 1 else j)
            && (Shown(t, id) <==> j != at)
  {
    hide Order, Rank, ShownIn, Shown, Distinct, DeleteState;
    var live, q := LiveSequence(s), SequenceOf(s);
    OrderReaches(AnchorMap(s));
    LiveRank(s, at);
    LiveRank(s, j);
    RankWithout(s, q, live[at], live[j]);
    DeletedNotShown(s, live[at]);
  }

  /** Deleting the item at a live index shifts the positions past it by one and no other,
      even the positions bound to the deleted item. */
  lemma ResolveAfterDelete(s: Logical, at: nat, index: nat, side: Side)
    requires at < |LiveSequence(s)| && index <= |LiveSequence(s)|
    ensures Resolve(DeleteState(s, LiveSequence(s)[at]), Capture(s, index, side))
         == if at < index then index - 1 else index
  {
    hide SequenceOf, LiveSequence, Rank, Shown, DeleteState;
    var live := LiveSequence(s);
    var d := live[at];
    DeleteKeepsOrder(s, d);
    OneFewer(s, at);
    match side {
      case Left =>
        if index > 0 {
          RankAfterDelete(s, at, index - 1);
        }
      case Right =>
        if index < |live| {
          RankAfterDelete(s, at, index);
        }
    }
  }

  lemma OneFewer(s: Logical, at: nat)
    requires at < |LiveSequence(s)|
    ensures |LiveSequence(DeleteState(s, LiveSequence(s)[at]))| == |LiveSequence(s)| - 1
  {
    hide Order, ShownIn, Shown, Distinct, DeleteState, Rank;
    var d := LiveSequence(s)[at];
    OrderReaches(AnchorMap(s));
    LiveRank(s, at);
    DeleteKeepsOrder(s, d);
    ShownWithout(s, SequenceOf(s), d);
  }

  lemma DeletedNotShown(s: Logical, d: Stamp)
    ensures !Shown(DeleteState(s, d), d)
    ensures forall x :: x != d ==> (Shown(DeleteState(s, d), x) <==> Shown(s, x))
  {
  }

  // ---- the walk behind a resolve ----

  /** The number of shown ids before `id` and whether `id` is shown, in one walk. */
  method FindRank(nodes: map<Stamp, Node>, dead: DeadMap, id: Stamp) returns (r: Option<(nat, bool)>)
    requires StateValid(nodes, dead)
    ensures var s := Abs(nodes, dead); var q := SequenceOf(s);
            r == if id in q then Some((Rank(s, q, id), Shown(s, id))) else None
  {
    hide StateValid, IsPiece, Abs, ShownIn, AllIds, SpanHolds, SequenceOf, Order, AnchorsOf, Rank, Shown, Distinct,
         SpanIds;
    var order := TreeOrder(nodes, dead);
    SequenceIs(nodes, dead);
    OrderReaches(AnchorsOf(nodes, dead));
    var before, k := 0, 0;
    ShownStart(nodes, dead, order);
    AllIdsNone(order, id);
    while k < |order|
      invariant 0 <= k <= |order|
      invariant before == |ShownIn(Abs(nodes, dead), AllIds(order[..k]))|
      invariant id !in AllIds(order[..k])
    {
      var here := SpanHolds(order[k], id);
      SpanHas(order[k], id);
      AllIdsSnoc(order, k);
      if here {
        RankHere(nodes, dead, order, k, id);
        return Some((before, order[k].NodeSpan? && id in nodes && !nodes[id].movedAway));
      }
      ShownSnoc(nodes, dead, order, k);
      before := before + |SpanShows(nodes, order[k])|;
      k := k + 1;
    }
    assert order[..k] == order;
    return None;
  }

  lemma AllIdsNone(order: seq<Span>, id: Stamp)
    ensures id !in AllIds(order[..0])
  {
  }

  /** Whether a record stands for an id. */
  predicate SpanHolds(s: Span, id: Stamp) {
    match s case NodeSpan(x) => x == id case DeadSpan(x, n) => Covers(x, n, id)
  }

  lemma SpanHas(s: Span, id: Stamp)
    ensures id in SpanIds(s) <==> SpanHolds(s, id)
  {
    var ids := SpanIds(s);
    if id in ids {
      var i :| 0 <= i < |ids| && ids[i] == id;
    }
    match s {
      case NodeSpan(x) => assert ids[0] == x;
      case DeadSpan(x, n) =>
        if Covers(x, n, id) {
          assert ids[id.lamport - x.lamport] == id;
        }
    }
  }

  lemma RankHere(nodes: map<Stamp, Node>, dead: DeadMap, order: seq<Span>, k: nat, id: Stamp)
    requires StateValid(nodes, dead) && k < |order| && IsPiece(nodes, dead, order[k]) && id in SpanIds(order[k])
    requires id !in AllIds(order[..k]) && Distinct(AllIds(order))
    ensures var s := Abs(nodes, dead);
            && id in AllIds(order)
            && Rank(s, AllIds(order), id) == |ShownIn(s, AllIds(order[..k]))|
            && (Shown(s, id) <==> order[k].NodeSpan? && id in nodes && !nodes[id].movedAway)
  {
    hide StateValid, Abs, ShownIn, AllIds, Rank, Shown, IsPiece, SpanIds;
    var s := Abs(nodes, dead);
    var ids := SpanIds(order[k]);
    var i :| 0 <= i < |ids| && ids[i] == id;
    AllIdsConcat(order[..k], order[k..]);
    assert order == order[..k] + order[k..];
    AllIdsConcat([order[k]], order[k + 1..]);
    assert order[k..] == [order[k]] + order[k + 1..];
    AllIdsSnoc([order[k]], 0);
    assert [order[k]][..0] == [] && [order[k]][..1] == [order[k]];
    AllIdsEmpty();
    var a, b := AllIds(order[..k]) + ids[..i], ids[i + 1..] + AllIds(order[k + 1..]);
    assert ids == ids[..i] + [id] + ids[i + 1..];
    assert AllIds(order) == AllIds(order[..k]) + ids + AllIds(order[k + 1..]);
    assert AllIds(order) == a + [id] + b;
    assert id !in ids[..i] by {
      DistinctInside(AllIds(order[..k]), ids, AllIds(order[k + 1..]), i);
    }
    RankSplit(s, a, id, b);
    ShownConcat(s, AllIds(order[..k]), ids[..i]);
    HereShown(nodes, dead, order[k], i);
  }

  lemma AllIdsEmpty()
    ensures AllIds([]) == []
  {
  }

  lemma DistinctInside(a: seq<Stamp>, ids: seq<Stamp>, b: seq<Stamp>, i: nat)
    requires Distinct(a + ids + b) && i < |ids|
    ensures ids[i] !in ids[..i]
  {
    forall j | 0 <= j < i
      ensures ids[j] != ids[i]
    {
      assert (a + ids + b)[|a| + j] == ids[j] && (a + ids + b)[|a| + i] == ids[i];
    }
  }

  /** Inside a record nothing is shown before the id in question. */
  lemma HereShown(nodes: map<Stamp, Node>, dead: DeadMap, sp: Span, i: nat)
    requires StateValid(nodes, dead) && IsPiece(nodes, dead, sp) && i < SpanLen(sp)
    ensures var s, id := Abs(nodes, dead), SpanIds(sp)[i];
            && ShownIn(s, SpanIds(sp)[..i]) == []
            && (Shown(s, id) <==> sp.NodeSpan? && id in nodes && !nodes[id].movedAway)
  {
    hide StateValid, Abs, IsPiece;
    match sp {
      case NodeSpan(x) =>
        AbsAt(nodes, dead, x);
        PieceIsNode(nodes, dead, sp);
      case DeadSpan(x, n) =>
        forall j | 0 <= j < n ensures !Shown(Abs(nodes, dead), SpanIds(sp)[j]) {
          DeadNotShown(nodes, dead, sp, j);
        }
        ShownNone(Abs(nodes, dead), SpanIds(sp)[..i]);
    }
  }

  lemma PieceIsNode(nodes: map<Stamp, Node>, dead: DeadMap, sp: Span)
    requires IsPiece(nodes, dead, sp) && sp.NodeSpan?
    ensures sp.id in nodes
  {
  }
}
