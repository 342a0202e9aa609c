/** The stack walk over spans, and its agreement with the naive walk over ids. */
module SpanWalk {
  import opened Stamps
  import opened Collections
  import opened Trees
  import opened Fugue
  import opened Runs
  import opened Lists
  import opened Spans

  // ---- the tree of records ----

  ghost predicate IsPiece(nodes: map<Stamp, Node>, dead: DeadMap, s: Span) {
    exists a :: Piece(nodes, dead, s, a)
  }

  /** Where a record's children hang: left of its first id, right of its last. */
  function SideOf(p: Option<Span>, s: Side): Anchor {
    match p
    case None => Anchor(None, s)
    case Some(sp) => Anchor(Some(if s == Left then Head(sp) else Last(sp)), s)
  }

  ghost function KidSpans(nodes: map<Stamp, Node>, dead: DeadMap, b: Buckets, p: Option<Span>, s: Side): seq<Span> {
    if p.Some? && !IsPiece(nodes, dead, p.value) then [] else Bucket(b, SideOf(p, s))
  }

  ghost function SpanKids(nodes: map<Stamp, Node>, dead: DeadMap, b: Buckets): Kids<Span> {
    (p, s) => KidSpans(nodes, dead, b, p, s)
  }

  lemma SameEnd(nodes: map<Stamp, Node>, dead: DeadMap, h: Stamp, f: nat, n: nat, g: nat, k: nat)
    requires PieceAt(nodes, dead, h, f, n) && PieceAt(nodes, dead, h, g, k) && f + n == g + k
    ensures f == g
  {
    hide IsCut;
    assert Edge(nodes, dead, h, f) && Edge(nodes, dead, h, g);
  }

  lemma DeadByLast(nodes: map<Stamp, Node>, dead: DeadMap, s: Span, a: Anchor, t: Span, c: Anchor)
    requires WellFormed(dead) && Piece(nodes, dead, s, a) && Piece(nodes, dead, t, c)
    requires s.DeadSpan? && t.DeadSpan? && Last(s) == Last(t)
    ensures s == t
  {
    hide IsCut, Edge;
    var g :| RunPiece(nodes, dead, g, s, a);
    var h :| RunPiece(nodes, dead, h, t, c);
    OneHolder(dead, Last(s));
    assert Holds(dead, g, Last(s)) && Holds(dead, h, Last(t));
    SameEnd(nodes, dead, g, s.start.lamport - g.lamport, s.len, t.start.lamport - g.lamport, t.len);
  }

  lemma PieceByLast(nodes: map<Stamp, Node>, dead: DeadMap, s: Span, a: Anchor, t: Span, c: Anchor)
    requires StateValid(nodes, dead) && Piece(nodes, dead, s, a) && Piece(nodes, dead, t, c) && Last(s) == Last(t)
    ensures s == t
  {
    hide Tombs, IsCut;
    match (s, t) {
      case (NodeSpan(_), NodeSpan(_)) =>
      case (DeadSpan(x, n), DeadSpan(y, k)) =>
        DeadByLast(nodes, dead, s, a, t, c);
      case (NodeSpan(x), DeadSpan(_, _)) =>
        var h :| RunPiece(nodes, dead, h, t, c);
        TombAt(dead, h, Last(t));
        assert false;
      case (DeadSpan(_, _), NodeSpan(x)) =>
        var h :| RunPiece(nodes, dead, h, s, a);
        TombAt(dead, h, Last(s));
        assert false;
    }
  }

  ghost function AllSpans(b: Buckets): set<Span> {
    set a, s | a in b && s in b[a] :: s
  }

  lemma KidIs(nodes: map<Stamp, Node>, dead: DeadMap, b: Buckets, p: Option<Span>, s: Side, i: nat)
    requires BucketsOf(nodes, dead, b) && i < |KidSpans(nodes, dead, b, p, s)|
    ensures var c := KidSpans(nodes, dead, b, p, s)[i];
            Piece(nodes, dead, c, SideOf(p, s)) && c in AllSpans(b)
    ensures p.Some? ==> IsPiece(nodes, dead, p.value)
  {
    hide Piece;
    var a := SideOf(p, s);
    assert BucketOf(nodes, dead, b, a);
    assert KidSpans(nodes, dead, b, p, s)[i] in Bucket(b, a);
  }

  lemma SameParent(nodes: map<Stamp, Node>, dead: DeadMap, p: Option<Span>, s: Side, q: Option<Span>, r: Side)
    requires StateValid(nodes, dead) && SideOf(p, s) == SideOf(q, r)
    requires p.Some? ==> IsPiece(nodes, dead, p.value)
    requires q.Some? ==> IsPiece(nodes, dead, q.value)
    ensures p == q && s == r
  {
    hide Piece, StateValid;
    if p.Some? && q.Some? {
      var a :| Piece(nodes, dead, p.value, a);
      var c :| Piece(nodes, dead, q.value, c);
      if s == Left {
        PieceByHead(nodes, dead, p.value, a, q.value, c);
      } else {
        PieceByLast(nodes, dead, p.value, a, q.value, c);
      }
    }
  }

  /** Each record hangs in one place, so the records form a forest. */
  lemma SpansFostered(nodes: map<Stamp, Node>, dead: DeadMap, b: Buckets)
    requires StateValid(nodes, dead) && BucketsOf(nodes, dead, b)
    ensures Fostered(SpanKids(nodes, dead, b), AllSpans(b))
  {
    hide StateValid, BucketsOf, Piece, KidSpans, AllSpans, SideOf;
    var k := SpanKids(nodes, dead, b);
    forall p, s, i | 0 <= i < |k(p, s)|
      ensures k(p, s)[i] in AllSpans(b)
    {
      KidIs(nodes, dead, b, p, s, i);
    }
    forall p, s, i, q, r, j | 0 <= i < |k(p, s)| && 0 <= j < |k(q, r)| && k(p, s)[i] == k(q, r)[j]
      ensures p == q && s == r && i == j
    {
      KidIs(nodes, dead, b, p, s, i);
      KidIs(nodes, dead, b, q, r, j);
      var c := k(p, s)[i];
      PieceByHead(nodes, dead, c, SideOf(p, s), c, SideOf(q, r));
      SameParent(nodes, dead, p, s, q, r);
      KidsAscend(nodes, dead, b, p, s, i, j);
    }
  }

  lemma KidsAscend(nodes: map<Stamp, Node>, dead: DeadMap, b: Buckets, p: Option<Span>, s: Side, i: nat, j: nat)
    requires BucketsOf(nodes, dead, b) && i < |KidSpans(nodes, dead, b, p, s)| && j < |KidSpans(nodes, dead, b, p, s)|
    requires KidSpans(nodes, dead, b, p, s)[i] == KidSpans(nodes, dead, b, p, s)[j]
    ensures i == j
  {
    hide Piece;
    var a := SideOf(p, s);
    assert BucketOf(nodes, dead, b, a);
    assert Heads(Bucket(b, a))[i] == Heads(Bucket(b, a))[j];
  }

  // ---- the stack loop ----

  datatype Step = Emit(span: Span) | Expand(at: Option<Span>)

  /** The tree a pending step stands for. */
  datatype Work = Say(span: Span) | Walk(tree: Tree<Span>) | Whole(ls: seq<Tree<Span>>, rs: seq<Tree<Span>>)

  ghost function Said(w: Work): seq<Span> {
    match w
    case Say(s) => [s]
    case Walk(t) => InOrder(t)
    case Whole(ls, rs) => InOrderAll(ls) + InOrderAll(rs)
  }

  ghost function Cost(w: Work): nat {
    match w
    case Say(_) => 1
    case Walk(_) => 2 * |Said(w)|
    case Whole(_, _) => 2 * |Said(w)| + 1
  }

  /** What a stack will still emit, its top first. */
  ghost function Pending(ws: seq<Work>): seq<Span> {
    if ws == [] then [] else Said(ws[|ws| - 1]) + Pending(ws[..|ws| - 1])
  }

  ghost function TotalCost(ws: seq<Work>): nat {
    if ws == [] then 0 else Cost(ws[|ws| - 1]) + TotalCost(ws[..|ws| - 1])
  }

  ghost predicate StandsFor(nodes: map<Stamp, Node>, dead: DeadMap, b: Buckets, step: Step, w: Work) {
    var k := SpanKids(nodes, dead, b);
    match (step, w)
    case (Emit(s), Say(t)) => s == t
    case (Expand(Some(s)), Walk(t)) => t.node == s && TreeOf(k, t) && IsPiece(nodes, dead, s)
    case (Expand(None), Whole(ls, rs)) => ForestOf(k, k(None, Left), ls) && ForestOf(k, k(None, Right), rs)
    case _ => false
  }

  ghost predicate StackFor(nodes: map<Stamp, Node>, dead: DeadMap, b: Buckets, stack: seq<Step>, ws: seq<Work>) {
    |stack| == |ws| && forall i :: 0 <= i < |stack| ==> StandsFor(nodes, dead, b, stack[i], ws[i])
  }

  /** Children pushed in reverse, so the first is on top. */
  function Pushes(kids: seq<Span>): (r: seq<Step>)
    ensures |r| == |kids|
    ensures forall i :: 0 <= i < |kids| ==> r[i] == Expand(Some(kids[|kids| - 1 - i]))
  {
    seq(|kids|, i requires 0 <= i < |kids| => Expand(Some(kids[|kids| - 1 - i])))
  }

  ghost function Works(ts: seq<Tree<Span>>): (r: seq<Work>)
    ensures |r| == |ts|
    ensures forall i :: 0 <= i < |ts| ==> r[i] == Walk(ts[|ts| - 1 - i])
  {
    seq(|ts|, i requires 0 <= i < |ts| => Walk(ts[|ts| - 1 - i]))
  }

  lemma {:induction false} PendingPushes(ws: seq<Work>, ts: seq<Tree<Span>>)
    ensures Pending(ws + Works(ts)) == InOrderAll(ts) + Pending(ws)
    ensures TotalCost(ws + Works(ts)) == 2 * |InOrderAll(ts)| + TotalCost(ws)
    decreases |ts|
  {
    hide InOrder, Pending, TotalCost;
    if ts == [] {
      assert ws + Works(ts) == ws;
    } else {
      PendingPushes(ws, ts[1..]);
      var all := ws + Works(ts);
      assert all[..|all| - 1] == ws + Works(ts[1..]);
      assert all[|all| - 1] == Walk(ts[0]);
      PendingPop(all);
      WalkFirst(ts);
    }
  }

  lemma WalkFirst(ts: seq<Tree<Span>>)
    requires ts != []
    ensures InOrderAll(ts) == InOrder(ts[0]) + InOrderAll(ts[1..])
  {
  }

  lemma PendingSay(ws: seq<Work>, s: Span)
    ensures Pending(ws + [Say(s)]) == [s] + Pending(ws)
    ensures TotalCost(ws + [Say(s)]) == 1 + TotalCost(ws)
  {
    assert (ws + [Say(s)])[..|ws|] == ws;
  }

  lemma PushesStand(nodes: map<Stamp, Node>, dead: DeadMap, b: Buckets, p: Option<Span>, s: Side, ts: seq<Tree<Span>>)
    requires BucketsOf(nodes, dead, b)
    requires ForestOf(SpanKids(nodes, dead, b), KidSpans(nodes, dead, b, p, s), ts)
    ensures StackFor(nodes, dead, b, Pushes(KidSpans(nodes, dead, b, p, s)), Works(ts))
  {
    hide BucketsOf, KidSpans, TreeOf, Piece;
    var kids := KidSpans(nodes, dead, b, p, s);
    forall i | 0 <= i < |kids|
      ensures StandsFor(nodes, dead, b, Pushes(kids)[i], Works(ts)[i])
    {
      var j := |kids| - 1 - i;
      KidIs(nodes, dead, b, p, s, j);
      assert Roots(ts)[j] == ts[j].node;
    }
  }

  ghost function Sides(w: Work): (seq<Tree<Span>>, seq<Tree<Span>>)
    requires !w.Say?
  {
    match w case Walk(t) => (t.left, t.right) case Whole(ls, rs) => (ls, rs)
  }

  lemma SidesStand(nodes: map<Stamp, Node>, dead: DeadMap, b: Buckets, p: Option<Span>, w: Work)
    requires StandsFor(nodes, dead, b, Expand(p), w)
    ensures ForestOf(SpanKids(nodes, dead, b), KidSpans(nodes, dead, b, p, Left), Sides(w).0)
    ensures ForestOf(SpanKids(nodes, dead, b), KidSpans(nodes, dead, b, p, Right), Sides(w).1)
    ensures KidSpans(nodes, dead, b, p, Left) == Bucket(b, SideOf(p, Left))
    ensures KidSpans(nodes, dead, b, p, Right) == Bucket(b, SideOf(p, Right))
    ensures Said(w) == InOrderAll(Sides(w).0) + (if p.Some? then [p.value] else []) + InOrderAll(Sides(w).1)
  {
    var k := SpanKids(nodes, dead, b);
    assert k(p, Left) == KidSpans(nodes, dead, b, p, Left) && k(p, Right) == KidSpans(nodes, dead, b, p, Right);
  }

  lemma StackConcat(nodes: map<Stamp, Node>, dead: DeadMap, b: Buckets,
                    s: seq<Step>, ws: seq<Work>, t: seq<Step>, vs: seq<Work>)
    requires StackFor(nodes, dead, b, s, ws) && StackFor(nodes, dead, b, t, vs)
    ensures StackFor(nodes, dead, b, s + t, ws + vs)
  {
    hide StandsFor;
  }

  /** Expanding a step replaces its walk by its parts and costs less. */
  lemma Expanded(nodes: map<Stamp, Node>, dead: DeadMap, b: Buckets, stack: seq<Step>, ws: seq<Work>,
                 p: Option<Span>, w: Work)
    requires BucketsOf(nodes, dead, b) && StackFor(nodes, dead, b, stack, ws) && StandsFor(nodes, dead, b, Expand(p), w)
    ensures !w.Say?
    ensures var stack' := stack + Pushes(Bucket(b, SideOf(p, Right))) + (if p.Some? then [Emit(p.value)] else [])
                          + Pushes(Bucket(b, SideOf(p, Left)));
            var ws' := ws + Works(Sides(w).1) + (if p.Some? then [Say(p.value)] else []) + Works(Sides(w).0);
            && StackFor(nodes, dead, b, stack', ws')
            && Pending(ws') == Said(w) + Pending(ws)
            && TotalCost(ws') < Cost(w) + TotalCost(ws)
  {
    hide BucketsOf, KidSpans, TreeOf, Pending, TotalCost, InOrder, InOrderAll, Bucket, SideOf;
    SidesStand(nodes, dead, b, p, w);
    PushesStand(nodes, dead, b, p, Right, Sides(w).1);
    PushesStand(nodes, dead, b, p, Left, Sides(w).0);
    var r, l := Pushes(Bucket(b, SideOf(p, Right))), Pushes(Bucket(b, SideOf(p, Left)));
    var emit := if p.Some? then [Emit(p.value)] else [];
    var say := if p.Some? then [Say(p.value)] else [];
    assert StackFor(nodes, dead, b, emit, say);
    StackConcat(nodes, dead, b, stack, ws, r, Works(Sides(w).1));
    StackConcat(nodes, dead, b, stack + r, ws + Works(Sides(w).1), emit, say);
    StackConcat(nodes, dead, b, stack + r + emit, ws + Works(Sides(w).1) + say, l, Works(Sides(w).0));
    ExpandedCost(ws, p, w);
  }

  lemma ExpandedCost(ws: seq<Work>, p: Option<Span>, w: Work)
    requires !w.Say? && (w.Walk? <==> p.Some?)
    requires Said(w) == InOrderAll(Sides(w).0) + (if p.Some? then [p.value] else []) + InOrderAll(Sides(w).1)
    ensures var ws' := ws + Works(Sides(w).1) + (if p.Some? then [Say(p.value)] else []) + Works(Sides(w).0);
            Pending(ws') == Said(w) + Pending(ws) && TotalCost(ws') < Cost(w) + TotalCost(ws)
  {
    hide Pending, TotalCost, InOrder, InOrderAll, Said;
    var w1 := ws + Works(Sides(w).1);
    PendingPushes(ws, Sides(w).1);
    if p.Some? {
      PendingSay(w1, p.value);
      PendingPushes(w1 + [Say(p.value)], Sides(w).0);
    } else {
      assert w1 + [] == w1;
      PendingPushes(w1, Sides(w).0);
    }
  }

  /** Every record in sequence order, deleted stretches included: expanding the spans
      spells the naive walk over ids. */
  method TreeOrder(nodes: map<Stamp, Node>, dead: DeadMap) returns (out: seq<Span>)
    requires StateValid(nodes, dead)
    ensures AllIds(out) == Order(AnchorsOf(nodes, dead))
    ensures forall i :: 0 <= i < |out| ==> IsPiece(nodes, dead, out[i])
  {
    hide StateValid, BucketsOf, TreeOf, Pending, TotalCost, IsPiece, StandsFor, StackFor, SpanKids, InOrderAll, Said,
         Cost;
    var children := Children(nodes, dead);
    ghost var b := children;
    SpansFostered(nodes, dead, b);
    ghost var k := SpanKids(nodes, dead, b);
    ghost var ls, rs := WalkExists(k, AllSpans(b));
    ghost var walk := InOrderAll(ls) + InOrderAll(rs);
    out := [];
    var stack := [Expand(None)];
    ghost var ws := [Whole(ls, rs)];
    PendingOne(ws[0]);
    WholeStands(nodes, dead, b, ls, rs);
    while stack != []
      invariant StackFor(nodes, dead, b, stack, ws)
      invariant out + Pending(ws) == walk
      decreases TotalCost(ws)
    {
      var step := stack[|stack| - 1];
      StackPop(nodes, dead, b, stack, ws);
      PendingPop(ws);
      ghost var w := ws[|ws| - 1];
      stack, ws := stack[..|stack| - 1], ws[..|ws| - 1];
      match step {
        case Emit(s) =>
          SayIs(nodes, dead, b, s, w);
          out := out + [s];
        case Expand(p) =>
          Expanded(nodes, dead, b, stack, ws, p, w);
          var rights, lefts := Bucket(children, SideOf(p, Right)), Bucket(children, SideOf(p, Left));
          ws := ws + Works(Sides(w).1) + (if p.Some? then [Say(p.value)] else []) + Works(Sides(w).0);
          stack := stack + Pushes(rights) + (if p.Some? then [Emit(p.value)] else []) + Pushes(lefts);
      }
    }
    PendingNone(nodes, dead, b, ws);
    assert out == walk;
    assert IsWalk(k, ls, rs, walk);
    WalkRefines(nodes, dead, b, out);
    WalkPieces(nodes, dead, b, ls, rs);
  }

  lemma {:induction false} TreePieces(nodes: map<Stamp, Node>, dead: DeadMap, b: Buckets, t: Tree<Span>, s: Span)
    requires BucketsOf(nodes, dead, b) && TreeOf(SpanKids(nodes, dead, b), t) && IsPiece(nodes, dead, t.node)
    requires s in InOrder(t)
    ensures IsPiece(nodes, dead, s)
    decreases t, 0
  {
    hide BucketsOf, IsPiece, KidSpans;
    if s != t.node {
      var k := SpanKids(nodes, dead, b);
      var side := if s in InOrderAll(t.left) then Left else Right;
      var ts := if side == Left then t.left else t.right;
      assert k(Some(t.node), side) == KidSpans(nodes, dead, b, Some(t.node), side);
      ForestPieces(nodes, dead, b, Some(t.node), side, ts, s);
    }
  }

  lemma {:induction false} ForestPieces(nodes: map<Stamp, Node>, dead: DeadMap, b: Buckets, p: Option<Span>, side: Side,
                                        ts: seq<Tree<Span>>, s: Span)
    requires BucketsOf(nodes, dead, b) && ForestOf(SpanKids(nodes, dead, b), KidSpans(nodes, dead, b, p, side), ts)
    requires s in InOrderAll(ts)
    ensures IsPiece(nodes, dead, s)
    decreases ts, 1
  {
    hide BucketsOf, KidSpans, TreeOf, InOrder, InOrderAll, Piece;
    var i := InForest(ts, s);
    assert Roots(ts)[i] == ts[i].node;
    KidIs(nodes, dead, b, p, side, i);
    TreePieces(nodes, dead, b, ts[i], s);
  }

  lemma WalkPieces(nodes: map<Stamp, Node>, dead: DeadMap, b: Buckets, ls: seq<Tree<Span>>, rs: seq<Tree<Span>>)
    requires BucketsOf(nodes, dead, b)
    requires IsWalk(SpanKids(nodes, dead, b), ls, rs, InOrderAll(ls) + InOrderAll(rs))
    ensures forall s :: s in InOrderAll(ls) + InOrderAll(rs) ==> IsPiece(nodes, dead, s)
  {
    hide BucketsOf, TreeOf, InOrderAll, IsPiece, KidSpans;
    var k := SpanKids(nodes, dead, b);
    assert k(None, Left) == KidSpans(nodes, dead, b, None, Left);
    assert k(None, Right) == KidSpans(nodes, dead, b, None, Right);
    forall s | s in InOrderAll(ls) + InOrderAll(rs)
      ensures IsPiece(nodes, dead, s)
    {
      if s in InOrderAll(ls) {
        ForestPieces(nodes, dead, b, None, Left, ls, s);
      } else {
        ForestPieces(nodes, dead, b, None, Right, rs, s);
      }
    }
  }

  lemma WholeStands(nodes: map<Stamp, Node>, dead: DeadMap, b: Buckets, ls: seq<Tree<Span>>, rs: seq<Tree<Span>>)
    requires IsWalk(SpanKids(nodes, dead, b), ls, rs, InOrderAll(ls) + InOrderAll(rs))
    ensures StackFor(nodes, dead, b, [Expand(None)], [Whole(ls, rs)])
    ensures Said(Whole(ls, rs)) == InOrderAll(ls) + InOrderAll(rs)
  {
    hide TreeOf, InOrderAll;
  }

  lemma StackPop(nodes: map<Stamp, Node>, dead: DeadMap, b: Buckets, stack: seq<Step>, ws: seq<Work>)
    requires StackFor(nodes, dead, b, stack, ws) && stack != []
    ensures |ws| == |stack| && StandsFor(nodes, dead, b, stack[|stack| - 1], ws[|ws| - 1])
    ensures StackFor(nodes, dead, b, stack[..|stack| - 1], ws[..|ws| - 1])
  {
    hide StandsFor;
  }

  lemma SayIs(nodes: map<Stamp, Node>, dead: DeadMap, b: Buckets, s: Span, w: Work)
    requires StandsFor(nodes, dead, b, Emit(s), w)
    ensures Said(w) == [s] && Cost(w) == 1
  {
  }

  lemma PendingNone(nodes: map<Stamp, Node>, dead: DeadMap, b: Buckets, ws: seq<Work>)
    requires StackFor(nodes, dead, b, [], ws)
    ensures Pending(ws) == []
  {
  }

  lemma PendingOne(w: Work)
    ensures Pending([w]) == Said(w)
  {
    assert [w][..0] == [];
  }

  lemma PendingPop(ws: seq<Work>)
    requires ws != []
    ensures Pending(ws) == Said(ws[|ws| - 1]) + Pending(ws[..|ws| - 1])
    ensures TotalCost(ws) == Cost(ws[|ws| - 1]) + TotalCost(ws[..|ws| - 1])
  {
  }

  // ---- spans stand for their ids ----

  /** Where every id hangs, live or deleted. */
  ghost function AnchorsOf(nodes: map<Stamp, Node>, dead: DeadMap): Anchors {
    map id | id in Abs(nodes, dead) :: CellAnchor(Abs(nodes, dead)[id])
  }

  lemma AnchorsAt(nodes: map<Stamp, Node>, dead: DeadMap, id: Stamp)
    ensures id in AnchorsOf(nodes, dead) <==> id in nodes || id in Tombs(dead)
    ensures id in nodes ==> AnchorsOf(nodes, dead)[id] == nodes[id].anchor
    ensures id !in nodes && id in Tombs(dead) ==> AnchorsOf(nodes, dead)[id] == Tombs(dead)[id]
  {
    hide Tombs, Abs;
    AbsAt(nodes, dead, id);
  }

  /** What hangs at an anchor is a node, a run head, or the next id of a run. */
  lemma HangsAt(nodes: map<Stamp, Node>, dead: DeadMap, x: Stamp, a: Anchor)
    requires StateValid(nodes, dead) && x in AnchorsOf(nodes, dead) && AnchorsOf(nodes, dead)[x] == a
    ensures || (x in nodes && nodes[x].anchor == a)
            || (x in dead && dead[x].anchor == a)
            || (exists h :: Holds(dead, h, x) && h != x
                  && a == Anchor(Some(RunId(h, x.lamport - h.lamport - 1)), Right))
  {
    hide Tombs, AnchorsOf;
    AnchorsAt(nodes, dead, x);
    if x !in nodes {
      var h := TombFrom(dead, x);
    }
  }

  /** Between the first and the last id of a piece nothing hangs but the chain. */
  lemma Interior(nodes: map<Stamp, Node>, dead: DeadMap, h: Stamp, s: Span, a: Anchor, i: nat, x: Stamp, side: Side)
    requires StateValid(nodes, dead) && RunPiece(nodes, dead, h, s, a) && i < s.len
    requires if side == Left then i > 0 else i + 1 < s.len
    requires x in AnchorsOf(nodes, dead) && AnchorsOf(nodes, dead)[x] == Anchor(Some(RunId(s.start, i)), side)
    ensures side == Right && x == RunId(s.start, i + 1)
  {
    hide Tombs, AnchorsOf, Canonical;
    var at := Anchor(Some(RunId(s.start, i)), side);
    HangsAt(nodes, dead, x, at);
    if at in RecordAnchors(nodes, dead) {
      NotCutInside(nodes, dead, h, s, a, i, side);
      assert false;
    }
  }

  lemma NotCutInside(nodes: map<Stamp, Node>, dead: DeadMap, h: Stamp, s: Span, a: Anchor, i: nat, side: Side)
    requires RunPiece(nodes, dead, h, s, a) && i < s.len
    requires if side == Left then i > 0 else i + 1 < s.len
    ensures Anchor(Some(RunId(s.start, i)), side) !in RecordAnchors(nodes, dead)
  {
    hide RecordAnchors, Edge;
    var at := Anchor(Some(RunId(s.start, i)), side);
    var from := s.start.lamport - h.lamport;
    var c := from + i + if side == Left then 0 else 1;
    if at in RecordAnchors(nodes, dead) {
      assert CutsAt(dead, h, at, c);
      InsideNotCut(nodes, dead, h, from, s.len, c);
      assert false;
    }
  }

  lemma InsideNotCut(nodes: map<Stamp, Node>, dead: DeadMap, h: Stamp, from: nat, len: nat, c: nat)
    requires PieceAt(nodes, dead, h, from, len) && from < c < from + len
    ensures !IsCut(nodes, dead, h, c)
  {
    hide IsCut;
  }

  lemma AscendingOne(s: seq<Stamp>, x: Stamp)
    requires Ascending(s) && forall y :: y in s <==> y == x
    ensures s == [x]
  {
    AscendingUnique(s, [x]);
  }

  lemma NoneIn(s: seq<Stamp>)
    requires forall y :: y !in s
    ensures s == []
  {
    if s != [] {
      FirstIn(s);
      assert false;
    }
  }

  /** The chain inside a piece: each id but the last has its successor alone on its
      right, and each but the first has nothing on its left. */
  lemma ChainKids(nodes: map<Stamp, Node>, dead: DeadMap, h: Stamp, s: Span, a: Anchor, i: nat)
    requires StateValid(nodes, dead) && RunPiece(nodes, dead, h, s, a) && i < s.len
    ensures i > 0 ==> KidsOf(AnchorsOf(nodes, dead), Some(RunId(s.start, i)), Left) == []
    ensures i + 1 < s.len ==> KidsOf(AnchorsOf(nodes, dead), Some(RunId(s.start, i)), Right) == [RunId(s.start, i + 1)]
  {
    hide Tombs, AnchorsOf, Maximal, PieceAt;
    var m := AnchorsOf(nodes, dead);
    var p := RunId(s.start, i);
    if i > 0 {
      forall x
        ensures x !in KidsOf(m, Some(p), Left)
      {
        if x in KidsOf(m, Some(p), Left) {
          Interior(nodes, dead, h, s, a, i, x, Left);
          assert false;
        }
      }
      NoneIn(KidsOf(m, Some(p), Left));
    }
    if i + 1 < s.len {
      var next := RunId(s.start, i + 1);
      PieceHolds(nodes, dead, h, s, a, i + 1);
      TombAt(dead, h, next);
      AnchorsAt(nodes, dead, next);
      forall x
        ensures x in KidsOf(m, Some(p), Right) <==> x == next
      {
        if x in KidsOf(m, Some(p), Right) {
          Interior(nodes, dead, h, s, a, i, x, Right);
        }
      }
      AscendingOne(KidsOf(m, Some(p), Right), next);
    }
  }

  lemma PieceHolds(nodes: map<Stamp, Node>, dead: DeadMap, h: Stamp, s: Span, a: Anchor, i: nat)
    requires RunPiece(nodes, dead, h, s, a) && i < s.len
    ensures Holds(dead, h, RunId(s.start, i))
  {
    hide Edge, IsCut;
  }

  /** From every edge of a run short of its end, a piece starts. */
  lemma {:induction false} PieceFrom(nodes: map<Stamp, Node>, dead: DeadMap, h: Stamp, from: nat, upto: nat)
    returns (n: nat)
    requires h in dead && Edge(nodes, dead, h, from) && from < upto <= dead[h].len
    requires forall c :: from < c < upto ==> !IsCut(nodes, dead, h, c)
    ensures PieceAt(nodes, dead, h, from, n)
    decreases dead[h].len - upto
  {
    hide IsCut;
    if Edge(nodes, dead, h, upto) {
      n := upto - from;
    } else {
      n := PieceFrom(nodes, dead, h, from, upto + 1);
    }
  }

  lemma StartsPiece(nodes: map<Stamp, Node>, dead: DeadMap, h: Stamp, x: Stamp) returns (s: Span)
    requires Holds(dead, h, x) && Edge(nodes, dead, h, x.lamport - h.lamport)
    ensures s.DeadSpan? && s.start == x
    ensures RunPiece(nodes, dead, h, s, ChainAnchor(h, dead[h].anchor, x.lamport - h.lamport))
  {
    hide IsCut;
    var from := x.lamport - h.lamport;
    var n := PieceFrom(nodes, dead, h, from, from + 1);
    s := DeadSpan(x, n);
  }

  /** The id after the last of a piece, if the run goes on, starts the next piece. */
  lemma AfterPiece(nodes: map<Stamp, Node>, dead: DeadMap, p: Span, h: Stamp, x: Stamp)
    requires StateValid(nodes, dead) && IsPiece(nodes, dead, p) && Holds(dead, h, x) && h != x
    requires Last(p) == RunId(h, x.lamport - h.lamport - 1)
    ensures Edge(nodes, dead, h, x.lamport - h.lamport)
  {
    hide Tombs, IsCut, Maximal;
    var a :| Piece(nodes, dead, p, a);
    assert Holds(dead, h, Last(p));
    TombAt(dead, h, Last(p));
    var g :| RunPiece(nodes, dead, g, p, a);
    OneHolder(dead, Last(p));
    assert Holds(dead, g, Last(p));
  }

  lemma KidHasHead(nodes: map<Stamp, Node>, dead: DeadMap, b: Buckets, p: Option<Span>, side: Side, x: Stamp)
    requires StateValid(nodes, dead) && BucketsOf(nodes, dead, b)
    requires p.Some? ==> IsPiece(nodes, dead, p.value)
    requires x in AnchorsOf(nodes, dead) && AnchorsOf(nodes, dead)[x] == SideOf(p, side)
    ensures x in Heads(Bucket(b, SideOf(p, side)))
  {
    hide Tombs, AnchorsOf, BucketsOf, RunPiece, IsPiece, Canonical, IsCut;
    var a := SideOf(p, side);
    HangsAt(nodes, dead, x, a);
    var s: Span;
    if x in nodes && nodes[x].anchor == a {
      s := NodeSpan(x);
    } else if x in dead && dead[x].anchor == a {
      RunHeld(nodes, dead, x);
      s := StartsPiece(nodes, dead, x, x);
    } else {
      var h :| Holds(dead, h, x) && h != x && a == Anchor(Some(RunId(h, x.lamport - h.lamport - 1)), Right);
      AfterPiece(nodes, dead, p.value, h, x);
      s := StartsPiece(nodes, dead, h, x);
    }
    assert Piece(nodes, dead, s, a);
    InBucket(nodes, dead, b, s, a);
  }

  lemma RunHeld(nodes: map<Stamp, Node>, dead: DeadMap, h: Stamp)
    requires StateValid(nodes, dead) && h in dead
    ensures Holds(dead, h, h)
  {
  }

  lemma InBucket(nodes: map<Stamp, Node>, dead: DeadMap, b: Buckets, s: Span, a: Anchor)
    requires BucketsOf(nodes, dead, b) && Piece(nodes, dead, s, a)
    ensures Head(s) in Heads(Bucket(b, a))
  {
    hide Piece;
    assert BucketOf(nodes, dead, b, a);
    var i :| 0 <= i < |Bucket(b, a)| && Bucket(b, a)[i] == s;
    assert Heads(Bucket(b, a))[i] == Head(s);
  }

  lemma HeadHangs(nodes: map<Stamp, Node>, dead: DeadMap, s: Span, a: Anchor)
    requires StateValid(nodes, dead) && Piece(nodes, dead, s, a)
    ensures Head(s) in AnchorsOf(nodes, dead) && AnchorsOf(nodes, dead)[Head(s)] == a
  {
    hide Tombs, AnchorsOf, PieceAt;
    AnchorsAt(nodes, dead, Head(s));
    if s.DeadSpan? {
      var h :| RunPiece(nodes, dead, h, s, a);
      TombAt(dead, h, s.start);
    }
  }

  /** The children of a record, by their first ids, are the children of the id it ends
      or begins at. */
  lemma EdgeKids(nodes: map<Stamp, Node>, dead: DeadMap, b: Buckets, p: Option<Span>, side: Side)
    requires StateValid(nodes, dead) && BucketsOf(nodes, dead, b)
    requires p.Some? ==> IsPiece(nodes, dead, p.value)
    ensures KidsOf(AnchorsOf(nodes, dead), SideOf(p, side).parent, side) == Heads(Bucket(b, SideOf(p, side)))
  {
    hide StateValid, AnchorsOf, BucketsOf, Piece, IsPiece;
    var a := SideOf(p, side);
    var m := AnchorsOf(nodes, dead);
    var kids, heads := KidsOf(m, a.parent, side), Heads(Bucket(b, a));
    assert a == Anchor(a.parent, side);
    forall x
      ensures x in kids <==> x in heads
    {
      if x in kids {
        KidHasHead(nodes, dead, b, p, side, x);
      }
      if x in heads {
        var i :| 0 <= i < |heads| && heads[i] == x;
        BucketPiece(nodes, dead, b, a, i);
        HeadHangs(nodes, dead, Bucket(b, a)[i], a);
      }
    }
    BucketAscends(nodes, dead, b, a);
    AscendingUnique(kids, heads);
  }

  lemma BucketPiece(nodes: map<Stamp, Node>, dead: DeadMap, b: Buckets, a: Anchor, i: nat)
    requires BucketsOf(nodes, dead, b) && i < |Bucket(b, a)|
    ensures Piece(nodes, dead, Bucket(b, a)[i], a)
  {
    hide Piece;
    assert BucketOf(nodes, dead, b, a);
    assert Bucket(b, a)[i] in Bucket(b, a);
  }

  lemma BucketAscends(nodes: map<Stamp, Node>, dead: DeadMap, b: Buckets, a: Anchor)
    requires BucketsOf(nodes, dead, b)
    ensures Ascending(Heads(Bucket(b, a)))
  {
    hide Piece;
    assert BucketOf(nodes, dead, b, a);
  }

  // ---- the tree of ids under a tree of records ----

  /** A stretch of ids as a chain, with trees on the left of the first and the right of
      the last. */
  function ChainTree(x: Stamp, n: nat, l: seq<Tree<Stamp>>, r: seq<Tree<Stamp>>): Tree<Stamp>
    decreases n
  {
    if n <= 1 then Tree(x, l, r) else Tree(x, l, [ChainTree(RunId(x, 1), n - 1, [], r)])
  }

  function IdTree(t: Tree<Span>): Tree<Stamp>
    decreases t, 0
  {
    ChainTree(Head(t.node), SpanLen(t.node), IdTrees(t.left), IdTrees(t.right))
  }

  function IdTrees(ts: seq<Tree<Span>>): (r: seq<Tree<Stamp>>)
    ensures |r| == |ts|
    ensures forall i :: 0 <= i < |ts| ==> r[i] == IdTree(ts[i])
    ensures Roots(r) == Heads(Roots(ts))
    decreases ts, 1
  {
    if ts == [] then [] else [IdTree(ts[0])] + IdTrees(ts[1..])
  }

  /** The ids a span stands for. */
  function SpanIds(s: Span): (r: seq<Stamp>)
    ensures |r| == SpanLen(s)
  {
    seq(SpanLen(s), i requires 0 <= i => RunId(Head(s), i))
  }

  function AllIds(s: seq<Span>): seq<Stamp> {
    if s == [] then [] else SpanIds(s[0]) + AllIds(s[1..])
  }

  lemma AllIdsStep(s: seq<Span>)
    ensures AllIds(s) == if s == [] then [] else SpanIds(s[0]) + AllIds(s[1..])
  {
  }

  lemma {:induction false} AllIdsConcat(s: seq<Span>, t: seq<Span>)
    ensures AllIds(s + t) == AllIds(s) + AllIds(t)
  {
    hide AllIds, SpanIds;
    AllIdsStep(s);
    if s == [] {
      assert s + t == t;
    } else {
      AllIdsConcat(s[1..], t);
      AllIdsStep(s + t);
      assert (s + t)[1..] == s[1..] + t;
      Regroup(SpanIds(s[0]), AllIds(s[1..]), AllIds(t));
    }
  }

  lemma {:induction false} ChainWalk(x: Stamp, n: nat, l: seq<Tree<Stamp>>, r: seq<Tree<Stamp>>)
    requires n > 0
    ensures InOrder(ChainTree(x, n, l, r)) == InOrderAll(l) + seq(n, i requires 0 <= i => RunId(x, i)) + InOrderAll(r)
    decreases n
  {
    hide InOrderAll;
    var ids := seq(n, i requires 0 <= i => RunId(x, i));
    if n == 1 {
      assert ids == [x];
    } else {
      var rest := ChainTree(RunId(x, 1), n - 1, [], r);
      ChainWalk(RunId(x, 1), n - 1, [], r);
      WalkOne(rest);
      WalkEmpty();
      assert ids == [x] + seq(n - 1, i requires 0 <= i => RunId(RunId(x, 1), i));
    }
  }

  lemma WalkEmpty()
    ensures InOrderAll<Stamp>([]) == []
  {
  }

  lemma {:induction false} IdTreeWalk(t: Tree<Span>)
    requires SpansFull(t)
    ensures InOrder(IdTree(t)) == AllIds(InOrder(t))
    decreases t, 1
  {
    hide ChainTree;
    IdTreesWalk(t.left);
    IdTreesWalk(t.right);
    ChainWalk(Head(t.node), SpanLen(t.node), IdTrees(t.left), IdTrees(t.right));
    AllIdsConcat(InOrderAll(t.left), [t.node]);
    AllIdsConcat(InOrderAll(t.left) + [t.node], InOrderAll(t.right));
    assert [t.node][1..] == [];
    assert AllIds([t.node]) == SpanIds(t.node);
  }

  /** Every span of a tree covers at least one id. */
  ghost predicate SpansFull(t: Tree<Span>)
    decreases t
  {
    && SpanLen(t.node) > 0
    && (forall i :: 0 <= i < |t.left| ==> SpansFull(t.left[i]))
    && (forall i :: 0 <= i < |t.right| ==> SpansFull(t.right[i]))
  }

  lemma {:induction false} IdTreesWalk(ts: seq<Tree<Span>>)
    requires forall i :: 0 <= i < |ts| ==> SpansFull(ts[i])
    ensures InOrderAll(IdTrees(ts)) == AllIds(InOrderAll(ts))
    decreases ts, 0
  {
    hide InOrder, IdTree, SpansFull;
    if ts != [] {
      IdTreeWalk(ts[0]);
      IdTreesWalk(ts[1..]);
      AllIdsConcat(InOrder(ts[0]), InOrderAll(ts[1..]));
      assert IdTrees(ts)[1..] == IdTrees(ts[1..]);
    }
  }

  lemma {:induction false} ChainTreeOf(nodes: map<Stamp, Node>, dead: DeadMap, h: Stamp, s: Span, a: Anchor, i: nat,
                                       l: seq<Tree<Stamp>>, r: seq<Tree<Stamp>>)
    requires StateValid(nodes, dead) && s.DeadSpan? && RunPiece(nodes, dead, h, s, a) && i < s.len
    requires ForestOf(IdKids(AnchorsOf(nodes, dead)), KidsOf(AnchorsOf(nodes, dead), Some(RunId(s.start, i)), Left), l)
    requires ForestOf(IdKids(AnchorsOf(nodes, dead)), KidsOf(AnchorsOf(nodes, dead), Some(Last(s)), Right), r)
    ensures TreeOf(IdKids(AnchorsOf(nodes, dead)), ChainTree(RunId(s.start, i), s.len - i, l, r))
    decreases s.len - i
  {
    hide StateValid, RunPiece, AnchorsOf, KidsOf;
    var m := AnchorsOf(nodes, dead);
    ChainKids(nodes, dead, h, s, a, i);
    if i + 1 < s.len {
      ChainKids(nodes, dead, h, s, a, i + 1);
      assert RunId(RunId(s.start, i), 1) == RunId(s.start, i + 1);
      assert Roots<Stamp>([]) == [];
      ChainTreeOf(nodes, dead, h, s, a, i + 1, [], r);
      var rest := ChainTree(RunId(s.start, i + 1), s.len - i - 1, [], r);
      assert Roots([rest]) == [RunId(s.start, i + 1)];
      TreeFrom(m, RunId(s.start, i), l, [rest]);
    } else {
      TreeFrom(m, RunId(s.start, i), l, r);
    }
  }

  lemma TreeFrom(m: Anchors, x: Stamp, l: seq<Tree<Stamp>>, r: seq<Tree<Stamp>>)
    requires ForestOf(IdKids(m), KidsOf(m, Some(x), Left), l) && ForestOf(IdKids(m), KidsOf(m, Some(x), Right), r)
    ensures TreeOf(IdKids(m), Tree(x, l, r))
  {
    var k := IdKids(m);
    assert k(Some(x), Left) == KidsOf(m, Some(x), Left) && k(Some(x), Right) == KidsOf(m, Some(x), Right);
  }

  lemma KidForest(nodes: map<Stamp, Node>, dead: DeadMap, b: Buckets, p: Option<Span>, side: Side, ts: seq<Tree<Span>>)
    requires StateValid(nodes, dead) && BucketsOf(nodes, dead, b) && (p.Some? ==> IsPiece(nodes, dead, p.value))
    requires Roots(ts) == KidSpans(nodes, dead, b, p, side)
    requires forall i :: 0 <= i < |ts| ==> TreeOf(IdKids(AnchorsOf(nodes, dead)), IdTree(ts[i]))
    ensures ForestOf(IdKids(AnchorsOf(nodes, dead)),
                     KidsOf(AnchorsOf(nodes, dead), SideOf(p, side).parent, side), IdTrees(ts))
  {
    hide StateValid, BucketsOf, IsPiece, AnchorsOf, KidsOf, TreeOf, IdTree, SideOf;
    EdgeKids(nodes, dead, b, p, side);
  }

  lemma {:induction false} IdTreeOf(nodes: map<Stamp, Node>, dead: DeadMap, b: Buckets, t: Tree<Span>)
    requires StateValid(nodes, dead) && BucketsOf(nodes, dead, b)
    requires TreeOf(SpanKids(nodes, dead, b), t) && IsPiece(nodes, dead, t.node)
    ensures SpansFull(t) && TreeOf(IdKids(AnchorsOf(nodes, dead)), IdTree(t))
    decreases t, 1
  {
    hide StateValid, BucketsOf, IsPiece, AnchorsOf, KidsOf, ChainTree, KidSpans;
    var k := SpanKids(nodes, dead, b);
    assert k(Some(t.node), Left) == KidSpans(nodes, dead, b, Some(t.node), Left);
    assert k(Some(t.node), Right) == KidSpans(nodes, dead, b, Some(t.node), Right);
    IdTreesOf(nodes, dead, b, Some(t.node), Left, t.left);
    IdTreesOf(nodes, dead, b, Some(t.node), Right, t.right);
    SpanTreeOf(nodes, dead, t.node, IdTrees(t.left), IdTrees(t.right));
  }

  lemma SpanTreeOf(nodes: map<Stamp, Node>, dead: DeadMap, s: Span, l: seq<Tree<Stamp>>, r: seq<Tree<Stamp>>)
    requires StateValid(nodes, dead) && IsPiece(nodes, dead, s)
    requires ForestOf(IdKids(AnchorsOf(nodes, dead)), KidsOf(AnchorsOf(nodes, dead), Some(Head(s)), Left), l)
    requires ForestOf(IdKids(AnchorsOf(nodes, dead)), KidsOf(AnchorsOf(nodes, dead), Some(Last(s)), Right), r)
    ensures SpanLen(s) > 0
    ensures TreeOf(IdKids(AnchorsOf(nodes, dead)), ChainTree(Head(s), SpanLen(s), l, r))
  {
    hide StateValid, AnchorsOf, KidsOf, TreeOf, IdKids;
    match s {
      case NodeSpan(x) =>
        TreeFrom(AnchorsOf(nodes, dead), x, l, r);
      case DeadSpan(x, n) =>
        var a :| Piece(nodes, dead, s, a);
        var h :| RunPiece(nodes, dead, h, s, a);
        assert RunId(x, 0) == x;
        ChainTreeOf(nodes, dead, h, s, a, 0, l, r);
    }
  }

  lemma {:induction false} IdTreesOf(nodes: map<Stamp, Node>, dead: DeadMap, b: Buckets, p: Option<Span>, side: Side,
                                     ts: seq<Tree<Span>>)
    requires StateValid(nodes, dead) && BucketsOf(nodes, dead, b) && (p.Some? ==> IsPiece(nodes, dead, p.value))
    requires ForestOf(SpanKids(nodes, dead, b), KidSpans(nodes, dead, b, p, side), ts)
    ensures forall i :: 0 <= i < |ts| ==> SpansFull(ts[i])
    ensures ForestOf(IdKids(AnchorsOf(nodes, dead)),
                     KidsOf(AnchorsOf(nodes, dead), SideOf(p, side).parent, side), IdTrees(ts))
    decreases ts, 0
  {
    hide StateValid, BucketsOf, AnchorsOf, KidsOf, TreeOf, KidSpans, Piece, IdTree, SpansFull;
    forall i | 0 <= i < |ts|
      ensures SpansFull(ts[i]) && TreeOf(IdKids(AnchorsOf(nodes, dead)), IdTree(ts[i]))
    {
      assert Roots(ts)[i] == ts[i].node;
      KidIs(nodes, dead, b, p, side, i);
      IdTreeOf(nodes, dead, b, ts[i]);
    }
    KidForest(nodes, dead, b, p, side, ts);
  }

  /** Expanding every span of the record walk gives the naive walk over ids. */
  lemma WalkRefines(nodes: map<Stamp, Node>, dead: DeadMap, b: Buckets, out: seq<Span>)
    requires StateValid(nodes, dead) && BucketsOf(nodes, dead, b) && HasWalk(SpanKids(nodes, dead, b), out)
    ensures AllIds(out) == Order(AnchorsOf(nodes, dead))
  {
    hide StateValid, BucketsOf, AnchorsOf, TreeOf, InOrderAll, Order, KidsOf, KidSpans;
    var m := AnchorsOf(nodes, dead);
    var k := SpanKids(nodes, dead, b);
    var ls, rs := WalkForests(k, out);
    assert k(None, Left) == KidSpans(nodes, dead, b, None, Left);
    assert k(None, Right) == KidSpans(nodes, dead, b, None, Right);
    IdTreesOf(nodes, dead, b, None, Left, ls);
    IdTreesOf(nodes, dead, b, None, Right, rs);
    OrderIs(m, IdTrees(ls), IdTrees(rs));
    IdTreesWalk(ls);
    IdTreesWalk(rs);
    AllIdsConcat(InOrderAll(ls), InOrderAll(rs));
  }
}
