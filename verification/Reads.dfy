/** Reading and editing a sequence by live index. */
module Reads {
  import opened Stamps
  import opened Collections
  import opened Codec
  import opened Trees
  import opened Fugue
  import opened Runs
  import opened Lists
  import opened Spans
  import opened SpanWalk

  /** An id a live read shows: it carries a value and is not moved elsewhere. */
  predicate Shown(s: Logical, id: Stamp) {
    id in s && s[id].Live? && !s[id].away
  }

  /** The shown ids of a sequence, in order. */
  function ShownIn(s: Logical, order: seq<Stamp>): seq<Stamp> {
    if order == [] then [] else (if Shown(s, order[0]) then [order[0]] else []) + ShownIn(s, order[1..])
  }

  lemma {:induction false} ShownConcat(s: Logical, a: seq<Stamp>, b: seq<Stamp>)
    ensures ShownIn(s, a + b) == ShownIn(s, a) + ShownIn(s, b)
  {
    hide Shown, ShownIn;
    ShownStep(s, a);
    if a == [] {
      assert a + b == b;
    } else {
      ShownConcat(s, a[1..], b);
      ShownStep(s, a + b);
      assert (a + b)[1..] == a[1..] + b;
      Regroup(if Shown(s, a[0]) then [a[0]] else [], ShownIn(s, a[1..]), ShownIn(s, b));
    }
  }

  lemma ShownStep(s: Logical, order: seq<Stamp>)
    ensures ShownIn(s, order) == if order == [] then [] else
              (if Shown(s, order[0]) then [order[0]] else []) + ShownIn(s, order[1..])
  {
    hide Shown;
  }

  lemma ShownOne(s: Logical, id: Stamp)
    ensures ShownIn(s, [id]) == if Shown(s, id) then [id] else []
  {
    assert [id][1..] == [];
  }

  lemma {:induction false} ShownNone(s: Logical, order: seq<Stamp>)
    requires forall i :: 0 <= i < |order| ==> !Shown(s, order[i])
    ensures ShownIn(s, order) == []
  {
    if order != [] {
      ShownNone(s, order[1..]);
    }
  }

  /** The ids of the whole sequence, and the ids a live read shows. */
  ghost function SequenceOf(s: Logical): seq<Stamp> {
    Order(AnchorMap(s))
  }

  /** Where every id hangs. */
  ghost function AnchorMap(s: Logical): Anchors {
    map x | x in s :: CellAnchor(s[x])
  }

  ghost function LiveSequence(s: Logical): seq<Stamp> {
    ShownIn(s, SequenceOf(s))
  }

  /** What a record shows of itself. */
  function SpanShows(nodes: map<Stamp, Node>, s: Span): seq<Stamp> {
    match s
    case NodeSpan(id) => if id in nodes && !nodes[id].movedAway then [id] else []
    case DeadSpan(_, _) => []
  }

  lemma SpanShown(nodes: map<Stamp, Node>, dead: DeadMap, s: Span)
    requires StateValid(nodes, dead) && IsPiece(nodes, dead, s)
    ensures ShownIn(Abs(nodes, dead), SpanIds(s)) == SpanShows(nodes, s)
  {
    hide Tombs, Abs, Maximal;
    match s {
      case NodeSpan(id) =>
        AbsAt(nodes, dead, id);
        assert SpanIds(s) == [id];
        ShownOne(Abs(nodes, dead), id);
      case DeadSpan(x, n) =>
        forall i | 0 <= i < n
          ensures !Shown(Abs(nodes, dead), SpanIds(s)[i])
        {
          DeadNotShown(nodes, dead, s, i);
        }
        ShownNone(Abs(nodes, dead), SpanIds(s));
    }
  }

  lemma DeadNotShown(nodes: map<Stamp, Node>, dead: DeadMap, s: Span, i: nat)
    requires StateValid(nodes, dead) && IsPiece(nodes, dead, s) && s.DeadSpan? && i < s.len
    ensures !Shown(Abs(nodes, dead), RunId(s.start, i))
  {
    hide Tombs, Abs, Maximal, PieceAt;
    var a :| Piece(nodes, dead, s, a);
    var h :| RunPiece(nodes, dead, h, s, a);
    PieceHolds(nodes, dead, h, s, a, i);
    TombAt(dead, h, RunId(s.start, i));
    AbsAt(nodes, dead, RunId(s.start, i));
  }

  ghost predicate AllPieces(nodes: map<Stamp, Node>, dead: DeadMap, order: seq<Span>) {
    forall i :: 0 <= i < |order| ==> IsPiece(nodes, dead, order[i])
  }

  lemma AllIdsSnoc(order: seq<Span>, k: nat)
    requires k < |order|
    ensures AllIds(order[..k + 1]) == AllIds(order[..k]) + SpanIds(order[k])
  {
    AllIdsConcat(order[..k], [order[k]]);
    assert order[..k + 1] == order[..k] + [order[k]];
    assert [order[k]][1..] == [];
    assert AllIds([order[k]]) == SpanIds(order[k]);
  }

  lemma ShownSnoc(nodes: map<Stamp, Node>, dead: DeadMap, order: seq<Span>, k: nat)
    requires StateValid(nodes, dead) && AllPieces(nodes, dead, order) && k < |order|
    ensures ShownIn(Abs(nodes, dead), AllIds(order[..k + 1]))
         == ShownIn(Abs(nodes, dead), AllIds(order[..k])) + SpanShows(nodes, order[k])
  {
    hide StateValid, IsPiece, Abs, ShownIn, AllIds;
    AllIdsSnoc(order, k);
    ShownConcat(Abs(nodes, dead), AllIds(order[..k]), SpanIds(order[k]));
    SpanShown(nodes, dead, order[k]);
  }

  lemma SequenceIs(nodes: map<Stamp, Node>, dead: DeadMap)
    ensures SequenceOf(Abs(nodes, dead)) == Order(AnchorsOf(nodes, dead))
  {
  }

  /** The ids a live read shows, in sequence order. */
  method LiveOrder(nodes: map<Stamp, Node>, dead: DeadMap) returns (live: seq<Stamp>)
    requires StateValid(nodes, dead)
    ensures live == LiveSequence(Abs(nodes, dead))
  {
    hide StateValid, IsPiece, Abs, ShownIn, AllIds, Order, AnchorsOf, Shown, SpanShows;
    var order := TreeOrder(nodes, dead);
    live := [];
    var k := 0;
    ShownStart(nodes, dead, order);
    while k < |order|
      invariant 0 <= k <= |order|
      invariant live == ShownIn(Abs(nodes, dead), AllIds(order[..k]))
    {
      ShownSnoc(nodes, dead, order, k);
      live := live + SpanShows(nodes, order[k]);
      k := k + 1;
    }
    assert order[..k] == order;
    SequenceIs(nodes, dead);
  }

  lemma ShownStart(nodes: map<Stamp, Node>, dead: DeadMap, order: seq<Span>)
    ensures ShownIn(Abs(nodes, dead), AllIds(order[..0])) == []
  {
  }

  // ---- the gap before a live index ----

  /** Ids shown when `exclude` is counted as absent. */
  function ShownBut(s: Logical, order: seq<Stamp>, exclude: Option<Stamp>): seq<Stamp> {
    if order == [] then []
    else (if Shown(s, order[0]) && exclude != Some(order[0]) then [order[0]] else []) + ShownBut(s, order[1..], exclude)
  }

  lemma {:induction false} ShownButConcat(s: Logical, a: seq<Stamp>, b: seq<Stamp>, exclude: Option<Stamp>)
    ensures ShownBut(s, a + b, exclude) == ShownBut(s, a, exclude) + ShownBut(s, b, exclude)
  {
    hide Shown, ShownBut;
    ShownButStep(s, a, exclude);
    if a == [] {
      assert a + b == b;
    } else {
      ShownButConcat(s, a[1..], b, exclude);
      ShownButStep(s, a + b, exclude);
      assert (a + b)[1..] == a[1..] + b;
      Regroup(if Shown(s, a[0]) && exclude != Some(a[0]) then [a[0]] else [], ShownBut(s, a[1..], exclude),
              ShownBut(s, b, exclude));
    }
  }

  lemma ShownButStep(s: Logical, order: seq<Stamp>, exclude: Option<Stamp>)
    ensures ShownBut(s, order, exclude) == if order == [] then [] else
              (if Shown(s, order[0]) && exclude != Some(order[0]) then [order[0]] else [])
              + ShownBut(s, order[1..], exclude)
  {
    hide Shown;
  }

  lemma {:induction false} ShownButNone(s: Logical, order: seq<Stamp>)
    ensures ShownBut(s, order, None) == ShownIn(s, order)
  {
    if order != [] {
      ShownButNone(s, order[1..]);
    }
  }

  lemma {:induction false} ShownButDead(s: Logical, order: seq<Stamp>, exclude: Option<Stamp>)
    requires ShownIn(s, order) == []
    ensures ShownBut(s, order, exclude) == []
  {
    if order != [] {
      ShownButDead(s, order[1..], exclude);
    }
  }

  function SpanCounts(nodes: map<Stamp, Node>, s: Span, exclude: Option<Stamp>): nat {
    if s.NodeSpan? && s.id in nodes && !nodes[s.id].movedAway && exclude != Some(s.id) then 1 else 0
  }

  lemma CountSnoc(nodes: map<Stamp, Node>, dead: DeadMap, order: seq<Span>, k: nat, exclude: Option<Stamp>)
    requires StateValid(nodes, dead) && AllPieces(nodes, dead, order) && k < |order|
    ensures |ShownBut(Abs(nodes, dead), AllIds(order[..k + 1]), exclude)|
         == |ShownBut(Abs(nodes, dead), AllIds(order[..k]), exclude)| + SpanCounts(nodes, order[k], exclude)
  {
    hide StateValid, IsPiece, Abs, AllIds;
    var s := Abs(nodes, dead);
    AllIdsSnoc(order, k);
    ShownButConcat(s, AllIds(order[..k]), SpanIds(order[k]), exclude);
    SpanShown(nodes, dead, order[k]);
    SpanCounted(nodes, dead, order[k], exclude);
  }

  lemma SpanCounted(nodes: map<Stamp, Node>, dead: DeadMap, sp: Span, exclude: Option<Stamp>)
    requires ShownIn(Abs(nodes, dead), SpanIds(sp)) == SpanShows(nodes, sp)
    ensures |ShownBut(Abs(nodes, dead), SpanIds(sp), exclude)| == SpanCounts(nodes, sp, exclude)
  {
    hide Abs;
    match sp {
      case NodeSpan(id) =>
        assert SpanIds(sp) == [id];
        assert [id][1..] == [];
        ShownOne(Abs(nodes, dead), id);
      case DeadSpan(_, _) =>
        ShownButDead(Abs(nodes, dead), SpanIds(sp), exclude);
    }
  }

  /** The first place in the sequence with `index` shown ids before it, or its end if it has
      fewer. */
  ghost predicate GapBefore(s: Logical, order: seq<Stamp>, exclude: Option<Stamp>, index: nat, b: nat) {
    && b <= |order|
    && (var before, all := |ShownBut(s, order[..b], exclude)|, |ShownBut(s, order, exclude)|;
        before == if index <= all then index else all)
    && (forall c :: 0 <= c < b ==> |ShownBut(s, order[..c], exclude)| < index)
    && (index > |ShownBut(s, order, exclude)| ==> b == |order|)
  }

  /** The ids around the gap before a live index. Only a live node advances the count, so
      the gap falls between two records. */
  method GapExcluding(nodes: map<Stamp, Node>, ghost dead: DeadMap, order: seq<Span>, index: nat,
                      exclude: Option<Stamp>)
    returns (left: Option<Stamp>, right: Option<Stamp>, ghost b: nat)
    requires StateValid(nodes, dead) && AllPieces(nodes, dead, order)
    ensures GapBefore(Abs(nodes, dead), AllIds(order), exclude, index, b)
    ensures left == LeftOf(AllIds(order), b) && right == RightOf(AllIds(order), b)
  {
    hide StateValid, IsPiece, Abs, ShownBut;
    var live, k := 0, 0;
    CountStart(nodes, dead, order, exclude);
    while k < |order| && live != index
      invariant 0 <= k <= |order| && live <= index
      invariant live == |ShownBut(Abs(nodes, dead), AllIds(order[..k]), exclude)|
      invariant Under(Abs(nodes, dead), AllIds(order[..k]), exclude, index)
    {
      CountSnoc(nodes, dead, order, k, exclude);
      UnderSnoc(nodes, dead, order, k, exclude, index);
      live := live + SpanCounts(nodes, order[k], exclude);
      k := k + 1;
    }
    b := |AllIds(order[..k])|;
    left := if k > 0 then Some(Last(order[k - 1])) else None;
    right := if k < |order| then Some(Head(order[k])) else None;
    EdgesOf(nodes, dead, order, k);
    CountSplit(nodes, dead, order, k, exclude);
    UnderAt(Abs(nodes, dead), AllIds(order), exclude, index, b);
  }

  /** Fewer than `index` ids are shown before every place but the last. */
  ghost predicate Under(s: Logical, ids: seq<Stamp>, exclude: Option<Stamp>, index: nat) {
    forall c :: 0 <= c < |ids| ==> |ShownBut(s, ids[..c], exclude)| < index
  }

  lemma UnderAt(s: Logical, all: seq<Stamp>, exclude: Option<Stamp>, index: nat, b: nat)
    requires b <= |all| && Under(s, all[..b], exclude, index)
    ensures forall c :: 0 <= c < b ==> |ShownBut(s, all[..c], exclude)| < index
  {
    hide ShownBut;
    forall c | 0 <= c < b
      ensures |ShownBut(s, all[..c], exclude)| < index
    {
      assert all[..b][..c] == all[..c];
    }
  }

  /** Nothing inside a record is shown: the count moves, if at all, past its one id. */
  lemma UnderSnoc(nodes: map<Stamp, Node>, dead: DeadMap, order: seq<Span>, k: nat, exclude: Option<Stamp>, index: nat)
    requires StateValid(nodes, dead) && AllPieces(nodes, dead, order) && k < |order|
    requires Under(Abs(nodes, dead), AllIds(order[..k]), exclude, index)
    requires |ShownBut(Abs(nodes, dead), AllIds(order[..k]), exclude)| < index
    ensures Under(Abs(nodes, dead), AllIds(order[..k + 1]), exclude, index)
  {
    hide StateValid, IsPiece, Abs, ShownBut, AllIds;
    var s, a, sp := Abs(nodes, dead), AllIds(order[..k]), SpanIds(order[k]);
    AllIdsSnoc(order, k);
    forall c | 0 <= c < |a + sp|
      ensures |ShownBut(s, (a + sp)[..c], exclude)| < index
    {
      if c < |a| {
        assert (a + sp)[..c] == a[..c];
      } else {
        var e := c - |a|;
        assert (a + sp)[..c] == a + sp[..e];
        ShownButConcat(s, a, sp[..e], exclude);
        SpanInside(nodes, dead, order[k], e, exclude);
      }
    }
  }

  lemma SpanInside(nodes: map<Stamp, Node>, dead: DeadMap, sp: Span, e: nat, exclude: Option<Stamp>)
    requires StateValid(nodes, dead) && IsPiece(nodes, dead, sp) && e < |SpanIds(sp)|
    ensures ShownBut(Abs(nodes, dead), SpanIds(sp)[..e], exclude) == []
  {
    hide StateValid, IsPiece, Abs;
    match sp {
      case NodeSpan(id) =>
        assert SpanIds(sp)[..e] == [];
      case DeadSpan(_, _) =>
        SpanShown(nodes, dead, sp);
        assert SpanIds(sp) == SpanIds(sp)[..e] + SpanIds(sp)[e..];
        ShownConcat(Abs(nodes, dead), SpanIds(sp)[..e], SpanIds(sp)[e..]);
        ShownButDead(Abs(nodes, dead), SpanIds(sp)[..e], exclude);
    }
  }

  lemma CountStart(nodes: map<Stamp, Node>, dead: DeadMap, order: seq<Span>, exclude: Option<Stamp>)
    ensures |ShownBut(Abs(nodes, dead), AllIds(order[..0]), exclude)| == 0
  {
  }

  lemma CountSplit(nodes: map<Stamp, Node>, dead: DeadMap, order: seq<Span>, k: nat, exclude: Option<Stamp>)
    requires k <= |order|
    ensures var s, all, b := Abs(nodes, dead), AllIds(order), |AllIds(order[..k])|;
            && b <= |all| && all[..b] == AllIds(order[..k])
            && |ShownBut(s, all[..b], exclude)| <= |ShownBut(s, all, exclude)|
            && (k == |order| ==> all[..b] == all)
  {
    hide Abs, AllIds, ShownBut;
    AllIdsConcat(order[..k], order[k..]);
    assert order == order[..k] + order[k..];
    ShownButConcat(Abs(nodes, dead), AllIds(order[..k]), AllIds(order[k..]), exclude);
    if k == |order| {
      assert order[..k] == order;
    }
  }

  lemma EdgesOf(nodes: map<Stamp, Node>, dead: DeadMap, order: seq<Span>, k: nat)
    requires AllPieces(nodes, dead, order) && k <= |order|
    ensures var all, b := AllIds(order), |AllIds(order[..k])|;
            && b <= |all|
            && LeftOf(all, b) == (if k > 0 then Some(Last(order[k - 1])) else None)
            && RightOf(all, b) == (if k < |order| then Some(Head(order[k])) else None)
  {
    hide IsPiece;
    AllIdsConcat(order[..k], order[k..]);
    assert order == order[..k] + order[k..];
    if k > 0 {
      AllIdsSnoc(order, k - 1);
      PieceFull(nodes, dead, order[k - 1]);
    }
    if k < |order| {
      PieceFull(nodes, dead, order[k]);
      assert order[k..][0] == order[k];
    } else {
      assert order[..k] == order;
    }
  }

  lemma PieceFull(nodes: map<Stamp, Node>, dead: DeadMap, s: Span)
    requires IsPiece(nodes, dead, s)
    ensures SpanLen(s) > 0 && SpanIds(s)[0] == Head(s) && SpanIds(s)[SpanLen(s) - 1] == Last(s)
  {
    hide IsCut;
    var a :| Piece(nodes, dead, s, a);
    if s.DeadSpan? {
      var h :| RunPiece(nodes, dead, h, s, a);
    }
  }

  // ---- placement ----

  ghost predicate HangsRight(m: Anchors, x: Stamp, parent: Stamp) {
    x in m && m[x] == Anchor(Some(parent), Right)
  }

  lemma BareIff(m: Anchors, p: Stamp)
    ensures Bare(m, p, Right) <==> forall x :: !HangsRight(m, x, p)
  {
    var kids := KidsOf(m, Some(p), Right);
    if kids != [] {
      FirstIn(kids);
      assert HangsRight(m, kids[0], p);
    }
    forall x ensures HangsRight(m, x, p) ==> x in kids {}
  }

  /** Whether anything hangs to the right of an id. */
  method HasRightChild(nodes: map<Stamp, Node>, dead: DeadMap, parent: Stamp) returns (r: bool)
    requires StateValid(nodes, dead)
    ensures r <==> !Bare(AnchorsOf(nodes, dead), parent, Right)
  {
    hide Tombs, AnchorsOf, Maximal, Bare;
    BareIff(AnchorsOf(nodes, dead), parent);
    var found := FindRun(dead, parent);
    if found.Some? && parent != RunId(found.value, dead[found.value].len - 1) {
      var next := RunId(parent, 1);
      TombAt(dead, found.value, next);
      AnchorsAt(nodes, dead, next);
      assert HangsRight(AnchorsOf(nodes, dead), next, parent);
      return true;
    }
    var at := Anchor(Some(parent), Right);
    if x :| x in nodes && nodes[x].anchor == at {
      AnchorsAt(nodes, dead, x);
      assert HangsRight(AnchorsOf(nodes, dead), x, parent);
      return true;
    }
    if x :| x in dead && dead[x].anchor == at {
      TombAt(dead, x, x);
      AnchorsAt(nodes, dead, x);
      assert HangsRight(AnchorsOf(nodes, dead), x, parent);
      return true;
    }
    forall x
      ensures !HangsRight(AnchorsOf(nodes, dead), x, parent)
    {
      if HangsRight(AnchorsOf(nodes, dead), x, parent) {
        NothingHangs(nodes, dead, parent, found, x);
        assert false;
      }
    }
    return false;
  }

  lemma NothingHangs(nodes: map<Stamp, Node>, dead: DeadMap, parent: Stamp, found: Option<Stamp>, x: Stamp)
    requires StateValid(nodes, dead)
    requires found.Some? ==> Holds(dead, found.value, parent) && parent == RunId(found.value, dead[found.value].len - 1)
    requires found.None? ==> parent !in Tombs(dead)
    requires forall y :: y in nodes ==> nodes[y].anchor != Anchor(Some(parent), Right)
    requires forall y :: y in dead ==> dead[y].anchor != Anchor(Some(parent), Right)
    ensures !HangsRight(AnchorsOf(nodes, dead), x, parent)
  {
    hide Tombs, AnchorsOf, Maximal;
    if HangsRight(AnchorsOf(nodes, dead), x, parent) {
      HangsAt(nodes, dead, x, Anchor(Some(parent), Right));
      var h :| Holds(dead, h, x) && h != x && parent == RunId(h, x.lamport - h.lamport - 1);
      TombAt(dead, h, parent);
      OneHolder(dead, parent);
      assert false;
    }
  }

  /** Where an insert at a live index attaches, counting one node as absent. */
  method PlaceExcluding(nodes: map<Stamp, Node>, dead: DeadMap, index: nat, exclude: Option<Stamp>)
    returns (anchor: Anchor, ghost b: nat)
    requires StateValid(nodes, dead)
    ensures GapBefore(Abs(nodes, dead), SequenceOf(Abs(nodes, dead)), exclude, index, b)
    ensures var m, s := AnchorMap(Abs(nodes, dead)), SequenceOf(Abs(nodes, dead));
            anchor == PlaceAt(m, LeftOf(s, b), RightOf(s, b))
  {
    hide StateValid, IsPiece, Abs, Order, AnchorsOf, AllIds, ShownBut, Bare;
    var order := TreeOrder(nodes, dead);
    SequenceIs(nodes, dead);
    AnchorsAbs(nodes, dead);
    var left, right, gap := GapExcluding(nodes, dead, order, index, exclude);
    b := gap;
    var crowded := false;
    if left.Some? {
      crowded := HasRightChild(nodes, dead, left.value);
    }
    if left.Some? && !crowded {
      anchor := Anchor(left, Right);
    } else if right.Some? {
      anchor := Anchor(right, Left);
    } else if left.Some? {
      anchor := Anchor(left, Right);
    } else {
      anchor := Anchor(None, Right);
    }
  }

  // ---- insert at a live index ----

  /** No stored id hangs off `id`. */
  ghost predicate Unnamed(s: Logical, id: Stamp) {
    forall x :: x in s ==> CellAnchor(s[x]).parent != Some(id)
  }

  ghost function Min(a: nat, b: nat): nat {
    if a <= b then a else b
  }

  lemma AnchorsSet(s: Logical, id: Stamp, c: Cell)
    ensures AnchorMap(s[id := c]) == AnchorMap(s)[id := CellAnchor(c)]
  {
  }

  lemma {:induction false} ShownElsewhere(s: Logical, id: Stamp, c: Cell, order: seq<Stamp>)
    requires id !in order
    ensures ShownIn(s[id := c], order) == ShownIn(s, order)
  {
    if order != [] {
      ShownElsewhere(s, id, c, order[1..]);
    }
  }

  /** A fresh id placed in a gap enters the sequence there, and the live sequence at the
      live index the gap came from; every other id keeps its place among the rest. */
  lemma InsertedInGap(s: Logical, id: Stamp, claim: Claim, index: nat, b: nat)
    requires id !in s && Unnamed(s, id) && GapBefore(s, SequenceOf(s), None, index, b)
    requires var m := AnchorMap(s);
             claim.anchor == PlaceAt(m, LeftOf(SequenceOf(s), b), RightOf(SequenceOf(s), b))
    ensures var t, q, live := s[id := Live(claim, false)], SequenceOf(s), LiveSequence(s);
            && SequenceOf(t) == q[..b] + [id] + q[b..]
            && LiveSequence(t) == live[..Min(index, |live|)] + [id] + live[Min(index, |live|)..]
  {
    hide Order, PlaceAt, Shown;
    var m := AnchorMap(s);
    var q, t := SequenceOf(s), s[id := Live(claim, false)];
    PlacedInGap(m, b, id);
    AnchorsSet(s, id, Live(claim, false));
    InsertedLive(s, id, claim, q, index, b);
  }

  lemma InsertedLive(s: Logical, id: Stamp, claim: Claim, q: seq<Stamp>, index: nat, b: nat)
    requires id !in s && q == SequenceOf(s) && GapBefore(s, q, None, index, b)
    ensures var t, live := s[id := Live(claim, false)], ShownIn(s, q);
            ShownIn(t, q[..b] + [id] + q[b..]) == live[..Min(index, |live|)] + [id] + live[Min(index, |live|)..]
  {
    hide Order, ShownIn, ShownBut;
    var t := s[id := Live(claim, false)];
    forall i | 0 <= i < |q| ensures q[i] != id {
      Stored(AnchorMap(s), q[i]);
    }
    ShownElsewhere(s, id, Live(claim, false), q[..b]);
    ShownElsewhere(s, id, Live(claim, false), q[b..]);
    ShownOne(t, id);
    ShownConcat(t, q[..b], [id]);
    ShownConcat(t, q[..b] + [id], q[b..]);
    ShownConcat(s, q[..b], q[b..]);
    assert q == q[..b] + q[b..];
    ShownButNone(s, q);
    ShownButNone(s, q[..b]);
  }

  /** The sequence before and after an insert at a live index: one id more, at the index
      in the live sequence and at the first place in the whole one with that many shown ids
      before it, and nothing else moved. */
  ghost predicate InsertedAt(s: Logical, t: Logical, id: Stamp, index: nat) {
    var q, live := SequenceOf(s), LiveSequence(s); var k := Min(index, |live|);
    && LiveSequence(t) == live[..k] + [id] + live[k..]
    && exists b: nat :: FirstPlace(s, q, index, b) && SequenceOf(t) == q[..b] + [id] + q[b..]
  }

  /** `anchor` is where the placement rule attaches at the first such place. */
  ghost predicate PlacedAtIndex(s: Logical, index: nat, anchor: Anchor) {
    exists b: nat :: FirstPlace(s, SequenceOf(s), index, b) &&
                     anchor == PlaceAt(AnchorMap(s), LeftOf(SequenceOf(s), b), RightOf(SequenceOf(s), b))
  }

  /** Every place before `b` has fewer than `index` shown ids before it; `b` has them, or is the
      end of the sequence. */
  ghost predicate FirstPlace(s: Logical, q: seq<Stamp>, index: nat, b: nat) {
    && b <= |q|
    && (forall c :: 0 <= c < b ==> |ShownIn(s, q[..c])| < index)
    && (b == |q| || |ShownIn(s, q[..b])| == index)
  }

  lemma GapIsFirst(s: Logical, q: seq<Stamp>, index: nat, b: nat)
    requires GapBefore(s, q, None, index, b)
    ensures b <= |q| && FirstPlace(s, q, index, b)
  {
    hide ShownBut, ShownIn;
    forall c | 0 <= c <= b
      ensures ShownBut(s, q[..c], None) == ShownIn(s, q[..c])
    {
      ShownButNone(s, q[..c]);
    }
  }

  /** Insert a value at a live index. A stamp already seen is a replay and changes
      nothing. */
  method Insert(list: List, index: nat, value: Element, stamp: Stamp) returns (ghost anchor: Anchor)
    requires list.Valid() && stamp.lamport < U64_LIMIT && ElementFits(value)
    modifies list
    ensures list.Valid()
    ensures list.State() == if stamp in old(list.State()) then old(list.State())
                            else old(list.State())[stamp := Live(Claim(value, anchor), false)]
    ensures stamp !in old(list.State()) ==> PlacedAtIndex(old(list.State()), index, anchor)
    ensures var s := old(list.State());
            stamp !in s && Unnamed(s, stamp) ==> InsertedAt(s, list.State(), stamp, index)
  {
    hide StateValid, Abs, InsertedAt, GapBefore, PlaceAt, SequenceOf, Unnamed, PlacedAtIndex;
    ghost var s := list.State();
    anchor := Anchor(None, Right);
    var present := Contains(list.nodes, list.dead, stamp);
    if present {
      return;
    }
    var at, b := PlaceExcluding(list.nodes, list.dead, index, None);
    anchor := at;
    PlacedHere(s, index, b, at);
    list.InsertAt(stamp, Claim(value, at));
    if Unnamed(s, stamp) {
      InsertedHere(s, stamp, Claim(value, at), index, b);
    }
  }

  lemma PlacedHere(s: Logical, index: nat, b: nat, anchor: Anchor)
    requires GapBefore(s, SequenceOf(s), None, index, b)
    requires anchor == PlaceAt(AnchorMap(s), LeftOf(SequenceOf(s), b), RightOf(SequenceOf(s), b))
    ensures PlacedAtIndex(s, index, anchor)
  {
    hide SequenceOf, PlaceAt, ShownBut, GapBefore, FirstPlace;
    GapIsFirst(s, SequenceOf(s), index, b);
  }

  lemma InsertedHere(s: Logical, id: Stamp, claim: Claim, index: nat, b: nat)
    requires id !in s && Unnamed(s, id) && GapBefore(s, SequenceOf(s), None, index, b)
    requires claim.anchor == PlaceAt(AnchorMap(s), LeftOf(SequenceOf(s), b), RightOf(SequenceOf(s), b))
    ensures InsertedAt(s, s[id := Live(claim, false)], id, index)
  {
    hide SequenceOf, LiveSequence, PlaceAt, ShownBut, GapBefore, FirstPlace;
    InsertedInGap(s, id, claim, index, b);
    GapIsFirst(s, SequenceOf(s), index, b);
  }

  lemma AnchorsAbs(nodes: map<Stamp, Node>, dead: DeadMap)
    ensures AnchorsOf(nodes, dead) == AnchorMap(Abs(nodes, dead))
  {
  }

  /** Whether an id is present, live or deleted. */
  method Contains(nodes: map<Stamp, Node>, dead: DeadMap, id: Stamp) returns (r: bool)
    requires StateValid(nodes, dead)
    ensures r <==> id in Abs(nodes, dead)
  {
    hide Tombs, Abs, Maximal;
    AbsAt(nodes, dead, id);
    if id in nodes {
      return true;
    }
    var found := FindRun(dead, id);
    return found.Some?;
  }
}
