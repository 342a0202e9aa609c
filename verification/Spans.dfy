/** The walk over records: valued nodes and stretches of deleted ids, cut only where
    something hangs off their interior. Expanding its spans gives exactly the naive walk
    over ids. */
module Spans {
  import opened Stamps
  import opened Collections
  import opened Trees
  import opened Fugue
  import opened Runs
  import opened Lists

  /** One record in sequence order. */
  datatype Span = NodeSpan(id: Stamp) | DeadSpan(start: Stamp, len: nat)

  function Head(s: Span): Stamp {
    match s case NodeSpan(id) => id case DeadSpan(start, _) => start
  }

  function Last(s: Span): Stamp {
    match s case NodeSpan(id) => id case DeadSpan(start, len) => if len == 0 then start else RunId(start, len - 1)
  }

  function SpanLen(s: Span): nat {
    match s case NodeSpan(_) => 1 case DeadSpan(_, len) => len
  }

  // ---- records and their cuts ----

  /** The anchors stored records hang at: nodes at their own, runs at their head's. */
  ghost function RecordAnchors(nodes: map<Stamp, Node>, dead: DeadMap): set<Anchor> {
    (set x | x in nodes :: nodes[x].anchor) + (set x | x in dead :: dead[x].anchor)
  }

  /** Where an attachment at `a` cuts the run at `h`: before the id it hangs left of, or
      after the id it hangs right of. */
  function CutBy(h: Stamp, a: Anchor): nat
    requires a.parent.Some? && h.lamport <= a.parent.value.lamport
  {
    a.parent.value.lamport - h.lamport + if a.side == Left then 0 else 1
  }

  /** `c` is inside the run at `h`, and some record hangs off the run there. */
  ghost predicate IsCut(nodes: map<Stamp, Node>, dead: DeadMap, h: Stamp, c: nat) {
    CutBySome(dead, RecordAnchors(nodes, dead), h, c)
  }

  ghost predicate CutBySome(dead: DeadMap, seen: set<Anchor>, h: Stamp, c: nat) {
    h in dead && 0 < c < dead[h].len && exists a :: a in seen && CutsAt(dead, h, a, c)
  }

  predicate HasCut(cuts: map<Stamp, set<nat>>, h: Stamp, c: nat) {
    h in cuts && c in cuts[h]
  }

  ghost predicate CutsAt(dead: DeadMap, h: Stamp, a: Anchor, c: nat) {
    a.parent.Some? && Holds(dead, h, a.parent.value) && CutBy(h, a) == c
  }

  ghost predicate Edge(nodes: map<Stamp, Node>, dead: DeadMap, h: Stamp, c: nat) {
    h in dead && (c == 0 || c == dead[h].len || IsCut(nodes, dead, h, c))
  }

  /** A stretch of the run at `h` from one edge to the next. */
  ghost predicate PieceAt(nodes: map<Stamp, Node>, dead: DeadMap, h: Stamp, from: nat, len: nat) {
    && len > 0 && h in dead && from + len <= dead[h].len
    && Edge(nodes, dead, h, from) && Edge(nodes, dead, h, from + len)
    && forall c :: from < c < from + len ==> !IsCut(nodes, dead, h, c)
  }

  ghost predicate RunPiece(nodes: map<Stamp, Node>, dead: DeadMap, h: Stamp, s: Span, a: Anchor) {
    && s.DeadSpan? && Holds(dead, h, s.start)
    && PieceAt(nodes, dead, h, s.start.lamport - h.lamport, s.len)
    && a == ChainAnchor(h, dead[h].anchor, s.start.lamport - h.lamport)
  }

  /** `s` is a record of the walk, hanging at `a`. */
  ghost predicate Piece(nodes: map<Stamp, Node>, dead: DeadMap, s: Span, a: Anchor) {
    match s
    case NodeSpan(id) => id in nodes && nodes[id].anchor == a
    case DeadSpan(_, _) => exists h :: RunPiece(nodes, dead, h, s, a)
  }

  /** A stretch ends at the first edge after it starts. */
  lemma OneStretch(nodes: map<Stamp, Node>, dead: DeadMap, h: Stamp, from: nat, len: nat, len': nat)
    requires PieceAt(nodes, dead, h, from, len) && PieceAt(nodes, dead, h, from, len')
    ensures len == len'
  {
    hide IsCut;
    assert Edge(nodes, dead, h, from + len) && Edge(nodes, dead, h, from + len');
  }

  lemma RunPieceByHead(nodes: map<Stamp, Node>, dead: DeadMap, s: Span, a: Anchor, t: Span, b: Anchor)
    requires StateValid(nodes, dead) && Piece(nodes, dead, s, a) && Piece(nodes, dead, t, b)
    requires s.DeadSpan? && t.DeadSpan? && Head(s) == Head(t)
    ensures s == t && a == b
  {
    hide Tombs, PieceAt, ChainAnchor;
    var g :| RunPiece(nodes, dead, g, s, a);
    var h :| RunPiece(nodes, dead, h, t, b);
    OneHolder(dead, s.start);
    OneStretch(nodes, dead, g, s.start.lamport - g.lamport, s.len, t.len);
  }

  lemma PieceByHead(nodes: map<Stamp, Node>, dead: DeadMap, s: Span, a: Anchor, t: Span, b: Anchor)
    requires StateValid(nodes, dead) && Piece(nodes, dead, s, a) && Piece(nodes, dead, t, b) && Head(s) == Head(t)
    ensures s == t && a == b
  {
    hide Tombs;
    match (s, t) {
      case (NodeSpan(_), NodeSpan(_)) =>
      case (DeadSpan(_, _), DeadSpan(_, _)) =>
        RunPieceByHead(nodes, dead, s, a, t, b);
      case (NodeSpan(x), DeadSpan(_, _)) =>
        var h :| RunPiece(nodes, dead, h, t, b);
        TombAt(dead, h, x);
        assert false;
      case (DeadSpan(x, _), NodeSpan(_)) =>
        var h :| RunPiece(nodes, dead, h, s, a);
        TombAt(dead, h, x);
        assert false;
    }
  }

  // ---- buckets ----

  type Buckets = map<Anchor, seq<Span>>

  function Bucket(b: Buckets, a: Anchor): seq<Span> {
    if a in b then b[a] else []
  }

  function Heads(s: seq<Span>): (r: seq<Stamp>)
    ensures |r| == |s|
    ensures forall i :: 0 <= i < |s| ==> r[i] == Head(s[i])
  {
    seq(|s|, i requires 0 <= i < |s| => Head(s[i]))
  }

  /** Every record, in the bucket of the anchor it hangs at, siblings in stamp order. */
  ghost predicate BucketsOf(nodes: map<Stamp, Node>, dead: DeadMap, b: Buckets) {
    forall a :: BucketOf(nodes, dead, b, a)
  }

  ghost predicate BucketOf(nodes: map<Stamp, Node>, dead: DeadMap, b: Buckets, a: Anchor) {
    && Ascending(Heads(Bucket(b, a)))
    && forall s :: s in Bucket(b, a) <==> Piece(nodes, dead, s, a)
  }

  /** The cut positions of every run, by run head. */
  ghost predicate CutsOf(nodes: map<Stamp, Node>, dead: DeadMap, cuts: map<Stamp, set<nat>>) {
    forall h, c: nat :: HasCut(cuts, h, c) <==> IsCut(nodes, dead, h, c)
  }

  function AddCut(cuts: map<Stamp, set<nat>>, h: Stamp, c: nat): map<Stamp, set<nat>> {
    cuts[h := (if h in cuts then cuts[h] else {}) + {c}]
  }

  method NoteCut(dead: DeadMap, cuts: map<Stamp, set<nat>>, a: Anchor) returns (r: map<Stamp, set<nat>>)
    requires Canonical(dead)
    ensures CutsPlus(dead, cuts, a, r)
  {
    hide Tombs;
    r := cuts;
    if a.parent.Some? {
      var p := a.parent.value;
      var found := FindRun(dead, p);
      if found.Some? {
        OneHolder(dead, p);
        var h := found.value;
        var c := CutBy(h, a);
        if 0 < c < dead[h].len {
          r := AddCut(cuts, h, c);
        }
      } else {
        NoTomb(dead, p);
      }
    }
  }

  ghost predicate CutsPlus(dead: DeadMap, cuts: map<Stamp, set<nat>>, a: Anchor, r: map<Stamp, set<nat>>) {
    forall h, c: nat :: HasCut(r, h, c) <==>
      HasCut(cuts, h, c) || (h in dead && 0 < c < dead[h].len && CutsAt(dead, h, a, c))
  }

  /** The cuts that records at the anchors in `seen` make. */
  ghost predicate CutsFrom(dead: DeadMap, seen: set<Anchor>, cuts: map<Stamp, set<nat>>) {
    forall h, c: nat :: HasCut(cuts, h, c) <==> CutBySome(dead, seen, h, c)
  }

  lemma CutsMore(dead: DeadMap, seen: set<Anchor>, a: Anchor, cuts: map<Stamp, set<nat>>, more: map<Stamp, set<nat>>)
    requires CutsFrom(dead, seen, cuts) && CutsPlus(dead, cuts, a, more)
    ensures CutsFrom(dead, seen + {a}, more)
  {
    hide CutsAt, HasCut;
    forall h, c: nat
      ensures HasCut(more, h, c) <==> CutBySome(dead, seen + {a}, h, c)
    {
      assert HasCut(cuts, h, c) <==> CutBySome(dead, seen, h, c);
      if CutBySome(dead, seen, h, c) {
        var b :| b in seen && CutsAt(dead, h, b, c);
        assert b in seen + {a};
      }
      if h in dead && 0 < c < dead[h].len && CutsAt(dead, h, a, c) {
        assert a in seen + {a};
      }
    }
  }

  /** Every cut a stored record makes in a run. */
  method FindCuts(nodes: map<Stamp, Node>, dead: DeadMap) returns (cuts: map<Stamp, set<nat>>)
    requires Canonical(dead)
    ensures CutsOf(nodes, dead, cuts)
  {
    hide Canonical, CutsPlus, CutsAt, CutsFrom, CutsOf;
    cuts := map[];
    ghost var seen: set<Anchor> := {};
    NoCuts(dead);
    var rest := nodes.Keys;
    while rest != {}
      invariant rest <= nodes.Keys
      invariant seen <= RecordAnchors(nodes, dead)
      invariant forall x :: x in nodes && x !in rest ==> nodes[x].anchor in seen
      invariant CutsFrom(dead, seen, cuts)
      decreases |rest|
    {
      var x :| x in rest;
      var more := NoteCut(dead, cuts, nodes[x].anchor);
      CutsMore(dead, seen, nodes[x].anchor, cuts, more);
      cuts, rest, seen := more, rest - {x}, seen + {nodes[x].anchor};
    }
    rest := dead.Keys;
    while rest != {}
      invariant rest <= dead.Keys
      invariant seen <= RecordAnchors(nodes, dead)
      invariant forall x :: x in nodes ==> nodes[x].anchor in seen
      invariant forall x :: x in dead && x !in rest ==> dead[x].anchor in seen
      invariant CutsFrom(dead, seen, cuts)
      decreases |rest|
    {
      var x :| x in rest;
      var more := NoteCut(dead, cuts, dead[x].anchor);
      CutsMore(dead, seen, dead[x].anchor, cuts, more);
      cuts, rest, seen := more, rest - {x}, seen + {dead[x].anchor};
    }
    assert seen == RecordAnchors(nodes, dead);
    AllCuts(nodes, dead, cuts);
  }

  lemma NoCuts(dead: DeadMap)
    ensures CutsFrom(dead, {}, map[])
  {
  }

  lemma AllCuts(nodes: map<Stamp, Node>, dead: DeadMap, cuts: map<Stamp, set<nat>>)
    requires CutsFrom(dead, RecordAnchors(nodes, dead), cuts)
    ensures CutsOf(nodes, dead, cuts)
  {
    hide CutsAt, RecordAnchors, HasCut, CutBySome;
  }

  // ---- filling the buckets ----

  function Push(b: Buckets, a: Anchor, s: Span): Buckets {
    b[a := Bucket(b, a) + [s]]
  }

  /** Each bucket holds, once each, the records that `has` puts there. */
  ghost predicate Filled(b: Buckets, has: (Span, Anchor) -> bool) {
    forall a :: FilledAt(b, has, a)
  }

  ghost predicate FilledAt(b: Buckets, has: (Span, Anchor) -> bool, a: Anchor) {
    Distinct(Bucket(b, a)) && forall s :: s in Bucket(b, a) <==> has(s, a)
  }

  lemma PushFills(b: Buckets, has: (Span, Anchor) -> bool, t: Span, at: Anchor, more: (Span, Anchor) -> bool)
    requires Filled(b, has) && !has(t, at)
    requires forall s, a :: more(s, a) <==> has(s, a) || (s == t && a == at)
    ensures Filled(Push(b, at, t), more)
  {
    forall a
      ensures FilledAt(Push(b, at, t), more, a)
    {
      assert FilledAt(b, has, a);
      assert FilledAt(b, has, at);
    }
  }

  lemma Refill(b: Buckets, has: (Span, Anchor) -> bool, more: (Span, Anchor) -> bool)
    requires Filled(b, has) && forall s, a :: more(s, a) <==> has(s, a)
    ensures Filled(b, more)
  {
    forall a
      ensures FilledAt(b, more, a)
    {
      assert FilledAt(b, has, a);
    }
  }

  /** The pieces pushed once the nodes in `xs`, the runs in `ys` and the stretch of the
      run at `h` before `upto` are in. */
  ghost predicate Pushed(nodes: map<Stamp, Node>, dead: DeadMap, xs: set<Stamp>, ys: set<Stamp>,
                         h: Stamp, upto: nat, s: Span, a: Anchor) {
    match s
    case NodeSpan(id) => id in xs && id in nodes && nodes[id].anchor == a
    case DeadSpan(start, _) =>
      || (exists g :: g in ys && RunPiece(nodes, dead, g, s, a))
      || (RunPiece(nodes, dead, h, s, a) && start.lamport - h.lamport < upto)
  }

  ghost function PushedFn(nodes: map<Stamp, Node>, dead: DeadMap, xs: set<Stamp>, ys: set<Stamp>,
                          h: Stamp, upto: nat): (Span, Anchor) -> bool {
    (s, a) => Pushed(nodes, dead, xs, ys, h, upto, s, a)
  }

  /** The next place after `from` where a run is cut, or its end. */
  method NextEdge(ends: set<nat>, from: nat, len: nat) returns (e: nat)
    requires from < len
    ensures from < e <= len && (e == len || e in ends)
    ensures forall c :: c in ends && c > from ==> e <= c || len < c
  {
    e := len;
    var rest := ends;
    while rest != {}
      invariant rest <= ends
      invariant from < e <= len && (e == len || e in ends)
      invariant forall c :: c in ends && c !in rest && c > from ==> e <= c || len < c
      decreases |rest|
    {
      var c :| c in rest;
      rest := rest - {c};
      if from < c < e {
        e := c;
      }
    }
  }

  lemma NextPiece(nodes: map<Stamp, Node>, dead: DeadMap, cuts: map<Stamp, set<nat>>, h: Stamp, from: nat, e: nat)
    requires WellFormed(dead) && CutsOf(nodes, dead, cuts) && h in dead && Edge(nodes, dead, h, from)
    requires from < e <= dead[h].len
    requires e == dead[h].len || HasCut(cuts, h, e)
    requires forall c: nat :: HasCut(cuts, h, c) && c > from ==> e <= c
    ensures RunPiece(nodes, dead, h, DeadSpan(RunId(h, from), e - from), ChainAnchor(h, dead[h].anchor, from))
    ensures Edge(nodes, dead, h, e)
  {
    hide IsCut;
    forall c | from < c < e
      ensures !IsCut(nodes, dead, h, c)
    {
      assert !HasCut(cuts, h, c);
    }
  }

  /** Between two neighbouring edges there is one piece. */
  lemma OnePieceMore(nodes: map<Stamp, Node>, dead: DeadMap, xs: set<Stamp>, ys: set<Stamp>, h: Stamp, from: nat,
                     e: nat)
    requires WellFormed(dead) && h in dead && from < e && ys <= dead.Keys && h !in ys
    requires RunPiece(nodes, dead, h, DeadSpan(RunId(h, from), e - from), ChainAnchor(h, dead[h].anchor, from))
    ensures var t, at := DeadSpan(RunId(h, from), e - from), ChainAnchor(h, dead[h].anchor, from);
            && !Pushed(nodes, dead, xs, ys, h, from, t, at)
            && forall s, a :: Pushed(nodes, dead, xs, ys, h, e, s, a)
                 <==> Pushed(nodes, dead, xs, ys, h, from, s, a) || (s == t && a == at)
  {
    hide IsCut;
    var t, at := DeadSpan(RunId(h, from), e - from), ChainAnchor(h, dead[h].anchor, from);
    OneHolder(dead, RunId(h, from));
    forall s, a
      ensures Pushed(nodes, dead, xs, ys, h, e, s, a)
         <==> Pushed(nodes, dead, xs, ys, h, from, s, a) || (s == t && a == at)
    {
      if RunPiece(nodes, dead, h, s, a) && from <= s.start.lamport - h.lamport < e {
        SamePiece(nodes, dead, h, s, a, from, e);
      }
    }
  }

  lemma SamePiece(nodes: map<Stamp, Node>, dead: DeadMap, h: Stamp, s: Span, a: Anchor, from: nat, e: nat)
    requires WellFormed(dead) && from < e && RunPiece(nodes, dead, h, s, a)
    requires from <= s.start.lamport - h.lamport < e
    requires RunPiece(nodes, dead, h, DeadSpan(RunId(h, from), e - from), ChainAnchor(h, dead[h].anchor, from))
    ensures s == DeadSpan(RunId(h, from), e - from) && a == ChainAnchor(h, dead[h].anchor, from)
  {
    hide IsCut;
    var f := s.start.lamport - h.lamport;
    assert Edge(nodes, dead, h, f) && Edge(nodes, dead, h, f + s.len) && Edge(nodes, dead, h, e);
  }

  /** Push every piece of one run. */
  method PushRun(nodes: map<Stamp, Node>, dead: DeadMap, cuts: map<Stamp, set<nat>>, b: Buckets, h: Stamp,
                 ghost xs: set<Stamp>, ghost ys: set<Stamp>) returns (r: Buckets)
    requires Canonical(dead) && CutsOf(nodes, dead, cuts) && h in dead && ys <= dead.Keys && h !in ys
    requires Filled(b, PushedFn(nodes, dead, xs, ys, h, 0))
    ensures Filled(r, PushedFn(nodes, dead, xs, ys, h, dead[h].len))
  {
    hide Maximal, CutsOf, Filled, RunPiece, IsCut;
    r := b;
    var run := dead[h];
    var ends := if h in cuts then cuts[h] else {};
    var start := 0;
    var anchor := run.anchor;
    while start < run.len
      invariant 0 <= start <= run.len && Edge(nodes, dead, h, start)
      invariant anchor == ChainAnchor(h, run.anchor, start)
      invariant Filled(r, PushedFn(nodes, dead, xs, ys, h, start))
      decreases run.len - start
    {
      var end := NextEdge(ends, start, run.len);
      CutsInside(nodes, dead, cuts, h);
      NextPiece(nodes, dead, cuts, h, start, end);
      OnePieceMore(nodes, dead, xs, ys, h, start, end);
      PushFills(r, PushedFn(nodes, dead, xs, ys, h, start), DeadSpan(RunId(h, start), end - start), anchor,
                PushedFn(nodes, dead, xs, ys, h, end));
      r := Push(r, anchor, DeadSpan(RunId(h, start), end - start));
      anchor := Anchor(Some(RunId(h, end - 1)), Right);
      start := end;
    }
  }

  lemma CutsInside(nodes: map<Stamp, Node>, dead: DeadMap, cuts: map<Stamp, set<nat>>, h: Stamp)
    requires CutsOf(nodes, dead, cuts) && h in dead
    ensures forall c: nat :: HasCut(cuts, h, c) ==> 0 < c < dead[h].len
  {
    hide CutsAt;
  }

  lemma NodePushed(nodes: map<Stamp, Node>, dead: DeadMap, xs: set<Stamp>, x: Stamp, h: Stamp)
    requires x in nodes && x !in xs
    ensures !Pushed(nodes, dead, xs, {}, h, 0, NodeSpan(x), nodes[x].anchor)
    ensures forall s, a ::
              Pushed(nodes, dead, xs + {x}, {}, h, 0, s, a) <==>
              Pushed(nodes, dead, xs, {}, h, 0, s, a) || (s == NodeSpan(x) && a == nodes[x].anchor)
  {
    hide RunPiece;
  }

  /** A run whose pieces are all in counts as a run done, whichever run comes next. */
  lemma RunPushed(nodes: map<Stamp, Node>, dead: DeadMap, xs: set<Stamp>, ys: set<Stamp>, h: Stamp, g: Stamp)
    requires h in dead
    ensures forall s, a :: Pushed(nodes, dead, xs, ys + {h}, g, 0, s, a) <==>
              Pushed(nodes, dead, xs, ys, h, dead[h].len, s, a)
  {
    forall s, a
      ensures Pushed(nodes, dead, xs, ys + {h}, g, 0, s, a) <==> Pushed(nodes, dead, xs, ys, h, dead[h].len, s, a)
    {
      if s.DeadSpan? {
        assert RunPiece(nodes, dead, h, s, a) ==> h in ys + {h};
        if f :| f in ys && RunPiece(nodes, dead, f, s, a) {
          assert f in ys + {h};
        }
        assert RunPiece(nodes, dead, g, s, a) ==> g.lamport <= s.start.lamport;
        assert RunPiece(nodes, dead, h, s, a) ==> s.start.lamport - h.lamport < dead[h].len;
      }
    }
  }

  lemma NextRun(nodes: map<Stamp, Node>, dead: DeadMap, xs: set<Stamp>, ys: set<Stamp>, h: Stamp, g: Stamp)
    ensures forall s, a :: Pushed(nodes, dead, xs, ys, g, 0, s, a) <==> Pushed(nodes, dead, xs, ys, h, 0, s, a)
  {
    hide PieceAt;
  }

  lemma AllPushed(nodes: map<Stamp, Node>, dead: DeadMap, h: Stamp)
    ensures forall s, a :: Pushed(nodes, dead, nodes.Keys, dead.Keys, h, 0, s, a) <==> Piece(nodes, dead, s, a)
  {
    hide PieceAt;
  }

  ghost function PieceFn(nodes: map<Stamp, Node>, dead: DeadMap): (Span, Anchor) -> bool {
    (s, a) => Piece(nodes, dead, s, a)
  }

  /** Every node pushed into the bucket of its anchor. */
  method PushNodes(nodes: map<Stamp, Node>, ghost dead: DeadMap, ghost none: Stamp) returns (b: Buckets)
    ensures Filled(b, PushedFn(nodes, dead, nodes.Keys, {}, none, 0))
  {
    hide Filled, Pushed;
    b := map[];
    EmptyFilled(nodes, dead, none);
    var rest := nodes.Keys;
    ghost var xs: set<Stamp> := {};
    while rest != {}
      invariant rest <= nodes.Keys && xs == nodes.Keys - rest
      invariant Filled(b, PushedFn(nodes, dead, xs, {}, none, 0))
      decreases |rest|
    {
      var x :| x in rest;
      NodePushed(nodes, dead, xs, x, none);
      PushFills(b, PushedFn(nodes, dead, xs, {}, none, 0), NodeSpan(x), nodes[x].anchor,
                PushedFn(nodes, dead, xs + {x}, {}, none, 0));
      b := Push(b, nodes[x].anchor, NodeSpan(x));
      rest, xs := rest - {x}, xs + {x};
    }
    assert xs == nodes.Keys;
  }

  /** Every record pushed into the bucket of its anchor, in storage order. */
  method FillBuckets(nodes: map<Stamp, Node>, dead: DeadMap) returns (b: Buckets)
    requires Canonical(dead)
    ensures Filled(b, PieceFn(nodes, dead))
  {
    hide Canonical, Filled, Pushed, CutsOf, Piece;
    var cuts := FindCuts(nodes, dead);
    ghost var none := Stamp(0, 0, 0);
    ghost var xs := nodes.Keys;
    b := PushNodes(nodes, dead, none);
    var rest := dead.Keys;
    ghost var ys: set<Stamp> := {};
    while rest != {}
      invariant rest <= dead.Keys && ys == dead.Keys - rest
      invariant Filled(b, PushedFn(nodes, dead, xs, ys, none, 0))
      decreases |rest|
    {
      var h :| h in rest;
      StartRun(nodes, dead, b, xs, ys, none, h);
      b := PushRun(nodes, dead, cuts, b, h, xs, ys);
      FinishRun(nodes, dead, b, xs, ys, none, h);
      rest, ys := rest - {h}, ys + {h};
    }
    assert ys == dead.Keys;
    AllPushed(nodes, dead, none);
    Refill(b, PushedFn(nodes, dead, xs, ys, none, 0), PieceFn(nodes, dead));
  }

  lemma StartRun(nodes: map<Stamp, Node>, dead: DeadMap, b: Buckets, xs: set<Stamp>, ys: set<Stamp>, none: Stamp,
                 h: Stamp)
    requires Filled(b, PushedFn(nodes, dead, xs, ys, none, 0))
    ensures Filled(b, PushedFn(nodes, dead, xs, ys, h, 0))
  {
    hide Filled, Pushed;
    NextRun(nodes, dead, xs, ys, none, h);
    Refill(b, PushedFn(nodes, dead, xs, ys, none, 0), PushedFn(nodes, dead, xs, ys, h, 0));
  }

  lemma FinishRun(nodes: map<Stamp, Node>, dead: DeadMap, b: Buckets, xs: set<Stamp>, ys: set<Stamp>, none: Stamp,
                  h: Stamp)
    requires h in dead && Filled(b, PushedFn(nodes, dead, xs, ys, h, dead[h].len))
    ensures Filled(b, PushedFn(nodes, dead, xs, ys + {h}, none, 0))
  {
    hide Filled, Pushed;
    RunPushed(nodes, dead, xs, ys, h, none);
    Refill(b, PushedFn(nodes, dead, xs, ys, h, dead[h].len), PushedFn(nodes, dead, xs, ys + {h}, none, 0));
  }

  lemma EmptyFilled(nodes: map<Stamp, Node>, dead: DeadMap, h: Stamp)
    ensures Filled(map[], PushedFn(nodes, dead, {}, {}, h, 0))
  {
    forall a
      ensures FilledAt(map[], PushedFn(nodes, dead, {}, {}, h, 0), a)
    {
    }
  }

  ghost predicate HeadsSorted(s: seq<Span>) {
    forall i, j :: 0 <= i < j < |s| ==> AtMost(Head(s[i]), Head(s[j]))
  }

  /** A bucket sorted by head. */
  method SortByHead(s: seq<Span>) returns (r: seq<Span>)
    ensures HeadsSorted(r) && multiset(r) == multiset(s)
  {
    r := [];
    var k := 0;
    while k < |s|
      invariant 0 <= k <= |s|
      invariant HeadsSorted(r) && multiset(r) == multiset(s[..k])
    {
      r := InsertByHead(r, s[k]);
      assert s[..k + 1] == s[..k] + [s[k]];
      k := k + 1;
    }
    assert s[..k] == s;
  }

  method InsertByHead(s: seq<Span>, x: Span) returns (r: seq<Span>)
    requires HeadsSorted(s)
    ensures HeadsSorted(r) && multiset(r) == multiset(s) + multiset{x}
  {
    var i := 0;
    while i < |s| && Less(Head(s[i]), Head(x))
      invariant 0 <= i <= |s|
      invariant forall j :: 0 <= j < i ==> Less(Head(s[j]), Head(x))
    {
      i := i + 1;
    }
    r := s[..i] + [x] + s[i..];
    assert s == s[..i] + s[i..];
    assert forall j :: i <= j < |s| ==> AtMost(Head(x), Head(s[j]));
  }

  /** The records grouped by anchor, siblings in stamp order. */
  method Children(nodes: map<Stamp, Node>, dead: DeadMap) returns (b: Buckets)
    requires StateValid(nodes, dead)
    ensures BucketsOf(nodes, dead, b)
  {
    hide Canonical, Piece, Tombs, HeadsSorted, Filled, BucketOf, StateValid;
    assert Canonical(dead) by { ValidRuns(nodes, dead); }
    var filled := FillBuckets(nodes, dead);
    b := map[];
    var rest := filled.Keys;
    while rest != {}
      invariant rest <= filled.Keys && b.Keys == filled.Keys - rest
      invariant forall a :: a in b ==> BucketOf(nodes, dead, b, a)
      decreases |rest|
    {
      var a :| a in rest;
      var sorted := SortByHead(filled[a]);
      SortedBucket(nodes, dead, filled, a, sorted, b);
      OtherBuckets(nodes, dead, b, a, sorted);
      b := b[a := sorted];
      rest := rest - {a};
    }
    forall a
      ensures BucketOf(nodes, dead, b, a)
    {
      if a !in b {
        NoBucket(nodes, dead, filled, b, a);
      }
    }
  }

  lemma ValidRuns(nodes: map<Stamp, Node>, dead: DeadMap)
    requires StateValid(nodes, dead)
    ensures Canonical(dead)
  {
  }

  lemma OtherBuckets(nodes: map<Stamp, Node>, dead: DeadMap, b: Buckets, a: Anchor, sorted: seq<Span>)
    ensures forall x :: x != a && BucketOf(nodes, dead, b, x) ==> BucketOf(nodes, dead, b[a := sorted], x)
  {
    hide Piece;
    forall x | x != a ensures Bucket(b[a := sorted], x) == Bucket(b, x) {}
  }

  lemma NoBucket(nodes: map<Stamp, Node>, dead: DeadMap, filled: Buckets, b: Buckets, a: Anchor)
    requires Filled(filled, PieceFn(nodes, dead)) && a !in filled && a !in b
    ensures BucketOf(nodes, dead, b, a)
  {
    hide Piece;
    assert FilledAt(filled, PieceFn(nodes, dead), a);
  }

  lemma SortedBucket(nodes: map<Stamp, Node>, dead: DeadMap, filled: Buckets, a: Anchor, sorted: seq<Span>, b: Buckets)
    requires StateValid(nodes, dead) && Filled(filled, PieceFn(nodes, dead)) && a in filled
    requires HeadsSorted(sorted) && multiset(sorted) == multiset(filled[a])
    ensures BucketOf(nodes, dead, b[a := sorted], a)
  {
    hide StateValid, Piece;
    assert FilledAt(filled, PieceFn(nodes, dead), a);
    forall s
      ensures s in sorted <==> Piece(nodes, dead, s, a)
    {
      assert s in sorted <==> s in multiset(sorted);
      assert s in filled[a] <==> s in multiset(filled[a]);
    }
    DistinctSorted(filled[a], sorted);
    forall i, j | 0 <= i < j < |sorted|
      ensures Less(Head(sorted[i]), Head(sorted[j]))
    {
      if Head(sorted[i]) == Head(sorted[j]) {
        PieceByHead(nodes, dead, sorted[i], a, sorted[j], a);
        assert false;
      }
    }
  }

  lemma DistinctSorted(s: seq<Span>, r: seq<Span>)
    requires Distinct(s) && multiset(r) == multiset(s)
    ensures Distinct(r)
  {
    forall i, j | 0 <= i < j < |r|
      ensures r[i] != r[j]
    {
      if r[i] == r[j] {
        Twice(r, i, j);
        Once(s, r[i]);
        assert false;
      }
    }
  }

  lemma Twice<T>(r: seq<T>, i: nat, j: nat)
    requires i < j < |r| && r[i] == r[j]
    ensures multiset(r)[r[i]] >= 2
  {
    assert r == r[..i] + [r[i]] + r[i + 1..j] + [r[j]] + r[j + 1..];
  }

  lemma {:induction false} Once<T>(s: seq<T>, x: T)
    requires Distinct(s)
    ensures multiset(s)[x] <= 1
  {
    if s != [] {
      var init := s[..|s| - 1];
      assert s == init + [s[|s| - 1]];
      assert Distinct(init) by {
        assert forall i :: 0 <= i < |init| ==> init[i] == s[i];
      }
      Once(init, x);
      if s[|s| - 1] == x {
        assert x !in init;
        assert multiset(init)[x] == 0;
      }
    }
  }
}
