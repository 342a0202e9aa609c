/** The sequence's stored state: ids that carry a value, and the deleted ids as
    compressed runs. Every mutation is specified on the plain map it stands for. */
module Lists {
  import opened Stamps
  import opened Bytes
  import opened Codec
  import opened Runs

  // ---- claims ----

  /** What an op claims an id for: a value and a position. */
  datatype Claim = Claim(value: Element, anchor: Anchor)

  /** The rank of a claim: the kind tag, then the position, then the encoded value. */
  predicate ClaimLess(c: Claim, d: Claim)
    requires ElementFits(c.value) && ElementFits(d.value)
  {
    var t, u := KindTag(c.value), KindTag(d.value);
    || t < u
    || (t == u && AnchorLess(c.anchor, d.anchor))
    || (t == u && c.anchor == d.anchor && LexLess(PutElement(c.value), PutElement(d.value)))
  }

  lemma ClaimTotal(c: Claim, d: Claim)
    requires ElementFits(c.value) && ElementFits(d.value)
    ensures c == d || ClaimLess(c, d) || ClaimLess(d, c)
    ensures !ClaimLess(c, c)
    ensures !(ClaimLess(c, d) && ClaimLess(d, c))
  {
    hide PutElement, LexLess;
    LexTotal(PutElement(c.value), PutElement(d.value));
    LexIrreflexive(PutElement(c.value));
    if PutElement(c.value) == PutElement(d.value) {
      ElementInjective(c.value, d.value);
    }
    if LexLess(PutElement(c.value), PutElement(d.value)) && LexLess(PutElement(d.value), PutElement(c.value)) {
      LexTransitive(PutElement(c.value), PutElement(d.value), PutElement(c.value));
    }
  }

  lemma ClaimTransitive(c: Claim, d: Claim, e: Claim)
    requires ElementFits(c.value) && ElementFits(d.value) && ElementFits(e.value)
    requires ClaimLess(c, d) && ClaimLess(d, e)
    ensures ClaimLess(c, e)
  {
    hide PutElement, LexLess;
    if LexLess(PutElement(c.value), PutElement(d.value)) && LexLess(PutElement(d.value), PutElement(e.value)) {
      LexTransitive(PutElement(c.value), PutElement(d.value), PutElement(e.value));
    }
  }

  // ---- the plain state ----

  /** What an id holds: a value at a position, or a tombstone that kept the position. */
  datatype Cell = Live(claim: Claim, away: bool) | Dead(anchor: Anchor)

  type Logical = map<Stamp, Cell>

  function CellAnchor(c: Cell): Anchor {
    match c case Live(claim, _) => claim.anchor case Dead(anchor) => anchor
  }

  ghost predicate CellFits(c: Cell) {
    c.Live? ==> ElementFits(c.claim.value)
  }

  /** Install a claim whatever the id holds; a delete stays terminal. */
  function SeatCell(held: Option<Cell>, claim: Claim): Cell {
    if held.Some? && held.value.Dead? then Dead(claim.anchor) else Live(claim, false)
  }

  /** What an id holds once a claim on it has been ranked against what holds it. */
  function InsertCell(held: Option<Cell>, claim: Claim): Cell
    requires ElementFits(claim.value) && (held.Some? ==> CellFits(held.value))
  {
    match held
    case None => Live(claim, false)
    case Some(Live(c, away)) => if ClaimLess(claim, c) then Live(claim, false) else Live(c, away)
    case Some(Dead(a)) => if AnchorLess(claim.anchor, a) then Dead(claim.anchor) else Dead(a)
  }

  /** What an id holds once a peer's tombstone for it has been absorbed: an id held
      here keeps the position recorded here. */
  function BuryCell(held: Option<Cell>, anchor: Anchor): Cell {
    match held
    case None => Dead(anchor)
    case Some(c) => Dead(CellAnchor(c))
  }

  function Get(s: Logical, id: Stamp): Option<Cell> {
    if id in s then Some(s[id]) else None
  }

  // ---- the stored state ----

  datatype Node = Node(value: Element, anchor: Anchor, movedAway: bool)

  ghost predicate StateValid(nodes: map<Stamp, Node>, dead: DeadMap) {
    && Canonical(dead)
    && (forall id :: id in nodes ==> id !in Tombs(dead))
    && (forall id :: id in nodes ==> id.lamport < U64_LIMIT && ElementFits(nodes[id].value))
  }

  ghost function Abs(nodes: map<Stamp, Node>, dead: DeadMap): Logical {
    map id | id in nodes.Keys + Tombs(dead).Keys ::
      if id in nodes then Live(Claim(nodes[id].value, nodes[id].anchor), nodes[id].movedAway)
      else Dead(Tombs(dead)[id])
  }

  /** The stored state is the unique valid one for the plain map it stands for. */
  lemma AbsUnique(nodes: map<Stamp, Node>, dead: DeadMap, nodes': map<Stamp, Node>, dead': DeadMap)
    requires StateValid(nodes, dead) && StateValid(nodes', dead')
    requires Abs(nodes, dead) == Abs(nodes', dead')
    ensures nodes == nodes' && dead == dead'
  {
    hide Tombs;
    var s, t := Abs(nodes, dead), Abs(nodes', dead');
    forall id
      ensures id in nodes <==> id in s && s[id].Live?
      ensures id in Tombs(dead) <==> id in s && s[id].Dead?
      ensures id in nodes' <==> id in t && t[id].Live?
      ensures id in Tombs(dead') <==> id in t && t[id].Dead?
    {
    }
    assert Tombs(dead) == Tombs(dead') by {
      forall id | id in Tombs(dead) ensures Dead(Tombs(dead)[id]) == s[id] {}
      forall id | id in Tombs(dead') ensures Dead(Tombs(dead')[id]) == t[id] {}
    }
    CanonicalUnique(dead, dead');
    assert nodes == nodes' by {
      forall id | id in nodes
        ensures s[id] == Live(Claim(nodes[id].value, nodes[id].anchor), nodes[id].movedAway) {}
      forall id | id in nodes'
        ensures t[id] == Live(Claim(nodes'[id].value, nodes'[id].anchor), nodes'[id].movedAway) {}
    }
  }

  // ---- ordered-map queries ----

  /** The greatest key at or below `key` in storage order. */
  method Floor(keys: set<Stamp>, key: Stamp) returns (r: Option<Stamp>)
    ensures r.None? ==> forall k :: k in keys ==> !KeyAtMost(k, key)
    ensures r.Some? ==> r.value in keys && KeyAtMost(r.value, key)
    ensures r.Some? ==> forall k :: k in keys && KeyAtMost(k, key) ==> KeyAtMost(k, r.value)
  {
    r := None;
    var rest := keys;
    while rest != {}
      invariant rest <= keys
      invariant r.None? ==> forall k :: k in keys - rest ==> !KeyAtMost(k, key)
      invariant r.Some? ==> r.value in keys && KeyAtMost(r.value, key)
      invariant r.Some? ==> forall k :: k in keys - rest && KeyAtMost(k, key) ==> KeyAtMost(k, r.value)
      decreases |rest|
    {
      var k :| k in rest;
      rest := rest - {k};
      if KeyAtMost(k, key) && (r.None? || KeyAtMost(r.value, k)) {
        r := Some(k);
      }
    }
  }

  /** The least key at or above `key` in storage order. */
  method Ceiling(keys: set<Stamp>, key: Stamp) returns (r: Option<Stamp>)
    ensures r.None? ==> forall k :: k in keys ==> !KeyAtMost(key, k)
    ensures r.Some? ==> r.value in keys && KeyAtMost(key, r.value)
    ensures r.Some? ==> forall k :: k in keys && KeyAtMost(key, k) ==> KeyAtMost(r.value, k)
  {
    r := None;
    var rest := keys;
    while rest != {}
      invariant rest <= keys
      invariant r.None? ==> forall k :: k in keys - rest ==> !KeyAtMost(key, k)
      invariant r.Some? ==> r.value in keys && KeyAtMost(key, r.value)
      invariant r.Some? ==> forall k :: k in keys - rest && KeyAtMost(key, k) ==> KeyAtMost(r.value, k)
      decreases |rest|
    {
      var k :| k in rest;
      rest := rest - {k};
      if KeyAtMost(key, k) && (r.None? || KeyAtMost(k, r.value)) {
        r := Some(k);
      }
    }
  }

  /** The run covering an id. The nearest head at or below it is the only candidate,
      because runs do not overlap. */
  method FindRun(dead: DeadMap, id: Stamp) returns (r: Option<Stamp>)
    requires WellFormed(dead)
    ensures r.Some? ==> Holds(dead, r.value, id)
    ensures r.None? <==> id !in Tombs(dead)
    ensures r.Some? ==> Tombs(dead)[id] == ChainAnchor(r.value, dead[r.value].anchor, id.lamport - r.value.lamport)
  {
    hide Tombs;
    r := Floor(dead.Keys, id);
    if r.Some? && !Covers(r.value, dead[r.value].len, id) {
      forall h | h in dead
        ensures !Covers(h, dead[h].len, id)
      {
      }
      r := None;
    }
    NoTomb(dead, id);
    if r.Some? {
      TombAt(dead, r.value, id);
    }
  }

  method FindCanonical(dead: DeadMap, id: Stamp) returns (r: Option<Stamp>)
    requires Canonical(dead)
    ensures r.Some? ==> Holds(dead, r.value, id)
    ensures r.None? <==> id !in Tombs(dead)
  {
    hide Tombs;
    r := FindRun(dead, id);
  }

  /** Where a deleted id hangs, or `None` if no run covers it. */
  method DeadAnchorOf(dead: DeadMap, id: Stamp) returns (r: Option<Anchor>)
    requires Canonical(dead)
    ensures r == if id in Tombs(dead) then Some(Tombs(dead)[id]) else None
  {
    hide Tombs;
    var found := FindRun(dead, id);
    match found {
      case None => r := None;
      case Some(head) =>
        r := Some(if head == id then dead[head].anchor
                  else Anchor(Some(RunId(head, id.lamport - head.lamport - 1)), Right));
    }
  }

  class List {
    var nodes: map<Stamp, Node>
    var dead: DeadMap

    ghost predicate Valid()
      reads this
    {
      StateValid(nodes, dead)
    }

    /** The plain map this list stands for. */
    ghost function State(): Logical
      reads this
    {
      Abs(nodes, dead)
    }

    constructor ()
      ensures Valid() && State() == map[]
    {
      nodes := map[];
      dead := map[];
    }

    /** Record `len` ids from `head` as deleted, welding the record onto the runs whose
        chain it continues. */
    method AddDead(head: Stamp, len: nat, anchor: Anchor)
      requires Canonical(dead) && len > 0 && head.lamport + len <= U64_LIMIT
      requires Unheld(dead, head, len)
      modifies `dead
      ensures Canonical(dead)
      ensures Tombs(dead) == old(Tombs(dead)) + Chain(head, len, anchor)
    {
      hide Tombs, Chain, Open, Canonical;
      var h, n, a := head, len, anchor;
      ghost var want := Tombs(dead) + Chain(head, len, anchor);
      ghost var before := dead;
      UnheldHead(dead, head, len);
      var onto := ContinuedRun(dead, head, anchor);
      if onto.Some? {
        var p := onto.value;
        StoredOnto(dead, p, head, len, anchor);
        h, n, a := p, dead[p].len + len, dead[p].anchor;
        dead := dead - {p};
        assert dead[h := DeadRun(n, a)] == before[h := DeadRun(n, a)];
      } else {
        StoredAlone(dead, head, len, anchor);
      }
      assert Open(dead[h := DeadRun(n, a)], want, h);
      var next := RunId(h, n);
      if next in dead && dead[next].anchor == Anchor(Some(RunId(h, n - 1)), Right) {
        CloseOnto(dead, want, h, n, a, next);
        n := n + dead[next].len;
        dead := dead - {next};
      } else {
        ClosedAlone(dead[h := DeadRun(n, a)], want, h);
      }
      dead := dead[h := DeadRun(n, a)];
    }

    /** Lift `id` out of the runs, splitting the record that covers it. */
    method TakeDead(id: Stamp) returns (was: bool)
      requires Canonical(dead)
      modifies `dead
      ensures Canonical(dead)
      ensures was <==> id in old(Tombs(dead))
      ensures Tombs(dead) == old(Tombs(dead)) - {id}
    {
      hide Tombs, Lifted;
      var found := FindRun(dead, id);
      if found.None? {
        assert Tombs(dead) - {id} == Tombs(dead);
        return false;
      }
      var head := found.value;
      var run := dead[head];
      LiftRemoves(dead, head, id);
      var before := id.lamport - head.lamport;
      var after := run.len - before - 1;
      ghost var lifted := Lifted(dead, head, id);
      LiftedShape(dead, head, id);
      dead := dead - {head};
      if before > 0 {
        dead := dead[head := DeadRun(before, run.anchor)];
      }
      if after > 0 {
        dead := dead[RunId(head, before + 1) := DeadRun(after, Anchor(Some(id), Right))];
      }
      assert dead == lifted;
      return true;
    }

    /** Delete an id. Its value is dropped and its position folds into the runs; a
        no-op if it is absent or already deleted. */
    method DeleteId(id: Stamp)
      requires Valid()
      modifies this
      ensures Valid()
      ensures State() == DeleteState(old(State()), id)
    {
      hide Tombs, Canonical, Abs;
      AbsAt(nodes, dead, id);
      if id in nodes {
        var anchor := nodes[id].anchor;
        ghost var nodes0, dead0 := nodes, dead;
        nodes := nodes - {id};
        UnheldOne(dead, id);
        AddDead(id, 1, anchor);
        ChainOne(id, anchor);
        BuriedOne(nodes0, dead0, id, dead);
      }
    }

    /** Install a claim on an id whatever the id holds. */
    method Seat(id: Stamp, claim: Claim)
      requires Valid() && id.lamport < U64_LIMIT && ElementFits(claim.value)
      modifies this
      ensures Valid()
      ensures State() == old(State())[id := SeatCell(Get(old(State()), id), claim)]
    {
      hide Tombs, Canonical, Abs;
      AbsAt(nodes, dead, id);
      ghost var nodes0, dead0 := nodes, dead;
      var was := TakeDead(id);
      nodes := nodes[id := Node(claim.value, claim.anchor, false)];
      Seated(nodes0, dead0, id, claim, dead);
      ghost var mid := State();
      if was {
        DeleteId(id);
        assert mid[id := Dead(claim.anchor)] == old(State())[id := Dead(claim.anchor)];
      }
    }

    /** Claim an id, ranked against whatever holds it. */
    method InsertAt(id: Stamp, claim: Claim)
      requires Valid() && id.lamport < U64_LIMIT && ElementFits(claim.value)
      modifies this
      ensures Valid()
      ensures State() == InsertState(old(State()), id, claim)
    {
      hide Tombs, Canonical, Abs, ClaimLess;
      AbsAt(nodes, dead, id);
      StateFits(nodes, dead);
      var takes;
      if id in nodes {
        takes := ClaimLess(claim, Claim(nodes[id].value, nodes[id].anchor));
      } else {
        var held := DeadAnchorOf(dead, id);
        takes := held.None? || AnchorLess(claim.anchor, held.value);
      }
      if takes {
        Seat(id, claim);
      }
      assert takes || State() == old(State())[id := old(State())[id]];
    }

    /** Re-seat an id on the document's verdict; a live scalar on it outranks the claim. */
    method Reseat(id: Stamp, claim: Claim)
      requires Valid() && id.lamport < U64_LIMIT && ElementFits(claim.value)
      modifies this
      ensures Valid()
      ensures State() == match Get(old(State()), id)
                         case Some(Live(Claim(Leaf(_), _), _)) => old(State())
                         case Some(Dead(_)) => old(State())[id := Dead(claim.anchor)]
                         case _ => old(State())[id := Live(claim, false)]
    {
      hide Tombs, Canonical, Abs;
      AbsAt(nodes, dead, id);
      if id in nodes && nodes[id].value.Leaf? {
        return;
      }
      Seat(id, claim);
    }

    /** Re-seat an id at the lesser of where it sits and where the claim puts it. */
    method Rejoin(id: Stamp, claim: Claim)
      requires Valid() && id.lamport < U64_LIMIT && ElementFits(claim.value)
      modifies this
      ensures Valid()
      ensures var s := old(State());
              State() == match Get(s, id)
                         case Some(Live(Claim(Leaf(_), _), _)) => s
                         case Some(Dead(a)) => s[id := Dead(MinAnchor(a, claim.anchor))]
                         case Some(Live(c, _)) =>
                           s[id := Live(Claim(claim.value, MinAnchor(c.anchor, claim.anchor)), false)]
                         case None => s[id := Live(claim, false)]
    {
      hide Tombs, Canonical, Abs;
      AbsAt(nodes, dead, id);
      if id in nodes && nodes[id].value.Leaf? {
        return;
      }
      var held: Option<Anchor>;
      if id in nodes {
        held := Some(nodes[id].anchor);
      } else {
        held := DeadAnchorOf(dead, id);
      }
      Seat(id, claim.(anchor := if held.Some? then MinAnchor(held.value, claim.anchor) else claim.anchor));
    }

    /** Suppress or re-instate a live node under a tree move; inert on a deleted id. */
    method SetMovedAway(id: Stamp, away: bool)
      requires Valid()
      modifies this
      ensures Valid()
      ensures State() == if id in old(State()) && old(State())[id].Live?
                         then old(State())[id := old(State())[id].(away := away)] else old(State())
    {
      hide Tombs, Canonical;
      if id in nodes {
        nodes := nodes[id := nodes[id].(movedAway := away)];
      }
    }

    /** How many ids from `id` on, at most `max`, this list has never seen. */
    method UnseenFrom(id: Stamp, max: nat) returns (n: nat)
      requires Valid() && id !in nodes && id !in Tombs(dead) && max > 0
      ensures 0 < n <= max
      ensures forall x :: Covers(id, n, x) ==> x !in nodes && x !in Tombs(dead)
      ensures n < max ==> RunId(id, n) in nodes || RunId(id, n) in Tombs(dead)
    {
      hide Tombs;
      n := max;
      var node := Ceiling(nodes.Keys, id);
      if node.Some? && SameGroup(node.value, id) && node.value.lamport - id.lamport < n {
        n := node.value.lamport - id.lamport;
        assert RunId(id, n) == node.value;
      }
      var run := Ceiling(dead.Keys, id);
      if run.Some? && SameGroup(run.value, id) && run.value.lamport - id.lamport < n {
        n := run.value.lamport - id.lamport;
        TombAt(dead, run.value, run.value);
        assert RunId(id, n) == run.value;
      }
      forall x | Covers(id, n, x)
        ensures x !in nodes && x !in Tombs(dead)
      {
        NoRunAhead(dead, id, n, x);
      }
      if id in dead {
        TombAt(dead, id, id);
        assert false;
      }
    }

    /** Mark a peer's run deleted here. */
    method Bury(head: Stamp, len: nat, anchor: Anchor)
      requires Valid() && head.lamport + len <= U64_LIMIT
      modifies this
      ensures Valid()
      ensures State() == BuryState(old(State()), head, len, anchor)
    {
      hide Tombs, Canonical, Abs, BuryState, Chain;
      var i := 0;
      ghost var start := State();
      BuryNone(start, head, anchor);
      while i < len
        invariant Valid()
        invariant State() == BuryState(start, head, if i < len then i else len, anchor)
        decreases len - i
      {
        var id := RunId(head, i);
        AbsAt(nodes, dead, id);
        var found := FindCanonical(dead, id);
        if found.Some? {
          var skip := dead[found.value].len - (id.lamport - found.value.lamport);
          BurySkip(nodes, dead, found.value, start, head, i, len, anchor);
          i := i + skip;
        } else if id in nodes {
          ghost var mid := State();
          DeleteId(id);
          BuryOne(start, mid, head, i, anchor);
          i := i + 1;
        } else {
          var unseen := UnseenFrom(id, len - i);
          var a := if i == 0 then anchor else Anchor(Some(RunId(head, i - 1)), Right);
          ghost var nodes0, dead0 := nodes, dead;
          AddDead(id, unseen, a);
          BuryUnseen(nodes0, dead0, dead, start, head, i, unseen, anchor);
          i := i + unseen;
        }
      }
    }

    /** Fold one of a peer's valued nodes in. */
    method MergeNode(id: Stamp, theirs: Node)
      requires Valid() && id.lamport < U64_LIMIT && ElementFits(theirs.value)
      requires StateFit(State())
      modifies this
      ensures Valid()
      ensures State() == old(State())[id := MergeCell(Get(old(State()), id),
                                       Live(Claim(theirs.value, theirs.anchor), theirs.movedAway))]
    {
      hide Tombs, Canonical, Abs, ClaimLess;
      AbsAt(nodes, dead, id);
      ghost var nodes0, s := nodes, State();
      var claim := Claim(theirs.value, theirs.anchor);
      if id in nodes {
        var mine := nodes[id];
        if mine.value == theirs.value {
          nodes := nodes[id := mine.(anchor := MinAnchor(mine.anchor, theirs.anchor))];
          NodeSet(nodes0, dead, id, nodes[id]);
        } else if ClaimLess(claim, Claim(mine.value, mine.anchor)) {
          Seat(id, claim);
        } else {
          assert s == s[id := s[id]];
        }
      } else {
        var held := DeadAnchorOf(dead, id);
        if held.None? {
          nodes := nodes[id := theirs];
          NodeSet(nodes0, dead, id, theirs);
        } else {
          assert s == s[id := s[id]];
        }
      }
    }

    /** Fold a peer's valued nodes in. */
    method MergeNodes(onodes: map<Stamp, Node>, odead: DeadMap)
      requires Valid() && StateValid(onodes, odead)
      requires StateFit(State()) && StateFit(Abs(onodes, odead))
      modifies this
      ensures Valid() && StateFit(Restrict(Abs(onodes, odead), onodes.Keys))
      ensures State() == MergeState(old(State()), Restrict(Abs(onodes, odead), onodes.Keys))
    {
      hide Tombs, StateValid, Abs, StateFit, MergeState, MergeCell, Restrict;
      ghost var start, peer := State(), Abs(onodes, odead);
      MergeNothing(start, peer);
      var keys := onodes.Keys;
      ghost var done: set<Stamp> := {};
      while keys != {}
        invariant Valid() && keys <= onodes.Keys && done == onodes.Keys - keys
        invariant StateFit(Restrict(peer, done)) && State() == MergeState(start, Restrict(peer, done))
        decreases |keys|
      {
        var id :| id in keys;
        AbsAt(onodes, odead, id);
        NodeFits(onodes, odead, id);
        StateFits(nodes, dead);
        MergeNode(id, onodes[id]);
        MergeOneMore(start, peer, done, id);
        done, keys := done + {id}, keys - {id};
      }
      assert done == onodes.Keys;
    }

    /** Fold a peer's sequence in: its valued nodes first, then its runs. */
    method Merge(onodes: map<Stamp, Node>, odead: DeadMap)
      requires Valid() && StateValid(onodes, odead)
      requires StateFit(State()) && StateFit(Abs(onodes, odead))
      modifies this
      ensures Valid()
      ensures State() == MergeState(old(State()), Abs(onodes, odead))
    {
      hide Tombs, StateValid, Abs, StateFit, MergeState, MergeCell, BuryState, Folded;
      ghost var start := State();
      MergeNodes(onodes, odead);
      FoldedNodes(onodes, odead);
      var heads := odead.Keys;
      while heads != {}
        invariant Valid() && heads <= odead.Keys
        invariant StateFit(Folded(onodes, odead, heads)) && State() == MergeState(start, Folded(onodes, odead, heads))
        decreases |heads|
      {
        var h :| h in heads;
        RunFits(onodes, odead, h);
        Bury(h, odead[h].len, odead[h].anchor);
        MergeRunMore(start, onodes, odead, heads, h);
        heads := heads - {h};
      }
      FoldedAll(onodes, odead);
    }
  }

  // ---- the plain form of each mutation ----

  /** Two replicas' views of one id folded together: a delete wins and keeps the position
      recorded here, equal values meet at the lesser position, and otherwise the rank
      decides as it does between two claims. */
  function MergeCell(mine: Option<Cell>, theirs: Cell): Cell
    requires CellFits(theirs) && (mine.Some? ==> CellFits(mine.value))
  {
    match (mine, theirs)
    case (_, Dead(a)) => BuryCell(mine, a)
    case (None, Live(_, _)) => theirs
    case (Some(Dead(a)), Live(_, _)) => Dead(a)
    case (Some(Live(c, away)), Live(d, _)) =>
      if c.value == d.value then Live(Claim(c.value, MinAnchor(c.anchor, d.anchor)), away)
      else if ClaimLess(d, c) then Live(d, false)
      else Live(c, away)
  }

  ghost function MergeState(s: Logical, t: Logical): Logical
    requires StateFit(s) && StateFit(t)
  {
    s + map id | id in t :: MergeCell(Get(s, id), t[id])
  }

  ghost function Restrict(t: Logical, ids: set<Stamp>): Logical {
    map id | id in t && id in ids :: t[id]
  }

  /** A peer's run absorbed: every id of it ends deleted. */
  ghost function BuryState(s: Logical, head: Stamp, len: nat, anchor: Anchor): Logical {
    s + Graves(s, head, len, anchor)
  }

  /** How far into a run an id lies. */
  function Into(head: Stamp, id: Stamp): nat {
    if head.lamport <= id.lamport then id.lamport - head.lamport else 0
  }

  ghost function Graves(s: Logical, head: Stamp, len: nat, anchor: Anchor): Logical {
    map id | id in Segment(head, len) :: BuryCell(Get(s, id), ChainAnchor(head, anchor, Into(head, id)))
  }

  function DeleteState(s: Logical, id: Stamp): Logical {
    if id in s && s[id].Live? then s[id := Dead(s[id].claim.anchor)] else s
  }

  ghost predicate StateFit(s: Logical) {
    forall id :: id in s ==> CellFits(s[id])
  }

  function InsertState(s: Logical, id: Stamp, claim: Claim): Logical
    requires ElementFits(claim.value) && (id in s ==> CellFits(s[id]))
  {
    s[id := InsertCell(Get(s, id), claim)]
  }

  // ---- the stored form follows ----

  lemma AbsAt(nodes: map<Stamp, Node>, dead: DeadMap, id: Stamp)
    ensures id in nodes ==> id in Abs(nodes, dead)
    ensures id in nodes ==> Abs(nodes, dead)[id] == Live(Claim(nodes[id].value, nodes[id].anchor), nodes[id].movedAway)
    ensures id !in nodes && id in Tombs(dead) ==>
              id in Abs(nodes, dead) && Abs(nodes, dead)[id] == Dead(Tombs(dead)[id])
    ensures id !in nodes && id !in Tombs(dead) ==> id !in Abs(nodes, dead)
  {
  }

  lemma StateFits(nodes: map<Stamp, Node>, dead: DeadMap)
    requires StateValid(nodes, dead)
    ensures StateFit(Abs(nodes, dead))
  {
  }

  lemma UnheldOne(dead: DeadMap, id: Stamp)
    requires id !in Tombs(dead)
    ensures Unheld(dead, id, 1)
  {
    hide Tombs;
    assert forall x :: Covers(id, 1, x) ==> x == id;
  }

  lemma ChainOne(id: Stamp, anchor: Anchor)
    ensures Chain(id, 1, anchor) == map[id := anchor]
  {
    hide Chain;
    forall x {
      ChainAt(id, 1, anchor, x);
    }
  }

  lemma BuriedOne(nodes: map<Stamp, Node>, dead: DeadMap, id: Stamp, dead': DeadMap)
    requires StateValid(nodes, dead) && id in nodes && Canonical(dead')
    requires Tombs(dead') == Tombs(dead) + map[id := nodes[id].anchor]
    ensures StateValid(nodes - {id}, dead')
    ensures Abs(nodes - {id}, dead') == Abs(nodes, dead)[id := Dead(nodes[id].anchor)]
  {
    hide Tombs, Canonical;
  }

  lemma Seated(nodes: map<Stamp, Node>, dead: DeadMap, id: Stamp, claim: Claim, dead': DeadMap)
    requires StateValid(nodes, dead) && Canonical(dead') && Tombs(dead') == Tombs(dead) - {id}
    requires id.lamport < U64_LIMIT && ElementFits(claim.value)
    ensures StateValid(nodes[id := Node(claim.value, claim.anchor, false)], dead')
    ensures Abs(nodes[id := Node(claim.value, claim.anchor, false)], dead') ==
              Abs(nodes, dead)[id := Live(claim, false)]
  {
    hide Tombs, Canonical;
  }

  lemma LiftedShape(dead: DeadMap, h: Stamp, id: Stamp)
    requires Holds(dead, h, id)
    ensures var before := id.lamport - h.lamport; var after := dead[h].len - before - 1;
            var d := dead - {h};
            var e := if before == 0 then d else d[h := DeadRun(before, dead[h].anchor)];
            Lifted(dead, h, id) == if after == 0 then e
                                   else e[RunId(h, before + 1) := DeadRun(after, Anchor(Some(id), Right))]
  {
  }

  /** The run a record at `head` continues: it ends just before `head` and the record
      hangs to the right of its last id. */
  method ContinuedRun(dead: DeadMap, head: Stamp, anchor: Anchor) returns (r: Option<Stamp>)
    requires Canonical(dead) && head !in Tombs(dead)
    ensures r.Some? ==> r.value in dead && Continues(dead, r.value, head, anchor)
    ensures r.None? ==> forall p :: p in dead ==> !Continues(dead, p, head, anchor)
  {
    hide Tombs;
    r := None;
    if head.lamport > 0 && anchor == Anchor(Some(head.(lamport := head.lamport - 1)), Right) {
      var prev := head.(lamport := head.lamport - 1);
      var found := FindRun(dead, prev);
      if found.Some? && RunId(found.value, dead[found.value].len - 1) == prev {
        r := found;
      } else {
        NoneEndsAt(dead, head, found);
      }
    }
  }

  lemma CloseOnto(dead: DeadMap, tombs: map<Stamp, Anchor>, h: Stamp, n: nat, a: Anchor, next: Stamp)
    requires n > 0 && Open(dead[h := DeadRun(n, a)], tombs, h) && h !in dead
    requires next in dead && next == RunId(h, n) && dead[next].anchor == Anchor(Some(RunId(h, n - 1)), Right)
    ensures var d := (dead - {next})[h := DeadRun(n + dead[next].len, a)]; Canonical(d) && Tombs(d) == tombs
  {
    hide Tombs;
    var d := dead[h := DeadRun(n, a)];
    ClosedOnto(d, tombs, h, next);
    assert Welded(d, h, next) == (dead - {next})[h := DeadRun(n + dead[next].len, a)];
  }

  lemma NoneEndsAt(dead: DeadMap, head: Stamp, found: Option<Stamp>)
    requires WellFormed(dead) && head.lamport > 0 && head !in Tombs(dead)
    requires var prev := head.(lamport := head.lamport - 1);
             && (found.Some? ==>
                   Holds(dead, found.value, prev) && RunId(found.value, dead[found.value].len - 1) != prev)
             && (found.None? ==> prev !in Tombs(dead))
    ensures forall p :: p in dead ==> RunId(p, dead[p].len) != head
  {
    hide Tombs;
    var prev := head.(lamport := head.lamport - 1);
    forall p | p in dead
      ensures RunId(p, dead[p].len) != head
    {
      if RunId(p, dead[p].len) == head {
        assert Holds(dead, p, prev);
        TombAt(dead, p, prev);
        OneHolder(dead, prev);
        assert false;
      }
    }
  }

  // ---- absorbing a run, stretch by stretch ----

  lemma NoRunAhead(dead: DeadMap, id: Stamp, n: nat, x: Stamp)
    requires WellFormed(dead) && id !in Tombs(dead) && Covers(id, n, x)
    requires forall h :: h in dead && SameGroup(h, id) && KeyAtMost(id, h) ==> id.lamport + n <= h.lamport
    ensures x !in Tombs(dead)
  {
    hide Tombs;
    if x in Tombs(dead) {
      var h := TombFrom(dead, x);
      if h.lamport < id.lamport {
        TombAt(dead, h, id);
      }
      assert false;
    }
  }

  lemma BuryAt(s: Logical, head: Stamp, len: nat, anchor: Anchor, id: Stamp)
    ensures Get(BuryState(s, head, len, anchor), id) ==
            if Covers(head, len, id)
            then Some(BuryCell(Get(s, id), ChainAnchor(head, anchor, id.lamport - head.lamport))) else Get(s, id)
  {
    hide Segment, BuryCell, ChainAnchor;
    InSegment(head, len, id);
    GraveAt(s, head, len, anchor, id);
    assert BuryState(s, head, len, anchor) == s + Graves(s, head, len, anchor);
  }

  lemma GraveAt(s: Logical, head: Stamp, len: nat, anchor: Anchor, id: Stamp)
    ensures Get(Graves(s, head, len, anchor), id) ==
            if id in Segment(head, len) then Some(BuryCell(Get(s, id), ChainAnchor(head, anchor, Into(head, id))))
            else None
  {
    hide Segment, BuryCell, ChainAnchor;
  }

  lemma SameState(s: Logical, t: Logical)
    requires forall id :: Get(s, id) == Get(t, id)
    ensures s == t
  {
    forall id
      ensures id in s <==> id in t
      ensures id in s ==> s[id] == t[id]
    {
      assert Get(s, id) == Get(t, id);
    }
  }

  lemma BuryNone(s: Logical, head: Stamp, anchor: Anchor)
    ensures BuryState(s, head, 0, anchor) == s
  {
  }

  /** A stretch already deleted stays as it is. */
  lemma BurySkip(nodes: map<Stamp, Node>, dead: DeadMap, h: Stamp,
                 start: Logical, head: Stamp, i: nat, len: nat, anchor: Anchor)
    requires StateValid(nodes, dead) && i < len && Holds(dead, h, RunId(head, i))
    requires Abs(nodes, dead) == BuryState(start, head, i, anchor)
    ensures var j := i + dead[h].len - (head.lamport + i - h.lamport);
            Abs(nodes, dead) == BuryState(start, head, if j < len then j else len, anchor)
  {
    hide Tombs, Abs, BuryState;
    var j := i + dead[h].len - (head.lamport + i - h.lamport);
    var k := if j < len then j else len;
    forall id
      ensures Get(BuryState(start, head, i, anchor), id) == Get(BuryState(start, head, k, anchor), id)
    {
      BuryAt(start, head, i, anchor, id);
      BuryAt(start, head, k, anchor, id);
      if Covers(head, k, id) && !Covers(head, i, id) {
        TombAt(dead, h, id);
        AbsAt(nodes, dead, id);
      }
    }
    SameState(BuryState(start, head, i, anchor), BuryState(start, head, k, anchor));
  }

  /** A live id of the run is deleted where it sits. */
  lemma BuryOne(start: Logical, mid: Logical, head: Stamp, i: nat, anchor: Anchor)
    requires mid == BuryState(start, head, i, anchor)
    requires RunId(head, i) in mid && mid[RunId(head, i)].Live?
    ensures DeleteState(mid, RunId(head, i)) == BuryState(start, head, i + 1, anchor)
  {
    hide BuryState;
    var t := DeleteState(mid, RunId(head, i));
    forall id
      ensures Get(t, id) == Get(BuryState(start, head, i + 1, anchor), id)
    {
      BuryAt(start, head, i, anchor, id);
      BuryAt(start, head, i + 1, anchor, id);
      assert Covers(head, i + 1, id) <==> Covers(head, i, id) || id == RunId(head, i);
    }
    SameState(t, BuryState(start, head, i + 1, anchor));
  }

  /** A stretch never seen is adopted from the run's own chain in one record. */
  lemma BuryUnseen(nodes: map<Stamp, Node>, dead: DeadMap, dead': DeadMap,
                   start: Logical, head: Stamp, i: nat, n: nat, anchor: Anchor)
    requires StateValid(nodes, dead) && n > 0 && Canonical(dead')
    requires Abs(nodes, dead) == BuryState(start, head, i, anchor)
    requires forall x :: Covers(RunId(head, i), n, x) ==> x !in nodes && x !in Tombs(dead)
    requires Tombs(dead') == Tombs(dead) + Chain(RunId(head, i), n, ChainAnchor(head, anchor, i))
    ensures StateValid(nodes, dead')
    ensures Abs(nodes, dead') == BuryState(start, head, i + n, anchor)
  {
    hide Tombs, Abs, BuryState, Chain, Canonical;
    forall id
      ensures id in nodes ==> id !in Tombs(dead')
      ensures Get(Abs(nodes, dead'), id) == Get(BuryState(start, head, i + n, anchor), id)
    {
      BuryAt(start, head, i, anchor, id);
      BuryAt(start, head, i + n, anchor, id);
      AbsAt(nodes, dead, id);
      AbsAt(nodes, dead', id);
      ChainAt(RunId(head, i), n, ChainAnchor(head, anchor, i), id);
      assert Covers(head, i + n, id) <==> Covers(head, i, id) || Covers(RunId(head, i), n, id);
    }
    SameState(Abs(nodes, dead'), BuryState(start, head, i + n, anchor));
  }

  // ---- merging, record by record ----

  lemma NodeSet(nodes: map<Stamp, Node>, dead: DeadMap, id: Stamp, n: Node)
    requires StateValid(nodes, dead) && id !in Tombs(dead) && id.lamport < U64_LIMIT && ElementFits(n.value)
    ensures StateValid(nodes[id := n], dead)
    ensures Abs(nodes[id := n], dead) == Abs(nodes, dead)[id := Live(Claim(n.value, n.anchor), n.movedAway)]
  {
    hide Tombs, Canonical;
  }

  lemma NodeFits(nodes: map<Stamp, Node>, dead: DeadMap, id: Stamp)
    requires StateValid(nodes, dead) && id in nodes
    ensures id.lamport < U64_LIMIT && ElementFits(nodes[id].value)
  {
  }

  lemma RunFits(nodes: map<Stamp, Node>, dead: DeadMap, h: Stamp)
    requires StateValid(nodes, dead) && h in dead
    ensures h.lamport + dead[h].len <= U64_LIMIT
  {
  }

  lemma MergeAt(s: Logical, t: Logical, ids: set<Stamp>, id: Stamp)
    requires StateFit(s) && StateFit(t)
    ensures StateFit(Restrict(t, ids))
    ensures Get(MergeState(s, Restrict(t, ids)), id)
         == if id in t && id in ids then Some(MergeCell(Get(s, id), t[id])) else Get(s, id)
  {
    hide MergeCell;
  }

  lemma MergeNothing(s: Logical, t: Logical)
    requires StateFit(s) && StateFit(t)
    ensures StateFit(Restrict(t, {})) && MergeState(s, Restrict(t, {})) == s
  {
    hide MergeCell;
  }

  lemma MergeOneMore(s: Logical, t: Logical, done: set<Stamp>, id: Stamp)
    requires StateFit(s) && StateFit(t) && id in t && id !in done
    ensures StateFit(Restrict(t, done)) && StateFit(Restrict(t, done + {id}))
    ensures var m := MergeState(s, Restrict(t, done));
            Get(m, id) == Get(s, id)
            && m[id := MergeCell(Get(m, id), t[id])] == MergeState(s, Restrict(t, done + {id}))
  {
    hide MergeCell, MergeState;
    var m := MergeState(s, Restrict(t, done));
    MergeAt(s, t, done, id);
    MergeAt(s, t, done + {id}, id);
    forall x
      ensures Get(m[id := MergeCell(Get(s, id), t[id])], x) == Get(MergeState(s, Restrict(t, done + {id})), x)
    {
      MergeAt(s, t, done, x);
      MergeAt(s, t, done + {id}, x);
    }
    SameState(m[id := MergeCell(Get(s, id), t[id])], MergeState(s, Restrict(t, done + {id})));
  }

  /** The ids the runs at `heads` cover. */
  ghost function Covered(dead: DeadMap, heads: set<Stamp>): set<Stamp> {
    set id | id in Tombs(dead) && exists h :: h in heads && Holds(dead, h, id)
  }

  lemma CoveredMore(nodes: map<Stamp, Node>, dead: DeadMap, heads: set<Stamp>, h: Stamp)
    requires StateValid(nodes, dead) && h in heads && heads <= dead.Keys
    ensures Covered(dead, dead.Keys - (heads - {h})) == Covered(dead, dead.Keys - heads) + Segment(h, dead[h].len)
  {
    hide Tombs;
    forall id
      ensures id in Covered(dead, dead.Keys - (heads - {h}))
         <==> id in Covered(dead, dead.Keys - heads) || id in Segment(h, dead[h].len)
    {
      InSegment(h, dead[h].len, id);
      if Covers(h, dead[h].len, id) {
        TombAt(dead, h, id);
        assert Holds(dead, h, id);
      }
    }
  }

  /** The part of a peer's state folded once its nodes and all runs but those at `heads`
      are in. */
  ghost function Folded(onodes: map<Stamp, Node>, odead: DeadMap, heads: set<Stamp>): Logical {
    Restrict(Abs(onodes, odead), onodes.Keys + Covered(odead, odead.Keys - heads))
  }

  lemma FoldedNodes(onodes: map<Stamp, Node>, odead: DeadMap)
    ensures Folded(onodes, odead, odead.Keys) == Restrict(Abs(onodes, odead), onodes.Keys)
  {
    hide Tombs, Abs;
  }

  lemma MergeRunMore(s: Logical, onodes: map<Stamp, Node>, odead: DeadMap, heads: set<Stamp>, h: Stamp)
    requires StateFit(s) && StateValid(onodes, odead) && StateFit(Abs(onodes, odead)) && heads <= odead.Keys
    requires h in heads
    ensures StateFit(Folded(onodes, odead, heads)) && StateFit(Folded(onodes, odead, heads - {h}))
    ensures BuryState(MergeState(s, Folded(onodes, odead, heads)), h, odead[h].len, odead[h].anchor)
         == MergeState(s, Folded(onodes, odead, heads - {h}))
  {
    hide Tombs, Abs, MergeState, BuryState, Covered, StateFit, Segment, StateValid;
    CoveredMore(onodes, odead, heads, h);
    var t := Abs(onodes, odead);
    var done := onodes.Keys + Covered(odead, odead.Keys - heads);
    var done' := done + Segment(h, odead[h].len);
    MergeAt(s, t, done, h);
    MergeAt(s, t, done', h);
    assert onodes.Keys + Covered(odead, odead.Keys - (heads - {h})) == done';
    var m := MergeState(s, Restrict(t, done));
    forall id
      ensures Get(BuryState(m, h, odead[h].len, odead[h].anchor), id) == Get(MergeState(s, Restrict(t, done')), id)
    {
      MergeAt(s, t, done, id);
      MergeAt(s, t, done', id);
      BuryAt(m, h, odead[h].len, odead[h].anchor, id);
      InSegment(h, odead[h].len, id);
      if Covers(h, odead[h].len, id) {
        NotCoveredYet(onodes, odead, heads, h, id);
      }
    }
    SameState(BuryState(m, h, odead[h].len, odead[h].anchor), MergeState(s, Restrict(t, done')));
  }

  lemma NotCoveredYet(onodes: map<Stamp, Node>, odead: DeadMap, heads: set<Stamp>, h: Stamp, id: Stamp)
    requires StateValid(onodes, odead) && heads <= odead.Keys && h in heads && Holds(odead, h, id)
    ensures id !in onodes && id !in Covered(odead, odead.Keys - heads) && id in Abs(onodes, odead)
    ensures Abs(onodes, odead)[id] == Dead(ChainAnchor(h, odead[h].anchor, id.lamport - h.lamport))
  {
    hide Tombs, Abs;
    AbsAt(onodes, odead, id);
    TombAt(odead, h, id);
    OneHolder(odead, id);
  }

  lemma FoldedAll(onodes: map<Stamp, Node>, odead: DeadMap)
    requires StateValid(onodes, odead)
    ensures Folded(onodes, odead, {}) == Abs(onodes, odead)
  {
    hide Tombs;
    forall id | id in Tombs(odead)
      ensures id in Covered(odead, odead.Keys - {})
    {
      var h := TombFrom(odead, id);
    }
  }
}
