/** Convergence of the sequence: what a set of inserts and deletes leaves behind, and
    exactly when that does not depend on the order they arrive in. */
module Convergence {
  import opened Stamps
  import opened Bytes
  import opened Codec
  import opened Runs
  import opened Lists

  datatype Op = Insert(id: Stamp, claim: Claim) | Delete(id: Stamp)

  predicate OpFits(op: Op) {
    op.Insert? ==> ElementFits(op.claim.value) && op.id.lamport < U64_LIMIT
  }

  ghost predicate AllFit(ops: seq<Op>) {
    forall i :: 0 <= i < |ops| ==> OpFits(ops[i])
  }

  function Apply(s: Logical, op: Op): Logical
    requires OpFits(op) && (op.id in s ==> CellFits(s[op.id]))
  {
    match op
    case Insert(id, claim) => InsertState(s, id, claim)
    case Delete(id) => DeleteState(s, id)
  }

  /** The state a delivery order leaves. */
  function Fold(ops: seq<Op>): (s: Logical)
    requires AllFit(ops)
    ensures StateFit(s)
  {
    if ops == [] then map[] else Apply(Fold(ops[..|ops| - 1]), ops[|ops| - 1])
  }

  /** Readiness holds a delete back until the id it names has arrived. */
  ghost predicate Causal(ops: seq<Op>) {
    forall j :: 0 <= j < |ops| && ops[j].Delete? ==>
      exists i :: 0 <= i < j && ops[i].Insert? && ops[i].id == ops[j].id
  }

  ghost function OpSet(ops: seq<Op>): set<Op> {
    set i | 0 <= i < |ops| :: ops[i]
  }

  ghost function Claims(ops: set<Op>, id: Stamp): set<Claim> {
    set op | op in ops && op.Insert? && op.id == id :: op.claim
  }

  ghost predicate Deleted(ops: set<Op>, id: Stamp) {
    Delete(id) in ops
  }

  // ---- the least claim and the least position ----

  ghost predicate ClaimsFit(cs: set<Claim>) {
    forall c :: c in cs ==> ElementFits(c.value)
  }

  ghost predicate LeastClaim(cs: set<Claim>, c: Claim)
    requires ClaimsFit(cs)
  {
    c in cs && forall d :: d in cs ==> d == c || ClaimLess(c, d)
  }

  ghost predicate LeastPlaced(cs: set<Claim>, c: Claim) {
    c in cs && forall d :: d in cs ==> !AnchorLess(d.anchor, c.anchor)
  }

  /** The claim that wins the id also names its least position. */
  ghost predicate Leads(cs: set<Claim>)
    requires ClaimsFit(cs)
  {
    exists c :: LeastClaim(cs, c) && LeastPlaced(cs, c)
  }

  lemma {:induction false} HasLeastClaim(cs: set<Claim>) returns (c: Claim)
    requires ClaimsFit(cs) && cs != {}
    ensures LeastClaim(cs, c)
    decreases |cs|
  {
    hide ClaimLess;
    var x :| x in cs;
    if cs == {x} {
      c := x;
    } else {
      var y := HasLeastClaim(cs - {x});
      ClaimTotal(x, y);
      if ClaimLess(x, y) {
        c := x;
        forall d | d in cs
          ensures d == c || ClaimLess(c, d)
        {
          if d != x && d != y {
            ClaimTransitive(x, y, d);
          }
        }
      } else {
        c := y;
      }
    }
  }

  lemma {:induction false} HasLeastPlaced(cs: set<Claim>) returns (c: Claim)
    requires cs != {}
    ensures LeastPlaced(cs, c)
    decreases |cs|
  {
    var x :| x in cs;
    if cs == {x} {
      c := x;
    } else {
      var y := HasLeastPlaced(cs - {x});
      c := if AnchorLess(x.anchor, y.anchor) then x else y;
    }
  }

  // ---- what one id ends at ----

  /** The position a tombstone keeps: some claim named it, and it is at or below what
      the delete buried and everything that came after. */
  ghost predicate Buried(cs: set<Claim>, a: Anchor)
    requires ClaimsFit(cs)
  {
    && (exists c :: c in cs && c.anchor == a)
    && (exists c :: c in cs && Floors(cs, a, c))
  }

  ghost predicate Floors(cs: set<Claim>, a: Anchor, c: Claim)
    requires ClaimsFit(cs) && c in cs
  {
    && !AnchorLess(c.anchor, a)
    && forall d :: d in cs ==> d == c || ClaimLess(c, d) || !AnchorLess(d.anchor, a)
  }

  ghost predicate CellExplained(cs: set<Claim>, deleted: bool, cell: Option<Cell>)
    requires ClaimsFit(cs)
  {
    match cell
    case None => cs == {}
    case Some(Live(c, away)) => !deleted && !away && LeastClaim(cs, c)
    case Some(Dead(a)) => deleted && Buried(cs, a)
  }

  lemma ClaimsOfFit(ops: seq<Op>, id: Stamp)
    requires AllFit(ops)
    ensures ClaimsFit(Claims(OpSet(ops), id))
  {
  }

  lemma InsertExplained(cs: set<Claim>, deleted: bool, cell: Option<Cell>, claim: Claim)
    requires ClaimsFit(cs) && ElementFits(claim.value) && (cell.Some? ==> CellFits(cell.value))
    requires CellExplained(cs, deleted, cell) && (deleted ==> cell.Some?)
    ensures CellExplained(cs + {claim}, deleted, Some(InsertCell(cell, claim)))
  {
    hide ClaimLess;
    var cs' := cs + {claim};
    match cell {
      case None =>
        assert LeastClaim(cs', claim);
      case Some(Live(c, away)) =>
        ClaimTotal(claim, c);
        if ClaimLess(claim, c) {
          forall d | d in cs && d != c ensures ClaimLess(claim, d) {
            ClaimTransitive(claim, c, d);
          }
        }
      case Some(Dead(a)) =>
        var b := if AnchorLess(claim.anchor, a) then claim.anchor else a;
        var c :| c in cs && Floors(cs, a, c);
        assert Floors(cs', b, c);
    }
  }

  lemma DeleteExplained(cs: set<Claim>, deleted: bool, cell: Cell)
    requires ClaimsFit(cs) && CellExplained(cs, deleted, Some(cell))
    ensures CellExplained(cs, true, Some(Dead(CellAnchor(cell))))
  {
    hide ClaimLess;
    if cell.Live? {
      assert Floors(cs, cell.claim.anchor, cell.claim);
    }
  }

  /** Every causal order leaves each id at its least claim, or at a buried position. */
  lemma {:induction false} FoldExplained(ops: seq<Op>, id: Stamp)
    requires AllFit(ops) && Causal(ops)
    ensures ClaimsFit(Claims(OpSet(ops), id))
    ensures CellExplained(Claims(OpSet(ops), id), Deleted(OpSet(ops), id), Get(Fold(ops), id))
  {
    hide ClaimLess, CellExplained;
    ClaimsOfFit(ops, id);
    if ops == [] {
      EmptyExplained(id);
    } else {
      var init, last := ops[..|ops| - 1], ops[|ops| - 1];
      FoldExplained(init, id);
      PrefixSet(ops);
      ClaimsSplit(OpSet(init), last, id);
      if last.id == id {
        if last.Insert? {
          NotDeletedFirst(init, id);
          InsertExplained(Claims(OpSet(init), id), Deleted(OpSet(init), id), Get(Fold(init), id), last.claim);
        } else {
          SomeClaim(ops, id);
          DeletePresent(Claims(OpSet(init), id), Deleted(OpSet(init), id), Get(Fold(init), id));
        }
      }
    }
  }

  lemma EmptyExplained(id: Stamp)
    ensures CellExplained(Claims(OpSet([]), id), Deleted(OpSet([]), id), None)
  {
  }

  lemma PrefixSet(ops: seq<Op>)
    requires ops != []
    ensures OpSet(ops) == OpSet(ops[..|ops| - 1]) + {ops[|ops| - 1]}
  {
    var init := ops[..|ops| - 1];
    forall op | op in OpSet(ops)
      ensures op in OpSet(init) + {ops[|ops| - 1]}
    {
      var i :| 0 <= i < |ops| && ops[i] == op;
      if i < |init| {
        assert init[i] == op;
      }
    }
    forall op | op in OpSet(init)
      ensures op in OpSet(ops)
    {
      var i :| 0 <= i < |init| && init[i] == op;
      assert ops[i] == op;
    }
  }

  lemma ClaimsSplit(ops: set<Op>, op: Op, id: Stamp)
    ensures op.id != id ==> Claims(ops + {op}, id) == Claims(ops, id)
    ensures op.Delete? ==> Claims(ops + {op}, id) == Claims(ops, id)
    ensures op.Insert? && op.id == id ==> Claims(ops + {op}, id) == Claims(ops, id) + {op.claim}
    ensures Deleted(ops + {op}, id) <==> Deleted(ops, id) || op == Delete(id)
  {
    forall c
      ensures c in Claims(ops, id) <==> Insert(id, c) in ops
      ensures c in Claims(ops + {op}, id) <==> Insert(id, c) in ops || op == Insert(id, c)
    {
    }
  }

  /** A deleted id has been claimed, so it holds something. */
  lemma NotDeletedFirst(ops: seq<Op>, id: Stamp)
    requires AllFit(ops) && Causal(ops)
    requires ClaimsFit(Claims(OpSet(ops), id))
    requires CellExplained(Claims(OpSet(ops), id), Deleted(OpSet(ops), id), Get(Fold(ops), id))
    ensures Deleted(OpSet(ops), id) ==> Get(Fold(ops), id).Some?
  {
    if Deleted(OpSet(ops), id) {
      var j :| 0 <= j < |ops| && ops[j] == Delete(id);
      var i :| 0 <= i < j && ops[i].Insert? && ops[i].id == ops[j].id;
      assert ops[i] in OpSet(ops);
      assert ops[i].claim in Claims(OpSet(ops), id);
    }
  }

  lemma SomeClaim(ops: seq<Op>, id: Stamp)
    requires Causal(ops) && ops != [] && ops[|ops| - 1] == Delete(id)
    ensures Claims(OpSet(ops[..|ops| - 1]), id) != {}
  {
    var j := |ops| - 1;
    var i :| 0 <= i < j && ops[i].Insert? && ops[i].id == ops[j].id;
    assert ops[..j][i] in OpSet(ops[..j]);
    assert ops[i].claim in Claims(OpSet(ops[..j]), id);
  }

  lemma DeletePresent(cs: set<Claim>, deleted: bool, cell: Option<Cell>)
    requires ClaimsFit(cs) && CellExplained(cs, deleted, cell) && cs != {}
    ensures cell.Some? && CellExplained(cs, true, Some(Dead(CellAnchor(cell.value))))
  {
    DeleteExplained(cs, deleted, cell.value);
  }

  // ---- order independence ----

  lemma LeastUnique(cs: set<Claim>, c: Claim, d: Claim)
    requires ClaimsFit(cs) && LeastClaim(cs, c) && LeastClaim(cs, d)
    ensures c == d
  {
    hide ClaimLess;
    ClaimTotal(c, d);
  }

  lemma BuriedAtLead(cs: set<Claim>, a: Anchor, w: Claim)
    requires ClaimsFit(cs) && Buried(cs, a) && LeastClaim(cs, w) && LeastPlaced(cs, w)
    ensures a == w.anchor
  {
    hide ClaimLess;
    var c :| c in cs && Floors(cs, a, c);
    ClaimTotal(c, w);
    var d :| d in cs && d.anchor == a;
  }

  /** What one id ends at is a function of the claims on it and whether it was deleted. */
  lemma CellDetermined(cs: set<Claim>, deleted: bool, x: Option<Cell>, y: Option<Cell>)
    requires ClaimsFit(cs) && CellExplained(cs, deleted, x) && CellExplained(cs, deleted, y)
    requires deleted ==> Leads(cs)
    ensures x == y
  {
    hide ClaimLess, Buried;
    if deleted {
      var w :| LeastClaim(cs, w) && LeastPlaced(cs, w);
      if x.Some? && y.Some? {
        BuriedAtLead(cs, x.value.anchor, w);
        BuriedAtLead(cs, y.value.anchor, w);
      }
    } else if x.Some? && y.Some? {
      LeastUnique(cs, x.value.claim, y.value.claim);
    }
  }

  ghost predicate OpsFit(ops: set<Op>) {
    forall op :: op in ops ==> OpFits(op)
  }

  lemma SetClaimsFit(ops: set<Op>, id: Stamp)
    requires OpsFit(ops)
    ensures ClaimsFit(Claims(ops, id))
  {
  }

  ghost predicate LeadsAt(ops: set<Op>, id: Stamp)
    requires OpsFit(ops)
  {
    SetClaimsFit(ops, id); Leads(Claims(ops, id))
  }

  /** For every deleted id, the winning claim also names the least position. */
  ghost predicate AllLead(ops: set<Op>)
    requires OpsFit(ops)
  {
    forall id :: Deleted(ops, id) ==> LeadsAt(ops, id)
  }

  ghost predicate Delivers(ops: set<Op>, order: seq<Op>) {
    OpSet(order) == ops && Causal(order)
  }

  lemma DeliveryFits(ops: set<Op>, order: seq<Op>)
    requires OpsFit(ops) && Delivers(ops, order)
    ensures AllFit(order)
  {
    forall i | 0 <= i < |order| ensures OpFits(order[i]) {
      assert order[i] in OpSet(order);
    }
  }

  /** Two deliveries of one op set leave one state. */
  lemma OrderIndependent(ops: set<Op>, p: seq<Op>, q: seq<Op>)
    requires OpsFit(ops) && AllLead(ops) && Delivers(ops, p) && Delivers(ops, q)
    ensures AllFit(p) && AllFit(q) && Fold(p) == Fold(q)
  {
    hide CellExplained, Leads, Fold, Causal;
    DeliveryFits(ops, p);
    DeliveryFits(ops, q);
    forall id
      ensures Get(Fold(p), id) == Get(Fold(q), id)
    {
      FoldExplained(p, id);
      FoldExplained(q, id);
      CellDetermined(Claims(ops, id), Deleted(ops, id), Get(Fold(p), id), Get(Fold(q), id));
    }
    SameState(Fold(p), Fold(q));
  }

  // ---- and only then ----

  lemma {:induction false} Enumerate(ops: set<Op>) returns (order: seq<Op>)
    ensures OpSet(order) == ops
    decreases |ops|
  {
    if ops == {} {
      order := [];
    } else {
      var op :| op in ops;
      var rest := Enumerate(ops - {op});
      order := rest + [op];
      PrefixSet(order);
      assert order[..|order| - 1] == rest;
    }
  }

  lemma {:induction false} ConcatSet(p: seq<Op>, q: seq<Op>)
    ensures OpSet(p + q) == OpSet(p) + OpSet(q)
    decreases |q|
  {
    if q == [] {
      assert p + q == p;
    } else {
      var init := q[..|q| - 1];
      ConcatSet(p, init);
      PrefixSet(q);
      PrefixSet(p + q);
      assert (p + q)[..|p + q| - 1] == p + init;
    }
  }

  lemma FoldSnoc(p: seq<Op>, op: Op)
    requires AllFit(p) && OpFits(op)
    ensures AllFit(p + [op]) && Fold(p + [op]) == Apply(Fold(p), op)
  {
    assert (p + [op])[..|p|] == p;
  }

  /** Deletes after the fact bury the position the live claim holds. */
  lemma {:induction false} DeleteTail(p: seq<Op>, d: seq<Op>, id: Stamp, c: Claim)
    requires AllFit(p) && forall i :: 0 <= i < |d| ==> d[i].Delete?
    requires id in Fold(p) && Fold(p)[id] == Live(c, false)
    ensures AllFit(p + d)
    ensures Get(Fold(p + d), id) == Some(if Delete(id) in d then Dead(c.anchor) else Live(c, false))
    decreases |d|
  {
    hide ClaimLess;
    if d == [] {
      assert p + d == p;
    } else {
      var init, last := d[..|d| - 1], d[|d| - 1];
      DeleteTail(p, init, id, c);
      FoldSnoc(p + init, last);
      assert p + d == p + init + [last];
      assert d == init + [last];
    }
  }

  /** A tombstone no later claim undercuts stays where it is. */
  lemma {:induction false} DeadTail(p: seq<Op>, r: seq<Op>, id: Stamp, a: Anchor)
    requires AllFit(p) && AllFit(r) && id in Fold(p) && Fold(p)[id] == Dead(a)
    requires forall i :: 0 <= i < |r| && r[i].Insert? && r[i].id == id ==> !AnchorLess(r[i].claim.anchor, a)
    ensures AllFit(p + r)
    ensures Get(Fold(p + r), id) == Some(Dead(a))
    decreases |r|
  {
    hide ClaimLess;
    if r == [] {
      assert p + r == p;
    } else {
      var init, last := r[..|r| - 1], r[|r| - 1];
      DeadTail(p, init, id, a);
      FoldSnoc(p + init, last);
      assert p + r == p + init + [last];
    }
  }

  /** Every deleted id has a claim, so some causal order delivers the set. */
  ghost predicate Deliverable(ops: set<Op>) {
    forall id :: Deleted(ops, id) ==> Claims(ops, id) != {}
  }

  ghost function Inserts(ops: set<Op>): set<Op> {
    set op | op in ops && op.Insert?
  }

  lemma InsertsFirst(ops: set<Op>, pre: seq<Op>, i: seq<Op>, d: seq<Op>)
    requires Deliverable(ops) && Causal(pre)
    requires OpSet(pre) + OpSet(i) + OpSet(d) == ops && Inserts(ops) <= OpSet(pre) + OpSet(i)
    requires forall k :: 0 <= k < |i| ==> i[k].Insert?
    ensures Delivers(ops, pre + i + d)
  {
    ConcatSet(pre, i);
    ConcatSet(pre + i, d);
    var all := pre + i + d;
    forall j | 0 <= j < |all| && all[j].Delete?
      ensures exists k :: 0 <= k < j && all[k].Insert? && all[k].id == all[j].id
    {
      if j < |pre| {
        var k :| 0 <= k < j && pre[k].Insert? && pre[k].id == pre[j].id;
        assert all[k] == pre[k];
      } else {
        assert all[j] in OpSet(all) && all[j] == Delete(all[j].id);
        assert Deleted(ops, all[j].id);
        var c :| c in Claims(ops, all[j].id);
        assert Insert(all[j].id, c) in OpSet(pre + i);
        var k :| 0 <= k < |pre + i| && (pre + i)[k] == Insert(all[j].id, c);
        assert all[k] == (pre + i)[k];
      }
    }
  }

  /** Delivered inserts first, a deleted id ends where its winning claim put it. */
  lemma WinnerBuried(ops: set<Op>, id: Stamp, w: Claim) returns (p: seq<Op>)
    requires OpsFit(ops) && Deliverable(ops) && Deleted(ops, id)
    requires ClaimsFit(Claims(ops, id)) && LeastClaim(Claims(ops, id), w)
    ensures Delivers(ops, p) && AllFit(p) && Get(Fold(p), id) == Some(Dead(w.anchor))
  {
    hide ClaimLess, Fold, CellExplained;
    var i := Enumerate(Inserts(ops));
    var d := Enumerate(ops - Inserts(ops));
    forall k | 0 <= k < |i| ensures i[k].Insert? && i[k] in ops { assert i[k] in OpSet(i); }
    forall k | 0 <= k < |d| ensures d[k].Delete? { assert d[k] in OpSet(d); }
    InsertsFirst(ops, [], i, d);
    p := i + d;
    assert [] + i + d == p;
    DeliveryFits(ops, p);
    FoldExplained(i, id);
    assert Claims(OpSet(i), id) == Claims(ops, id);
    LiveAtWinner(Claims(ops, id), Get(Fold(i), id), w);
    assert Delete(id) in OpSet(d);
    DeleteTail(i, d, id, w);
  }

  lemma LiveAtWinner(cs: set<Claim>, cell: Option<Cell>, w: Claim)
    requires ClaimsFit(cs) && CellExplained(cs, false, cell) && LeastClaim(cs, w)
    ensures cell == Some(Live(w, false))
  {
    LeastUnique(cs, cell.value.claim, w);
  }

  /** Deleted as soon as its least-placed claim arrives, an id ends at that position. */
  lemma LeastBuried(ops: set<Op>, id: Stamp, w: Claim) returns (q: seq<Op>)
    requires OpsFit(ops) && Deliverable(ops) && Deleted(ops, id)
    requires LeastPlaced(Claims(ops, id), w)
    ensures Delivers(ops, q) && AllFit(q) && Get(Fold(q), id) == Some(Dead(w.anchor))
  {
    hide ClaimLess, AnchorLess, Fold, LeastPlaced;
    var first := Insert(id, w);
    assert first in ops by { PlacedAmong(ops, id, w); }
    var i := Enumerate(Inserts(ops) - {first});
    var d := Enumerate(ops - Inserts(ops) - {Delete(id)});
    forall k | 0 <= k < |i| ensures i[k].Insert? && i[k] in ops { assert i[k] in OpSet(i); }
    forall k | 0 <= k < |d| ensures d[k].Delete? { assert d[k] in OpSet(d); }
    var pre := [first, Delete(id)];
    PairSet(first, Delete(id));
    assert Causal(pre) by { assert pre[0].Insert?; }
    InsertsFirst(ops, pre, i, d);
    q := pre + i + d;
    DeliveryFits(ops, q);
    InsertedThenDeleted(id, w);
    UndercutFree(ops, id, w, i + d);
    assert q == pre + (i + d);
    DeadTail(pre, i + d, id, w.anchor);
  }

  lemma PlacedAmong(ops: set<Op>, id: Stamp, w: Claim)
    requires LeastPlaced(Claims(ops, id), w)
    ensures Insert(id, w) in ops
  {
  }

  lemma PairSet(a: Op, b: Op)
    ensures OpSet([a, b]) == {a, b}
  {
    PrefixSet([a, b]);
    PrefixSet([a]);
    assert [a, b][..1] == [a] && [a][..0] == [];
  }

  lemma InsertedThenDeleted(id: Stamp, w: Claim)
    requires AllFit([Insert(id, w), Delete(id)])
    ensures Get(Fold([Insert(id, w), Delete(id)]), id) == Some(Dead(w.anchor))
  {
    assert OpFits([Insert(id, w), Delete(id)][0]);
    FoldSnoc([], Insert(id, w));
    FoldSnoc([Insert(id, w)], Delete(id));
    assert [] + [Insert(id, w)] == [Insert(id, w)] && [Insert(id, w)] + [Delete(id)] == [Insert(id, w), Delete(id)];
  }

  lemma UndercutFree(ops: set<Op>, id: Stamp, w: Claim, r: seq<Op>)
    requires LeastPlaced(Claims(ops, id), w)
    requires forall k :: 0 <= k < |r| && r[k].Insert? ==> r[k] in ops
    ensures forall k :: 0 <= k < |r| && r[k].Insert? && r[k].id == id ==> !AnchorLess(r[k].claim.anchor, w.anchor)
  {
    forall k | 0 <= k < |r| && r[k].Insert? && r[k].id == id
      ensures !AnchorLess(r[k].claim.anchor, w.anchor)
    {
      assert r[k].claim in Claims(ops, id);
    }
  }

  /** A deleted id whose winning claim is not its least-placed one has two causal orders
      that leave two states. */
  lemma OrderMatters(ops: set<Op>, id: Stamp) returns (p: seq<Op>, q: seq<Op>)
    requires OpsFit(ops) && Deliverable(ops) && Deleted(ops, id)
    requires ClaimsFit(Claims(ops, id)) && !Leads(Claims(ops, id))
    ensures Delivers(ops, p) && Delivers(ops, q) && AllFit(p) && AllFit(q) && Fold(p) != Fold(q)
  {
    hide ClaimLess, Fold;
    var w := HasLeastClaim(Claims(ops, id));
    var l := HasLeastPlaced(Claims(ops, id));
    p := WinnerBuried(ops, id, w);
    q := LeastBuried(ops, id, l);
    if w.anchor == l.anchor {
      MeetLeads(Claims(ops, id), w, l);
      assert false;
    }
  }

  lemma MeetLeads(cs: set<Claim>, w: Claim, l: Claim)
    requires ClaimsFit(cs) && LeastClaim(cs, w) && LeastPlaced(cs, l) && w.anchor == l.anchor
    ensures Leads(cs)
  {
    assert LeastPlaced(cs, w);
  }

  ghost predicate OneOutcome(ops: set<Op>)
    requires OpsFit(ops)
  {
    forall p, q :: Delivers(ops, p) && Delivers(ops, q) ==> SameOutcome(ops, p, q)
  }

  ghost predicate SameOutcome(ops: set<Op>, p: seq<Op>, q: seq<Op>)
    requires OpsFit(ops) && Delivers(ops, p) && Delivers(ops, q)
  {
    DeliveryFits(ops, p); DeliveryFits(ops, q); Fold(p) == Fold(q)
  }

  /** A deliverable op set converges exactly when each deleted id's winning claim also
      names its least position. */
  lemma ConvergesIff(ops: set<Op>)
    requires OpsFit(ops) && Deliverable(ops)
    ensures OneOutcome(ops) <==> AllLead(ops)
  {
    hide Fold, Delivers;
    if AllLead(ops) {
      forall p, q | Delivers(ops, p) && Delivers(ops, q)
        ensures SameOutcome(ops, p, q)
      {
        OrderIndependent(ops, p, q);
      }
    } else {
      var id :| Deleted(ops, id) && !LeadsAt(ops, id);
      SetClaimsFit(ops, id);
      var p, q := OrderMatters(ops, id);
    }
  }

  // ---- plain lists ----

  ghost predicate AllScalar(ops: set<Op>) {
    forall op :: op in ops && op.Insert? ==> op.claim.value.Leaf?
  }

  lemma ScalarsLead(cs: set<Claim>)
    requires ClaimsFit(cs) && cs != {} && forall c :: c in cs ==> c.value.Leaf?
    ensures Leads(cs)
  {
    var w := HasLeastClaim(cs);
    assert LeastPlaced(cs, w);
  }

  /** A plain list, holding only scalars, converges whatever is deleted. */
  lemma ScalarsConverge(ops: set<Op>)
    requires OpsFit(ops) && Deliverable(ops) && AllScalar(ops)
    ensures OneOutcome(ops)
  {
    hide OneOutcome;
    forall id | Deleted(ops, id)
      ensures LeadsAt(ops, id)
    {
      SetClaimsFit(ops, id);
      ScalarsLead(Claims(ops, id));
    }
    ConvergesIff(ops);
  }

  /** Replicas that folded one op set in any two orders store the same nodes and the same
      run records. */
  lemma SameRecords(ops: set<Op>, p: seq<Op>, q: seq<Op>,
                    nodes: map<Stamp, Node>, dead: DeadMap, nodes': map<Stamp, Node>, dead': DeadMap)
    requires OpsFit(ops) && AllLead(ops) && Delivers(ops, p) && Delivers(ops, q) && AllFit(p) && AllFit(q)
    requires StateValid(nodes, dead) && Abs(nodes, dead) == Fold(p)
    requires StateValid(nodes', dead') && Abs(nodes', dead') == Fold(q)
    ensures nodes == nodes' && dead == dead'
  {
    hide StateValid, Abs, Fold, AllLead, Delivers;
    OrderIndependent(ops, p, q);
    AbsUnique(nodes, dead, nodes', dead');
  }

  /** A scalar at a far position, a composite at a near one, and a delete of the id they
      share: which of the two the delete buries is the arrival order's choice. */
  lemma MixedKindsDiverge()
    ensures var id := Stamp(5, 1, 0);
            var scalar := Claim(Leaf(Null), Anchor(Some(Stamp(3, 1, 0)), Right));
            var composite := Claim(Composite(2, 0), Anchor(None, Right));
            var ops := {Insert(id, scalar), Insert(id, composite), Delete(id)};
            OpsFit(ops) && Deliverable(ops) && !OneOutcome(ops)
  {
    hide OneOutcome;
    var id := Stamp(5, 1, 0);
    var scalar := Claim(Leaf(Null), Anchor(Some(Stamp(3, 1, 0)), Right));
    var composite := Claim(Composite(2, 0), Anchor(None, Right));
    var ops := {Insert(id, scalar), Insert(id, composite), Delete(id)};
    var cs := Claims(ops, id);
    assert scalar in cs by { assert Insert(id, scalar) in ops; }
    assert composite in cs by { assert Insert(id, composite) in ops; }
    assert cs <= {scalar, composite};
    assert !Leads(cs);
    assert Deleted(ops, id);
    ConvergesIff(ops);
  }

  /** Replay a delivery order into a stored list. */
  method Replay(order: seq<Op>) returns (list: List)
    requires AllFit(order)
    ensures fresh(list) && list.Valid() && list.State() == Fold(order)
  {
    hide StateValid, Abs, InsertState, DeleteState;
    list := new List();
    var k := 0;
    while k < |order|
      invariant 0 <= k <= |order| && fresh(list)
      invariant list.Valid() && list.State() == Fold(order[..k])
    {
      FoldSnoc(order[..k], order[k]);
      assert order[..k + 1] == order[..k] + [order[k]];
      match order[k] {
        case Insert(id, claim) => list.InsertAt(id, claim);
        case Delete(id) => list.DeleteId(id);
      }
      k := k + 1;
    }
    assert order[..k] == order;
  }

  // ---- merging ----

  ghost predicate Plain(s: Logical) {
    StateFit(s) && forall id :: id in s && s[id].Live? ==> !s[id].away
  }

  /** An id either replica deleted sits at one position on both. */
  ghost predicate Agree(s: Logical, t: Logical) {
    forall id :: id in s && id in t && (s[id].Dead? || t[id].Dead?) ==> CellAnchor(s[id]) == CellAnchor(t[id])
  }

  lemma MergeGet(s: Logical, t: Logical, id: Stamp)
    requires StateFit(s) && StateFit(t)
    ensures Get(MergeState(s, t), id) == if id in t then Some(MergeCell(Get(s, id), t[id])) else Get(s, id)
  {
    hide MergeCell;
  }

  lemma CellsCommute(x: Cell, y: Cell)
    requires CellFits(x) && CellFits(y) && (x.Live? ==> !x.away) && (y.Live? ==> !y.away)
    ensures MergeCell(Some(x), y) == MergeCell(Some(y), x)
       <==> (x.Dead? || y.Dead? ==> CellAnchor(x) == CellAnchor(y))
  {
    hide ClaimLess;
    if x.Live? && y.Live? {
      ClaimTotal(x.claim, y.claim);
    }
  }

  /** Which replica receives decides a merge exactly when the two hold a deleted id at
      two positions. */
  lemma MergeCommutesIff(s: Logical, t: Logical)
    requires Plain(s) && Plain(t)
    ensures MergeState(s, t) == MergeState(t, s) <==> Agree(s, t)
  {
    hide MergeState, MergeCell, StateFit;
    assert StateFit(s) && StateFit(t);
    if Agree(s, t) {
      forall id
        ensures Get(MergeState(s, t), id) == Get(MergeState(t, s), id)
      {
        MergeGet(s, t, id);
        MergeGet(t, s, id);
        if id in s && id in t {
          CellsFit(s, t, id);
          CellsCommute(s[id], t[id]);
        } else if id in t {
          MergeAlone(s, t, id);
        } else if id in s {
          MergeAlone(t, s, id);
        }
      }
      SameState(MergeState(s, t), MergeState(t, s));
    } else {
      var id :| id in s && id in t && (s[id].Dead? || t[id].Dead?) && CellAnchor(s[id]) != CellAnchor(t[id]);
      MergeGet(s, t, id);
      MergeGet(t, s, id);
      CellsFit(s, t, id);
      CellsCommute(s[id], t[id]);
    }
  }

  /** Two plain lists that took one id at two positions before deleting it: merged either way
      round, each keeps its own position. */
  lemma DeletedApart(id: Stamp, a: Anchor, b: Anchor)
    requires id.lamport < U64_LIMIT && a != b
    ensures var p, q := [Insert(id, Claim(Leaf(Null), a)), Delete(id)], [Insert(id, Claim(Leaf(Null), b)), Delete(id)];
            && AllFit(p) && AllFit(q) && Causal(p) && Causal(q) && Plain(Fold(p)) && Plain(Fold(q))
            && Fold(p) == map[id := Dead(a)] && Fold(q) == map[id := Dead(b)]
            && MergeState(Fold(p), Fold(q)) != MergeState(Fold(q), Fold(p))
  {
    hide MergeState, Fold, Plain, AllFit, Causal;
    BuriedThere(id, a);
    BuriedThere(id, b);
    var s: Logical, t: Logical := map[id := Dead(a)], map[id := Dead(b)];
    assert id in s && id in t && CellAnchor(s[id]) != CellAnchor(t[id]);
    assert !Agree(s, t);
    MergeCommutesIff(s, t);
  }

  lemma BuriedThere(id: Stamp, a: Anchor)
    requires id.lamport < U64_LIMIT
    ensures var p := [Insert(id, Claim(Leaf(Null), a)), Delete(id)];
            AllFit(p) && Causal(p) && Fold(p) == map[id := Dead(a)] && Plain(map[id := Dead(a)])
  {
    var first, last := Insert(id, Claim(Leaf(Null), a)), Delete(id);
    var p := [first, last];
    assert p[..1] == [first] && p[..1][..0] == [] && [first] + [last] == p && [] + [first] == [first];
    assert Fold([]) == map[];
    FoldSnoc([], first);
    assert Fold([first]) == map[id := Live(first.claim, false)];
    FoldSnoc([first], last);
  }

  lemma CellsFit(s: Logical, t: Logical, id: Stamp)
    requires StateFit(s) && StateFit(t) && id in s && id in t
    ensures CellFits(s[id]) && CellFits(t[id])
  {
  }

  lemma MergeAlone(s: Logical, t: Logical, id: Stamp)
    requires StateFit(s) && StateFit(t) && id !in s && id in t
    ensures CellFits(t[id]) && MergeCell(None, t[id]) == t[id]
  {
  }

  ghost predicate LeafClaims(cs: set<Claim>) {
    forall c :: c in cs ==> c.value.Leaf?
  }

  /** Among scalars an id sits at the least position claimed, live or deleted. */
  lemma LeastPosition(cs: set<Claim>, deleted: bool, cell: Cell)
    requires ClaimsFit(cs) && LeafClaims(cs) && CellExplained(cs, deleted, Some(cell))
    ensures exists c :: c in cs && c.anchor == CellAnchor(cell) && LeastPlaced(cs, c)
  {
    hide Buried, Leads;
    match cell {
      case Live(c, _) =>
        assert LeastPlaced(cs, c);
      case Dead(a) =>
        SomeBuried(cs, a);
        ScalarsLead(cs);
        var w := LeadOf(cs);
        BuriedAtLead(cs, a, w);
    }
  }

  lemma SomeBuried(cs: set<Claim>, a: Anchor)
    requires ClaimsFit(cs) && Buried(cs, a)
    ensures cs != {}
  {
  }

  lemma LeadOf(cs: set<Claim>) returns (w: Claim)
    requires ClaimsFit(cs) && Leads(cs)
    ensures LeastClaim(cs, w) && LeastPlaced(cs, w)
  {
    w :| LeastClaim(cs, w) && LeastPlaced(cs, w);
  }

  lemma LiveMerge(cs: set<Claim>, ds: set<Claim>, c: Claim, d: Claim)
    requires ClaimsFit(cs) && ClaimsFit(ds) && LeastClaim(cs, c) && LeastClaim(ds, d)
    ensures ClaimsFit(cs + ds)
    ensures CellExplained(cs + ds, false, Some(MergeCell(Some(Live(c, false)), Live(d, false))))
  {
    hide ClaimLess;
    ClaimTotal(c, d);
    var w := if ClaimLess(d, c) then d else c;
    forall e | e in cs + ds
      ensures e == w || ClaimLess(w, e)
    {
      if e in cs && w == d && e != c && c != d {
        ClaimTransitive(d, c, e);
      }
      if e in ds && w == c && e != d && c != d {
        ClaimTransitive(c, d, e);
      }
    }
    assert LeastClaim(cs + ds, w);
    SameValueMerge(c, d);
  }

  lemma SameValueMerge(c: Claim, d: Claim)
    requires ElementFits(c.value) && ElementFits(d.value)
    ensures MergeCell(Some(Live(c, false)), Live(d, false)) == Live(if ClaimLess(d, c) then d else c, false)
  {
    hide PutElement, LexLess;
    ClaimTotal(c, d);
    LexIrreflexive(PutElement(c.value));
  }

  lemma DeadMerge(cs: set<Claim>, ds: set<Claim>, dp: bool, dq: bool, x: Cell, y: Cell)
    requires ClaimsFit(cs) && ClaimsFit(ds) && LeafClaims(cs) && LeafClaims(ds)
    requires CellExplained(cs, dp, Some(x)) && CellExplained(ds, dq, Some(y)) && CellAnchor(x) == CellAnchor(y)
    ensures ClaimsFit(cs + ds) && Buried(cs + ds, CellAnchor(x))
  {
    hide ClaimLess, CellExplained;
    var a := CellAnchor(x);
    LeastPosition(cs, dp, x);
    LeastPosition(ds, dq, y);
    var c :| c in cs && c.anchor == a && LeastPlaced(cs, c);
    var d :| d in ds && d.anchor == a && LeastPlaced(ds, d);
    assert Floors(cs + ds, a, c);
  }

  /** Two explained views of one id that agree on a deleted position merge to an explained
      view of the claims on either side. */
  lemma MergeExplained(cs: set<Claim>, ds: set<Claim>, dp: bool, dq: bool, x: Option<Cell>, y: Cell)
    requires ClaimsFit(cs) && ClaimsFit(ds) && LeafClaims(cs) && LeafClaims(ds) && CellFits(y)
    requires x.Some? ==> CellFits(x.value)
    requires CellExplained(cs, dp, x) && CellExplained(ds, dq, Some(y)) && (dp ==> x.Some?)
    requires x.Some? && (x.value.Dead? || y.Dead?) ==> CellAnchor(x.value) == CellAnchor(y)
    ensures ClaimsFit(cs + ds) && CellExplained(cs + ds, dp || dq, Some(MergeCell(x, y)))
  {
    hide ClaimLess, Buried, LeastClaim;
    if x.None? {
      assert cs + ds == ds;
    } else if x.value.Live? && y.Live? {
      LiveMerge(cs, ds, x.value.claim, y.claim);
    } else {
      DeadMerge(cs, ds, dp, dq, x.value, y);
    }
  }

  lemma CausalConcat(p: seq<Op>, q: seq<Op>)
    requires Causal(p) && Causal(q)
    ensures Causal(p + q)
  {
    forall j | 0 <= j < |p + q| && (p + q)[j].Delete?
      ensures exists i :: 0 <= i < j && (p + q)[i].Insert? && (p + q)[i].id == (p + q)[j].id
    {
      if j < |p| {
        var i :| 0 <= i < j && p[i].Insert? && p[i].id == p[j].id;
        assert (p + q)[i] == p[i];
      } else {
        var i :| 0 <= i < j - |p| && q[i].Insert? && q[i].id == q[j - |p|].id;
        assert (p + q)[|p| + i] == q[i];
      }
    }
  }

  /** For plain lists that agree on where deleted ids sit, merging the folds of two op
      sequences is folding the two sequences together. */
  lemma MergeIsUnion(p: seq<Op>, q: seq<Op>)
    requires AllFit(p) && AllFit(q) && Causal(p) && Causal(q)
    requires AllScalar(OpSet(p)) && AllScalar(OpSet(q)) && Agree(Fold(p), Fold(q))
    ensures AllFit(p + q) && MergeState(Fold(p), Fold(q)) == Fold(p + q)
  {
    hide Fold, MergeState, MergeCell, CellExplained, Causal;
    CausalConcat(p, q);
    ConcatSet(p, q);
    forall id
      ensures Get(MergeState(Fold(p), Fold(q)), id) == Get(Fold(p + q), id)
    {
      MergeGet(Fold(p), Fold(q), id);
      MergeOne(p, q, id);
    }
    SameState(MergeState(Fold(p), Fold(q)), Fold(p + q));
  }

  lemma ClaimsUnion(a: set<Op>, b: set<Op>, id: Stamp)
    ensures Claims(a + b, id) == Claims(a, id) + Claims(b, id)
    ensures Deleted(a + b, id) <==> Deleted(a, id) || Deleted(b, id)
  {
    forall c
      ensures c in Claims(a + b, id) <==> c in Claims(a, id) || c in Claims(b, id)
    {
      assert c in Claims(a + b, id) <==> Insert(id, c) in a + b;
      assert c in Claims(a, id) <==> Insert(id, c) in a;
      assert c in Claims(b, id) <==> Insert(id, c) in b;
    }
  }

  lemma MergeOne(p: seq<Op>, q: seq<Op>, id: Stamp)
    requires AllFit(p) && AllFit(q) && AllFit(p + q) && Causal(p) && Causal(q) && Causal(p + q)
    requires OpSet(p + q) == OpSet(p) + OpSet(q)
    requires AllScalar(OpSet(p)) && AllScalar(OpSet(q)) && Agree(Fold(p), Fold(q))
    ensures Get(Fold(p + q), id) ==
            if id in Fold(q) then Some(MergeCell(Get(Fold(p), id), Fold(q)[id])) else Get(Fold(p), id)
  {
    hide Fold, MergeCell, CellExplained, Causal, OpSet, Leads;
    var cs, ds := Claims(OpSet(p), id), Claims(OpSet(q), id);
    var dp, dq := Deleted(OpSet(p), id), Deleted(OpSet(q), id);
    FoldExplained(p, id);
    FoldExplained(q, id);
    FoldExplained(p + q, id);
    ClaimsUnion(OpSet(p), OpSet(q), id);
    NotDeletedFirst(p, id);
    NotDeletedFirst(q, id);
    NotDeletedFirst(p + q, id);
    if cs + ds != {} {
      ScalarsLead(cs + ds);
    }
    if id in Fold(q) {
      MergeExplained(cs, ds, dp, dq, Get(Fold(p), id), Fold(q)[id]);
      NoneUnclaimed(cs + ds, dp || dq, Get(Fold(p + q), id), Some(MergeCell(Get(Fold(p), id), Fold(q)[id])));
    } else {
      AbsentUnclaimed(ds, dq);
      assert cs + ds == cs;
      NoneUnclaimed(cs, dp || dq, Get(Fold(p + q), id), Get(Fold(p), id));
    }
  }

  lemma AbsentUnclaimed(ds: set<Claim>, dq: bool)
    requires ClaimsFit(ds) && CellExplained(ds, dq, None)
    ensures ds == {}
  {
  }

  lemma NoneUnclaimed(cs: set<Claim>, deleted: bool, x: Option<Cell>, y: Option<Cell>)
    requires ClaimsFit(cs) && CellExplained(cs, deleted, x) && CellExplained(cs, deleted, y)
    requires cs != {} ==> Leads(cs)
    ensures x == y
  {
    if cs == {} {
      EmptyCell(cs, deleted, x);
      EmptyCell(cs, deleted, y);
    } else {
      CellDetermined(cs, deleted, x, y);
    }
  }

  lemma EmptyCell(cs: set<Claim>, deleted: bool, x: Option<Cell>)
    requires cs == {} && CellExplained(cs, deleted, x)
    ensures x == None
  {
  }
}
