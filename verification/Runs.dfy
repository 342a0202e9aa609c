/** Deleted ids held run-length compressed. A run is one record for `len` ids that
    count up in lamport from its head; the head hangs at the stored anchor and every
    later id hangs to the right of its predecessor. */
module Runs {
  import opened Stamps

  datatype DeadRun = DeadRun(len: nat, anchor: Anchor)

  type DeadMap = map<Stamp, DeadRun>

  // ---- one run ----

  /** The id `i` places after a run head. */
  function RunId(head: Stamp, i: nat): Stamp {
    head.(lamport := head.lamport + i)
  }

  predicate SameGroup(a: Stamp, b: Stamp) {
    a.client == b.client && a.offset == b.offset
  }

  /** Whether a run of `len` ids from `head` contains `id`. */
  predicate Covers(head: Stamp, len: nat, id: Stamp) {
    SameGroup(head, id) && head.lamport <= id.lamport < head.lamport + len
  }

  /** Where the id `i` places into a run hangs. */
  function ChainAnchor(head: Stamp, anchor: Anchor, i: nat): Anchor {
    if i == 0 then anchor else Anchor(Some(RunId(head, i - 1)), Right)
  }

  /** The ids of a run. */
  ghost function Segment(head: Stamp, len: nat): set<Stamp> {
    set i | 0 <= i < len :: RunId(head, i)
  }

  lemma InSegment(head: Stamp, len: nat, id: Stamp)
    ensures id in Segment(head, len) <==> Covers(head, len, id)
  {
    if Covers(head, len, id) {
      assert id == RunId(head, id.lamport - head.lamport);
    }
  }

  /** The plain map one run stands for. */
  ghost function Chain(head: Stamp, len: nat, anchor: Anchor): map<Stamp, Anchor> {
    map id | id in Segment(head, len) ::
      InSegment(head, len, id); ChainAnchor(head, anchor, id.lamport - head.lamport)
  }

  lemma ChainAt(head: Stamp, len: nat, anchor: Anchor, id: Stamp)
    ensures id in Chain(head, len, anchor) <==> Covers(head, len, id)
    ensures Covers(head, len, id) ==>
              Chain(head, len, anchor)[id] == ChainAnchor(head, anchor, id.lamport - head.lamport)
  {
    InSegment(head, len, id);
  }

  // ---- a set of runs ----

  /** Runs are non-empty, end inside the lamport space and do not overlap. */
  ghost predicate WellFormed(dead: DeadMap) {
    && (forall h :: h in dead ==> dead[h].len > 0 && h.lamport + dead[h].len <= U64_LIMIT)
    && (forall g, h :: g in dead && h in dead && SameGroup(g, h) && g.lamport < h.lamport
          ==> g.lamport + dead[g].len <= h.lamport)
  }

  /** The run at `h` continues the chain of the run at `g`. */
  ghost predicate Joins(dead: DeadMap, g: Stamp, h: Stamp) {
    && g in dead && h in dead && dead[g].len > 0
    && h == RunId(g, dead[g].len)
    && dead[h].anchor == Anchor(Some(RunId(g, dead[g].len - 1)), Right)
  }

  /** No two records could be one. */
  ghost predicate Maximal(dead: DeadMap) {
    forall g, h :: g in dead && h in dead ==> !Joins(dead, g, h)
  }

  ghost predicate Canonical(dead: DeadMap) {
    WellFormed(dead) && Maximal(dead)
  }

  /** `h` heads the run that covers `id`. */
  predicate Holds(dead: DeadMap, h: Stamp, id: Stamp) {
    h in dead && Covers(h, dead[h].len, id)
  }

  ghost function Ids(dead: DeadMap): set<Stamp> {
    set h, i | h in dead && 0 <= i < dead[h].len :: RunId(h, i)
  }

  ghost function AnchorOf(dead: DeadMap, id: Stamp): Anchor
    requires exists h :: Holds(dead, h, id)
  {
    var h :| Holds(dead, h, id);
    ChainAnchor(h, dead[h].anchor, id.lamport - h.lamport)
  }

  lemma InIds(dead: DeadMap, id: Stamp)
    ensures id in Ids(dead) <==> exists h :: Holds(dead, h, id)
  {
    if id in Ids(dead) {
      var h, i :| h in dead && 0 <= i < dead[h].len && id == RunId(h, i);
      assert Holds(dead, h, id);
    }
    if h :| Holds(dead, h, id) {
      assert id == RunId(h, id.lamport - h.lamport);
    }
  }

  /** The plain map from deleted id to anchor that the records stand for. */
  ghost function Tombs(dead: DeadMap): map<Stamp, Anchor> {
    map id | id in Ids(dead) :: InIds(dead, id); AnchorOf(dead, id)
  }

  /** A covered id reads its anchor off the one run that covers it. */
  lemma TombAt(dead: DeadMap, h: Stamp, id: Stamp)
    requires WellFormed(dead) && Holds(dead, h, id)
    ensures id in Tombs(dead)
    ensures Tombs(dead)[id] == ChainAnchor(h, dead[h].anchor, id.lamport - h.lamport)
  {
    InIds(dead, id);
    OneHolder(dead, id);
  }

  lemma OneHolder(dead: DeadMap, id: Stamp)
    requires WellFormed(dead)
    ensures forall g, h :: Holds(dead, g, id) && Holds(dead, h, id) ==> g == h
  {
  }

  lemma TombFrom(dead: DeadMap, id: Stamp) returns (h: Stamp)
    requires WellFormed(dead) && id in Tombs(dead)
    ensures Holds(dead, h, id)
    ensures Tombs(dead)[id] == ChainAnchor(h, dead[h].anchor, id.lamport - h.lamport)
  {
    InIds(dead, id);
    h :| Holds(dead, h, id);
    TombAt(dead, h, id);
  }

  lemma NoTomb(dead: DeadMap, id: Stamp)
    ensures id !in Tombs(dead) <==> forall h :: !Holds(dead, h, id)
  {
    InIds(dead, id);
  }

  // ---- canonical form ----

  /** An id heading a run of `d` but interior to a run of an equal `e` continues the
      run of `d` that holds its predecessor. */
  lemma InteriorHeadJoins(d: DeadMap, e: DeadMap, g: Stamp, h: Stamp) returns (f: Stamp)
    requires WellFormed(d) && WellFormed(e) && Tombs(d) == Tombs(e)
    requires h in d && Holds(e, g, h) && g != h
    ensures Joins(d, f, h)
  {
    hide Tombs;
    TombAt(d, h, h);
    TombAt(e, g, h);
    var prev := RunId(g, h.lamport - g.lamport - 1);
    TombAt(e, g, prev);
    f := TombFrom(d, prev);
  }

  /** A run of `e` that stops short of an equal `d`'s run is continued in `e`. */
  lemma ShortRunJoins(d: DeadMap, e: DeadMap, h: Stamp) returns (g: Stamp)
    requires WellFormed(d) && WellFormed(e) && Tombs(d) == Tombs(e)
    requires h in d && h in e && e[h].len < d[h].len
    ensures Joins(e, h, g)
  {
    hide Tombs;
    var next := RunId(h, e[h].len);
    TombAt(d, h, next);
    g := TombFrom(e, next);
  }

  /** The head, anchor and length of a maximal run can be read off the denotation. */
  lemma RunDetermined(d: DeadMap, e: DeadMap, h: Stamp)
    requires Canonical(d) && Canonical(e) && Tombs(d) == Tombs(e) && h in d
    ensures h in e && e[h] == d[h]
  {
    hide Tombs;
    TombAt(d, h, h);
    var g := TombFrom(e, h);
    if g != h {
      var f := InteriorHeadJoins(d, e, g, h);
      assert false;
    }
    if e[h].len < d[h].len {
      var f := ShortRunJoins(d, e, h);
      assert false;
    }
    if d[h].len < e[h].len {
      var f := ShortRunJoins(e, d, h);
      assert false;
    }
  }

  /** Maximal runs are the unique representation of the map they denote. */
  lemma CanonicalUnique(d: DeadMap, e: DeadMap)
    requires Canonical(d) && Canonical(e) && Tombs(d) == Tombs(e)
    ensures d == e
  {
    hide Tombs;
    forall h | h in d
      ensures h in e && e[h] == d[h]
    {
      RunDetermined(d, e, h);
    }
    forall h | h in e
      ensures h in d
    {
      RunDetermined(e, d, h);
    }
  }

  // ---- surgery on the records ----

  /** No run covers any of `len` ids from `head`. */
  ghost predicate Unheld(dead: DeadMap, head: Stamp, len: nat) {
    forall id :: Covers(head, len, id) ==> id !in Tombs(dead)
  }

  lemma UnheldHead(dead: DeadMap, head: Stamp, len: nat)
    requires Unheld(dead, head, len) && len > 0
    ensures head !in Tombs(dead)
  {
    assert Covers(head, len, head);
  }

  /** A record at `head` and `anchor` continues the chain of the run at `p`. */
  predicate Continues(dead: DeadMap, p: Stamp, head: Stamp, anchor: Anchor)
    requires p in dead
  {
    && RunId(p, dead[p].len) == head
    && dead[p].len > 0 && anchor == Anchor(Some(RunId(p, dead[p].len - 1)), Right)
  }

  /** Storing a run over ids nothing covers adds exactly its chain. */
  lemma StoreRun(dead: DeadMap, h: Stamp, len: nat, anchor: Anchor)
    requires WellFormed(dead) && len > 0 && h.lamport + len <= U64_LIMIT
    requires Unheld(dead, h, len)
    ensures h !in dead
    ensures WellFormed(dead[h := DeadRun(len, anchor)])
    ensures Tombs(dead[h := DeadRun(len, anchor)]) == Tombs(dead) + Chain(h, len, anchor)
  {
    hide Tombs, Chain;
    var d := dead[h := DeadRun(len, anchor)];
    assert Covers(h, len, h);
    forall g | g in dead && SameGroup(g, h)
      ensures g.lamport + dead[g].len <= h.lamport || h.lamport + len <= g.lamport
    {
      if h.lamport <= g.lamport < h.lamport + len {
        TombAt(dead, g, g);
      } else if g.lamport < h.lamport < g.lamport + dead[g].len {
        TombAt(dead, g, h);
      }
    }
    if h in dead {
      TombAt(dead, h, h);
    }
    assert WellFormed(d);
    forall id
      ensures id in Tombs(d) <==> id in Tombs(dead) || id in Chain(h, len, anchor)
      ensures id in Tombs(d) ==> Tombs(d)[id] == (Tombs(dead) + Chain(h, len, anchor))[id]
    {
      ChainAt(h, len, anchor, id);
      NoTomb(dead, id);
      NoTomb(d, id);
      if id in Tombs(dead) {
        var g := TombFrom(dead, id);
        TombAt(d, g, id);
      }
      if Covers(h, len, id) {
        TombAt(d, h, id);
      }
      if id in Tombs(d) {
        var g := TombFrom(d, id);
        if g != h {
          TombAt(dead, g, id);
        }
      }
    }
  }

  lemma WeldWellFormed(dead: DeadMap, g: Stamp, h: Stamp)
    requires WellFormed(dead) && Joins(dead, g, h)
    ensures WellFormed(Welded(dead, g, h))
  {
  }

  lemma WeldKeeps(dead: DeadMap, g: Stamp, h: Stamp, id: Stamp)
    requires WellFormed(dead) && Joins(dead, g, h) && id in Tombs(dead)
    ensures id in Tombs(Welded(dead, g, h)) && Tombs(Welded(dead, g, h))[id] == Tombs(dead)[id]
  {
    hide Tombs;
    WeldWellFormed(dead, g, h);
    var f := TombFrom(dead, id);
    TombAt(Welded(dead, g, h), if f == h then g else f, id);
  }

  lemma WeldAddsNone(dead: DeadMap, g: Stamp, h: Stamp, id: Stamp)
    requires WellFormed(dead) && Joins(dead, g, h) && id in Tombs(Welded(dead, g, h))
    ensures id in Tombs(dead)
  {
    hide Tombs;
    WeldWellFormed(dead, g, h);
    var f := TombFrom(Welded(dead, g, h), id);
    TombAt(dead, if f == g && id.lamport >= h.lamport then h else f, id);
  }

  /** Two joining records welded into one stand for the same map. */
  lemma WeldRuns(dead: DeadMap, g: Stamp, h: Stamp)
    requires WellFormed(dead) && Joins(dead, g, h)
    ensures WellFormed(Welded(dead, g, h))
    ensures Tombs(Welded(dead, g, h)) == Tombs(dead)
  {
    hide Tombs;
    WeldWellFormed(dead, g, h);
    var d := Welded(dead, g, h);
    forall id | id in Tombs(dead) ensures id in Tombs(d) && Tombs(d)[id] == Tombs(dead)[id] {
      WeldKeeps(dead, g, h, id);
    }
    forall id | id in Tombs(d) ensures id in Tombs(dead) {
      WeldAddsNone(dead, g, h, id);
    }
  }

  function Welded(dead: DeadMap, g: Stamp, h: Stamp): DeadMap
    requires g in dead && h in dead
  {
    (dead - {h})[g := DeadRun(dead[g].len + dead[h].len, dead[g].anchor)]
  }

  /** The only records that may still join are the ones at `h`. */
  ghost predicate MaximalBut(dead: DeadMap, h: Stamp) {
    forall f, g :: f in dead && g in dead && f != h && g != h ==> !Joins(dead, f, g)
  }

  /** Welding the run at `h` onto what it continues leaves nothing joining its head. */
  lemma WeldBack(dead: DeadMap, g: Stamp, h: Stamp)
    requires WellFormed(dead) && Joins(dead, g, h) && MaximalBut(dead, h)
    ensures MaximalBut(Welded(dead, g, h), g)
    ensures forall f :: !Joins(Welded(dead, g, h), f, g)
  {
    var d := Welded(dead, g, h);
    forall f
      ensures !Joins(d, f, g)
    {
      if Joins(d, f, g) {
        assert f != g && f != h;
        assert Joins(dead, f, g);
      }
    }
    forall e, f | e in d && f in d && e != g && f != g
      ensures !Joins(d, e, f)
    {
      assert !Joins(dead, e, f);
    }
  }

  /** Welding what continues `g` onto it leaves nothing joining at all. */
  lemma WeldFront(dead: DeadMap, g: Stamp, h: Stamp)
    requires WellFormed(dead) && Joins(dead, g, h) && MaximalBut(dead, g)
    requires forall f :: !Joins(dead, f, g)
    ensures Maximal(Welded(dead, g, h))
  {
    hide WellFormed, Joins;
    assert g in dead && h in dead by { JoinsIn(dead, g, h); }
    var d := Welded(dead, g, h);
    forall e, f | e in d && f in d
      ensures !Joins(d, e, f)
    {
      if Joins(d, e, f) {
        WeldJoins(dead, g, h, e, f);
        assert false;
      }
    }
  }

  lemma JoinsIn(dead: DeadMap, g: Stamp, h: Stamp)
    requires Joins(dead, g, h)
    ensures g in dead && h in dead && g != h
  {
  }

  /** What joins in the welded records joined before, from the piece welded on or untouched. */
  lemma WeldJoins(dead: DeadMap, g: Stamp, h: Stamp, e: Stamp, f: Stamp)
    requires WellFormed(dead) && Joins(dead, g, h) && Joins(Welded(dead, g, h), e, f)
    ensures h != g && f in dead && (f == g ==> Joins(dead, if e == g then h else e, g))
    ensures if e == g then Joins(dead, h, f) else e in dead && Joins(dead, e, f)
  {
  }

  // ---- welding a new run in ----

  /** The map being assembled while a run is added at `h`: everything added so far is
      in, and only the record at `h` may still join something, at its tail. */
  ghost predicate Open(dead: DeadMap, tombs: map<Stamp, Anchor>, h: Stamp) {
    WellFormed(dead) && Tombs(dead) == tombs && MaximalBut(dead, h) && h in dead && dead[h].len > 0
    && forall f :: !Joins(dead, f, h)
  }

  lemma StoredAlone(dead: DeadMap, head: Stamp, len: nat, anchor: Anchor)
    requires Canonical(dead) && len > 0 && head.lamport + len <= U64_LIMIT
    requires Unheld(dead, head, len)
    requires forall p :: p in dead ==> !Continues(dead, p, head, anchor)
    ensures head !in dead
    ensures Open(dead[head := DeadRun(len, anchor)], Tombs(dead) + Chain(head, len, anchor), head)
  {
    hide Tombs, Chain;
    StoreRun(dead, head, len, anchor);
    var d := dead[head := DeadRun(len, anchor)];
    forall f
      ensures !Joins(d, f, head)
    {
      if f == head {
        assert RunId(f, d[f].len) != head;
      }
    }
    StoreMaximalBut(dead, head, len, anchor);
  }

  lemma StoreMaximalBut(dead: DeadMap, head: Stamp, len: nat, anchor: Anchor)
    requires Maximal(dead)
    ensures MaximalBut(dead[head := DeadRun(len, anchor)], head)
  {
    var d := dead[head := DeadRun(len, anchor)];
    forall f, g | f in d && g in d && f != head && g != head
      ensures !Joins(d, f, g)
    {
      assert !Joins(dead, f, g);
    }
  }

  lemma StoredOnto(dead: DeadMap, p: Stamp, head: Stamp, len: nat, anchor: Anchor)
    requires Canonical(dead) && len > 0 && head.lamport + len <= U64_LIMIT
    requires Unheld(dead, head, len)
    requires p in dead && Continues(dead, p, head, anchor)
    ensures Open(dead[p := DeadRun(dead[p].len + len, dead[p].anchor)],
                 Tombs(dead) + Chain(head, len, anchor), p)
  {
    hide Tombs, Chain, MaximalBut, Unheld, Maximal;
    StoreRun(dead, head, len, anchor);
    var d := dead[head := DeadRun(len, anchor)];
    StoreMaximalBut(dead, head, len, anchor);
    assert Joins(d, p, head);
    WeldRuns(d, p, head);
    WeldBack(d, p, head);
    assert d - {head} == dead;
    assert Welded(d, p, head) == dead[p := DeadRun(dead[p].len + len, dead[p].anchor)];
  }

  lemma ClosedAlone(dead: DeadMap, tombs: map<Stamp, Anchor>, h: Stamp)
    requires Open(dead, tombs, h)
    requires forall n :: n in dead && n == RunId(h, dead[h].len)
               ==> dead[n].anchor != Anchor(Some(RunId(h, dead[h].len - 1)), Right)
    ensures Canonical(dead) && Tombs(dead) == tombs
  {
    hide Tombs;
    forall f, g | f in dead && g in dead
      ensures !Joins(dead, f, g)
    {
    }
  }

  lemma ClosedOnto(dead: DeadMap, tombs: map<Stamp, Anchor>, h: Stamp, n: Stamp)
    requires Open(dead, tombs, h) && Joins(dead, h, n)
    ensures Canonical(Welded(dead, h, n)) && Tombs(Welded(dead, h, n)) == tombs
  {
    hide Tombs;
    WeldRuns(dead, h, n);
    WeldFront(dead, h, n);
  }

  // ---- lifting an id out ----

  /** The records left when `id` is lifted out of the run at `h`: the stretch before it
      and the stretch after, the latter hanging off `id` as the chain already had it. */
  function Lifted(dead: DeadMap, h: Stamp, id: Stamp): DeadMap
    requires Holds(dead, h, id)
  {
    var run := dead[h];
    var before := id.lamport - h.lamport;
    var after := run.len - before - 1;
    var d := dead - {h};
    var e := if before == 0 then d else d[h := DeadRun(before, run.anchor)];
    if after == 0 then e else e[RunId(h, before + 1) := DeadRun(after, Anchor(Some(id), Right))]
  }

  lemma LiftWellFormed(dead: DeadMap, h: Stamp, id: Stamp)
    requires WellFormed(dead) && Holds(dead, h, id)
    ensures WellFormed(Lifted(dead, h, id))
  {
    hide Lifted;
    var d := Lifted(dead, h, id);
    forall g | g in d
      ensures d[g].len > 0 && g.lamport + d[g].len <= U64_LIMIT
    {
      LiftedAt(dead, h, id, g);
      LiftedLength(dead, h, id, g);
    }
    forall f, g | f in d && g in d && SameGroup(f, g) && f.lamport < g.lamport
      ensures f.lamport + d[f].len <= g.lamport
    {
      LiftedAt(dead, h, id, f);
      LiftedAt(dead, h, id, g);
      LiftedLength(dead, h, id, f);
      LiftedLength(dead, h, id, g);
    }
  }

  lemma LiftedLength(dead: DeadMap, h: Stamp, id: Stamp, g: Stamp)
    requires WellFormed(dead) && Holds(dead, h, id) && g in Lifted(dead, h, id)
    ensures Lifted(dead, h, id)[g].len > 0
    ensures g == h ==> id.lamport > h.lamport
  {
  }

  lemma LiftMaximal(dead: DeadMap, h: Stamp, id: Stamp)
    requires Canonical(dead) && Holds(dead, h, id)
    ensures Maximal(Lifted(dead, h, id))
  {
    var d := Lifted(dead, h, id);
    forall f, g | f in d && g in d
      ensures !Joins(d, f, g)
    {
      if Joins(d, f, g) {
        LiftJoins(dead, h, id, f, g);
        assert false;
      }
    }
  }

  /** What a record left by a lift is: the leading piece, the trailing piece, or
      another run untouched. */
  lemma LiftedAt(dead: DeadMap, h: Stamp, id: Stamp, g: Stamp)
    requires WellFormed(dead) && Holds(dead, h, id) && g in Lifted(dead, h, id)
    ensures var d := Lifted(dead, h, id); var before := id.lamport - h.lamport;
            || (g == h && d[g] == DeadRun(before, dead[h].anchor))
            || (g == RunId(id, 1) && g !in dead
                && d[g] == DeadRun(dead[h].len - before - 1, Anchor(Some(id), Right)))
            || (g != h && g in dead && d[g] == dead[g] && !Covers(h, dead[h].len, g))
  {
  }

  lemma LiftJoins(dead: DeadMap, h: Stamp, id: Stamp, f: Stamp, g: Stamp)
    requires WellFormed(dead) && Holds(dead, h, id) && Joins(Lifted(dead, h, id), f, g)
    ensures Joins(dead, if f in dead then f else h, g)
  {
    hide Lifted;
    LiftedAt(dead, h, id, f);
    LiftedAt(dead, h, id, g);
    LiftedGone(dead, h, id, f);
    LiftedGone(dead, h, id, g);
  }

  lemma LiftedGone(dead: DeadMap, h: Stamp, id: Stamp, f: Stamp)
    requires WellFormed(dead) && Holds(dead, h, id)
    ensures !Holds(Lifted(dead, h, id), f, id)
  {
    LiftWellFormed(dead, h, id);
  }

  lemma LiftTombs(dead: DeadMap, h: Stamp, id: Stamp, x: Stamp)
    requires WellFormed(dead) && Holds(dead, h, id) && x != id
    ensures x in Tombs(Lifted(dead, h, id)) <==> x in Tombs(dead)
    ensures x in Tombs(dead) ==> Tombs(Lifted(dead, h, id))[x] == Tombs(dead)[x]
  {
    hide Tombs, Lifted, WellFormed;
    LiftWellFormed(dead, h, id);
    var d := Lifted(dead, h, id);
    if x in Tombs(dead) {
      var f := TombFrom(dead, x);
      LiftHolds(dead, h, id, f, x);
      TombAt(d, if f == h && x.lamport > id.lamport then RunId(id, 1) else f, x);
    } else if x in Tombs(d) {
      var f := TombFrom(d, x);
      LiftHeld(dead, h, id, f, x);
      TombAt(dead, if f in dead then f else h, x);
      assert false;
    }
  }

  /** An id other than the one lifted is covered still, by its run or by the piece split off,
      at the place it had. */
  lemma LiftHolds(dead: DeadMap, h: Stamp, id: Stamp, f: Stamp, x: Stamp)
    requires WellFormed(dead) && Holds(dead, h, id) && Holds(dead, f, x) && x != id
    ensures var d := Lifted(dead, h, id); var g := if f == h && x.lamport > id.lamport then RunId(id, 1) else f;
            && Holds(d, g, x)
            && ChainAnchor(g, d[g].anchor, x.lamport - g.lamport) ==
               ChainAnchor(f, dead[f].anchor, x.lamport - f.lamport)
  {
  }

  lemma LiftHeld(dead: DeadMap, h: Stamp, id: Stamp, f: Stamp, x: Stamp)
    requires WellFormed(dead) && Holds(dead, h, id) && Holds(Lifted(dead, h, id), f, x)
    ensures Holds(dead, if f in dead then f else h, x)
  {
    LiftedAt(dead, h, id, f);
  }

  /** Lifting an id out removes it from the denotation and nothing else, and the
      records that remain are still maximal. */
  lemma LiftRemoves(dead: DeadMap, h: Stamp, id: Stamp)
    requires Canonical(dead) && Holds(dead, h, id)
    ensures Canonical(Lifted(dead, h, id))
    ensures Tombs(Lifted(dead, h, id)) == Tombs(dead) - {id}
  {
    hide Tombs;
    LiftWellFormed(dead, h, id);
    LiftMaximal(dead, h, id);
    var d := Lifted(dead, h, id);
    forall x | x != id
      ensures x in Tombs(d) <==> x in Tombs(dead)
      ensures x in Tombs(dead) ==> Tombs(d)[x] == Tombs(dead)[x]
    {
      LiftTombs(dead, h, id, x);
    }
    if id in Tombs(d) {
      var f := TombFrom(d, id);
      LiftedGone(dead, h, id, f);
      assert false;
    }
  }
}
