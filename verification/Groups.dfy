/** What a set of delivered ops comes to, whatever order they arrive in: which group keys
    are spent, which ops are applied, which are held, and where the clocks stand. */
module Groups {
  import opened Stamps
  import opened Collections

  datatype OpId = OpId(client: nat, number: nat)

  /** Membership in an atomic group: the group's id and its declared size. */
  datatype Tx = Tx(id: nat, count: nat)

  /** How many consecutive ids an op takes: one, or one a codepoint. */
  type Span = n: nat | 1 <= n witness 1

  /** An op's envelope. The mutation it carries is opaque: `body` stands for its target and
      kind, which only the readiness gate reads, and `span` for the ids it reserves. */
  datatype Op = Op(id: OpId, stamp: Stamp, span: Span, zone: Option<nat>, tx: Option<Tx>, body: nat)

  /** A group is identified by its author and its id. */
  type Key = (nat, nat)

  function KeyOf(op: Op): Key
    requires op.tx.Some?
  {
    (op.id.client, op.tx.value.id)
  }

  /** Whether an op carrying `body` can apply once the ops in `seen` have. */
  type Ready = (set<OpId>, nat) -> bool

  ghost predicate Monotone(ready: Ready) {
    forall s, t, body :: s <= t && ready(s, body) ==> ready(t, body)
  }

  // ---- groups ----

  ghost predicate InGroup(op: Op, k: Key) {
    op.tx.Some? && KeyOf(op) == k
  }

  ghost function Members(d: set<Op>, k: Key): set<Op> {
    set op | op in d && InGroup(op, k)
  }

  /** The members all declare the size `n`. */
  ghost predicate Unanimous(ms: set<Op>, n: nat) {
    forall op :: op in ms ==> op.tx.Some? && op.tx.value.count == n
  }

  /** A bucket resolves once its members disagree on the size or reach it. */
  ghost predicate Resolves(ms: set<Op>) {
    ms != {} && forall n: nat :: Unanimous(ms, n) ==> |ms| >= n
  }

  ghost predicate Spent(d: set<Op>, k: Key) {
    Resolves(Members(d, k))
  }

  ghost function SpentKeys(d: set<Op>): set<Key> {
    set op | op in d && op.tx.Some? && Spent(d, KeyOf(op)) :: KeyOf(op)
  }

  lemma InSpentKeys(d: set<Op>, k: Key)
    ensures k in SpentKeys(d) <==> Spent(d, k)
  {
    if Spent(d, k) {
      var op :| op in Members(d, k);
      assert KeyOf(op) == k;
    }
  }

  /** A key once spent stays spent. */
  lemma SpentGrows(d: set<Op>, e: set<Op>, k: Key)
    requires d <= e && Spent(d, k)
    ensures Spent(e, k)
  {
    var ms, ns := Members(d, k), Members(e, k);
    assert ms <= ns;
    Smaller(ms, ns);
    forall n: nat | Unanimous(ns, n)
      ensures |ns| >= n
    {
      assert Unanimous(ms, n);
    }
  }

  // ---- what is applied ----

  /** An op released from its group, or never in one, waits on readiness alone. */
  ghost predicate Released(d: set<Op>, op: Op) {
    op in d && (op.tx.None? || Spent(d, KeyOf(op)))
  }

  ghost predicate Closed(ready: Ready, d: set<Op>, c: set<OpId>) {
    forall op :: Released(d, op) && ready(c, op.body) ==> op.id in c
  }

  ghost function Ids(d: set<Op>): set<OpId> {
    set op | op in d :: op.id
  }

  /** The least set of ids closed under applying whatever released op is ready. */
  ghost function Applied(ready: Ready, d: set<Op>): set<OpId> {
    set id | id in Ids(d) && forall c: set<OpId> :: Closed(ready, d, c) ==> id in c
  }

  lemma AppliedLeast(ready: Ready, d: set<Op>, c: set<OpId>)
    requires Closed(ready, d, c)
    ensures Applied(ready, d) <= c
  {
  }

  /** What is ready once part of the least set is in belongs to it. */
  lemma AppliedTakes(ready: Ready, d: set<Op>, s: set<OpId>, op: Op)
    requires Monotone(ready) && s <= Applied(ready, d) && Released(d, op) && ready(s, op.body)
    ensures op.id in Applied(ready, d)
  {
    forall c: set<OpId> | Closed(ready, d, c)
      ensures op.id in c
    {
      AppliedLeast(ready, d, c);
      assert s <= c;
    }
    assert op.id in Ids(d);
  }

  lemma AppliedGrows(ready: Ready, d: set<Op>, e: set<Op>)
    requires d <= e
    ensures Applied(ready, d) <= Applied(ready, e)
  {
    forall id | id in Applied(ready, d)
      ensures id in Applied(ready, e)
    {
      assert id in Ids(e);
      forall c: set<OpId> | Closed(ready, e, c)
        ensures id in c
      {
        forall op | Released(d, op) && ready(c, op.body)
          ensures op.id in c
        {
          if op.tx.Some? {
            SpentGrows(d, e, KeyOf(op));
          }
        }
        assert Closed(ready, d, c);
      }
    }
  }

  /** A part of the least set that is closed is all of it. */
  lemma AppliedAll(ready: Ready, d: set<Op>, s: set<OpId>)
    requires s <= Applied(ready, d) && Closed(ready, d, s)
    ensures s == Applied(ready, d)
  {
    AppliedLeast(ready, d, s);
  }

  /** What a set of members of one group comes to when everything is ready. */
  lemma GroupDecides(ready: Ready, d: set<Op>, k: Key, n: nat)
    requires (forall s, body :: ready(s, body)) && n > 0
    requires forall op :: op in d ==> op.tx.Some? && KeyOf(op) == k && op.tx.value.count == n
    ensures |d| < n ==> SpentKeys(d) == {} && Applied(ready, d) == {} && Held(d, {}, {}) == d
    ensures |d| >= n ==> SpentKeys(d) == {k} && Applied(ready, d) == Ids(d) && Held(d, Ids(d), {k}) == {}
  {
    hide Resolves;
    assert Members(d, k) == d;
    GroupResolvesIff(d, n);
    if |d| < n {
      assert SpentKeys(d) == {};
      assert Closed(ready, d, {});
      assert forall op :: op in d ==> Untag(op, {}) == op;
    } else {
      var op :| op in d;
      InSpentKeys(d, k);
    }
  }

  lemma GroupResolvesIff(ms: set<Op>, n: nat)
    requires n > 0 && Unanimous(ms, n)
    ensures Resolves(ms) <==> |ms| >= n
  {
    if ms != {} {
      var op :| op in ms;
      assert forall k: nat :: Unanimous(ms, k) ==> k == n;
    }
  }

  // ---- one envelope an id ----

  ghost predicate SingleEnvelope(d: set<Op>) {
    forall a, b :: a in d && b in d && a.id == b.id ==> a == b
  }

  /** An op as the buffer holds it, once its key is spent. */
  function Untag(op: Op, spent: set<Key>): Op {
    if op.tx.Some? && KeyOf(op) in spent then op.(tx := None) else op
  }

  /** The ops held back: delivered, not applied, and untagged once their key is spent. */
  ghost function Held(d: set<Op>, applied: set<OpId>, spent: set<Key>): set<Op> {
    set op | op in d && op.id !in applied :: Untag(op, spent)
  }

  /** Every op held under a key outside `spent` is still held, unchanged. */
  ghost predicate StillWaits(before: set<Op>, after: set<Op>, spent: set<Key>) {
    forall o :: o in before && o.tx.Some? && KeyOf(o) !in spent ==> o in after
  }

  lemma StillWaitsOn(a: set<Op>, b: set<Op>, c: set<Op>, spent: set<Key>, more: set<Key>)
    requires StillWaits(a, b, spent) && StillWaits(b, c, more) && spent <= more
    ensures StillWaits(a, c, more)
  {
  }

  lemma StillWaitsHere(a: set<Op>, spent: set<Key>)
    ensures StillWaits(a, a, spent)
  {
  }

  // ---- clocks ----

  const WIRE_CEILING: nat := 0x3fff_ffff_ffff_ffff
  const STATE_CEILING: nat := 0x7fff_ffff_ffff_ffff

  /** The lamport the last id of a reservation occupies, saturating at the top. */
  function ReservationEnd(lamport: nat, span: Span): (end: nat)
    ensures end <= 0xffff_ffff_ffff_ffff
    ensures lamport + span - 1 <= 0xffff_ffff_ffff_ffff ==> end == lamport + span - 1
    ensures lamport + span - 1 > 0xffff_ffff_ffff_ffff ==> end == 0xffff_ffff_ffff_ffff
  {
    var end := lamport + span - 1;
    if end >= U64_LIMIT then U64_LIMIT - 1 else end
  }

  function Reach(op: Op): nat {
    ReservationEnd(op.stamp.lamport, op.span)
  }

  /** How far applying an op may move its partition's clock. */
  function ClockReach(op: Op): nat {
    if Reach(op) <= WIRE_CEILING then Reach(op) else WIRE_CEILING
  }

  /** `v` is the greatest of `f` over `s`, or zero over none. */
  ghost predicate IsMax(s: set<Op>, f: Op -> nat, v: nat) {
    && (forall op :: op in s ==> f(op) <= v)
    && (v == 0 || exists op :: op in s && f(op) == v)
  }

  lemma MaxUnique(s: set<Op>, f: Op -> nat, v: nat, w: nat)
    requires IsMax(s, f, v) && IsMax(s, f, w)
    ensures v == w
  {
  }

  ghost function InZone(d: set<Op>, applied: set<OpId>, zone: Option<nat>): set<Op> {
    set op | op in d && op.id in applied && op.zone == zone
  }

  ghost function ByClient(d: set<Op>, client: nat): set<Op> {
    set op | op in d && op.stamp.client == client && Reach(op) > 0
  }

  // ---- part-way through a drain ----

  /** A replica that has received `d` and applied `seen`, with the keys in `resolved` spent
      so far: it has run ahead of nothing the whole set decides. */
  ghost predicate Mid(ready: Ready, d: set<Op>, seen: set<OpId>, resolved: set<Key>) {
    && Monotone(ready) && SingleEnvelope(d)
    && seen <= Applied(ready, d)
    && (forall k :: k in resolved ==> Spent(d, k))
    && (forall op :: op in d && op.tx.Some? && KeyOf(op) !in resolved ==> op.id !in seen)
    && (forall k, n: nat :: k !in resolved && Unanimous(Members(d, k), n) && Members(d, k) != {} ==>
          |Members(d, k)| <= n)
  }

  lemma {:induction false} HeldAt(d: set<Op>, seen: set<OpId>, resolved: set<Key>, o: Op)
    requires SingleEnvelope(d)
    ensures o in Held(d, seen, resolved) <==>
            exists op :: op in d && op.id == o.id && op.id !in seen && o == Untag(op, resolved)
  {
    if o in Held(d, seen, resolved) {
      var op :| op in d && op.id !in seen && o == Untag(op, resolved);
      assert op.id == o.id;
    }
  }

  ghost function OpAt(d: set<Op>, id: OpId): (op: Op)
    requires id in Ids(d)
    ensures op in d && op.id == id
  {
    var op :| op in d && op.id == id;
    op
  }

  /** Applying a ready, untagged held op stays within what the whole set decides. */
  lemma StepApply(ready: Ready, d: set<Op>, seen: set<OpId>, resolved: set<Key>, o: Op)
    requires Mid(ready, d, seen, resolved) && o in Held(d, seen, resolved) && o.tx.None? && ready(seen, o.body)
    ensures Mid(ready, d, seen + {o.id}, resolved)
    ensures Held(d, seen + {o.id}, resolved) == Held(d, seen, resolved) - {o}
  {
    hide Applied, Unanimous;
    HeldAt(d, seen, resolved, o);
    var op :| op in d && op.id == o.id && op.id !in seen && o == Untag(op, resolved);
    assert Released(d, op);
    AppliedTakes(ready, d, seen, op);
    forall x
      ensures x in Held(d, seen + {o.id}, resolved) <==> x in Held(d, seen, resolved) && x != o
    {
      HeldAt(d, seen, resolved, x);
      HeldAt(d, seen + {o.id}, resolved, x);
    }
  }

  /** The bucket of an unspent key is the whole group: none of it has been applied. */
  lemma BucketIsGroup(ready: Ready, d: set<Op>, seen: set<OpId>, resolved: set<Key>, k: Key)
    requires Mid(ready, d, seen, resolved)
    ensures k !in resolved ==> Members(Held(d, seen, resolved), k) == Members(d, k)
    ensures k in resolved ==> Members(Held(d, seen, resolved), k) == {}
  {
    hide Applied, Unanimous, Spent;
    forall o
      ensures k !in resolved ==> (o in Members(Held(d, seen, resolved), k) <==> o in Members(d, k))
      ensures k in resolved ==> o !in Members(Held(d, seen, resolved), k)
    {
      HeldAt(d, seen, resolved, o);
      if o in Members(d, k) && k !in resolved {
        assert Untag(o, resolved) == o;
      }
    }
  }

  /** Spending keys the whole set spends untags their members and applies none. */
  lemma StepSpend(ready: Ready, d: set<Op>, seen: set<OpId>, resolved: set<Key>, ks: set<Key>)
    requires Mid(ready, d, seen, resolved) && forall k :: k in ks ==> Spent(d, k)
    ensures Mid(ready, d, seen, resolved + ks)
    ensures Held(d, seen, resolved + ks) == set o | o in Held(d, seen, resolved) :: Untag(o, resolved + ks)
  {
    hide Applied, Unanimous, Spent;
    var h, h' := Held(d, seen, resolved), Held(d, seen, resolved + ks);
    forall x
      ensures x in h' <==> exists o :: o in h && x == Untag(o, resolved + ks)
    {
      HeldAt(d, seen, resolved + ks, x);
      if x in h' {
        var op :| op in d && op.id == x.id && op.id !in seen && x == Untag(op, resolved + ks);
        assert Untag(op, resolved) in h;
        assert x == Untag(Untag(op, resolved), resolved + ks);
      }
      if o :| o in h && x == Untag(o, resolved + ks) {
        var op :| op in d && op.id !in seen && o == Untag(op, resolved);
        assert x == Untag(op, resolved + ks);
      }
    }
  }

  /** Nothing left to do: no released op is ready, and every bucket is unanimous and short
      of its size. */
  ghost predicate Quiet(ready: Ready, held: set<Op>, seen: set<OpId>) {
    && (forall o :: o in held && o.tx.None? ==> !ready(seen, o.body))
    && (forall o :: o in held && o.tx.Some? ==> Waiting(Members(held, KeyOf(o))))
  }

  ghost predicate Waiting(ms: set<Op>) {
    exists n: nat :: Unanimous(ms, n) && |ms| != n
  }

  lemma GroupWaits(ready: Ready, d: set<Op>, seen: set<OpId>, resolved: set<Key>, k: Key)
    requires Mid(ready, d, seen, resolved) && Quiet(ready, Held(d, seen, resolved), seen)
    requires k !in resolved && Members(d, k) != {}
    ensures Waiting(Members(d, k)) && !Spent(d, k)
  {
    hide Applied, Held;
    BucketIsGroup(ready, d, seen, resolved, k);
    var o :| o in Members(d, k);
    assert o in Members(Held(d, seen, resolved), k) && KeyOf(o) == k;
    var n: nat :| Unanimous(Members(d, k), n) && |Members(d, k)| != n;
    assert |Members(d, k)| < n;
  }

  /** A quiet replica has spent exactly the keys the whole set spends. */
  lemma QuietSpent(ready: Ready, d: set<Op>, seen: set<OpId>, resolved: set<Key>, k: Key)
    requires Mid(ready, d, seen, resolved) && Quiet(ready, Held(d, seen, resolved), seen) && Spent(d, k)
    ensures k in resolved
  {
    hide Mid, Quiet;
    if k !in resolved {
      GroupWaits(ready, d, seen, resolved, k);
      assert false;
    }
  }

  /** A quiet replica has applied, spent and held exactly what the whole set decides. */
  lemma QuietIsWhole(ready: Ready, d: set<Op>, seen: set<OpId>, resolved: set<Key>)
    requires Mid(ready, d, seen, resolved) && Quiet(ready, Held(d, seen, resolved), seen)
    ensures seen == Applied(ready, d) && resolved == SpentKeys(d)
  {
    hide Applied, Spent, Waiting;
    forall k
      ensures k in resolved <==> k in SpentKeys(d)
    {
      InSpentKeys(d, k);
      if Spent(d, k) {
        QuietSpent(ready, d, seen, resolved, k);
      }
    }
    forall op | Released(d, op) && ready(seen, op.body)
      ensures op.id in seen
    {
      if op.id !in seen {
        assert Untag(op, resolved) in Held(d, seen, resolved);
        if op.tx.Some? {
          InSpentKeys(d, KeyOf(op));
        }
        assert false;
      }
    }
    AppliedAll(ready, d, seen);
  }

  // ---- an arrival ----

  ghost predicate Admissible(op: Op) {
    op.tx.Some? ==> 1 <= op.tx.value.count
  }

  lemma MembersWith(d: set<Op>, op: Op, k: Key)
    ensures Members(d + {op}, k) == if InGroup(op, k) then Members(d, k) + {op} else Members(d, k)
  {
  }

  lemma QuietBelow(ready: Ready, d: set<Op>, seen: set<OpId>, resolved: set<Key>, k: Key, n: nat)
    requires Mid(ready, d, seen, resolved) && Quiet(ready, Held(d, seen, resolved), seen)
    requires k !in resolved && Members(d, k) != {} && Unanimous(Members(d, k), n)
    ensures |Members(d, k)| < n
  {
    hide Applied, Held;
    BucketIsGroup(ready, d, seen, resolved, k);
    var o :| o in Members(d, k);
    assert o in Members(Held(d, seen, resolved), k) && KeyOf(o) == k;
    var m: nat :| Unanimous(Members(d, k), m) && |Members(d, k)| != m;
    assert o.tx.value.count == n && o.tx.value.count == m;
  }

  /** A new op joins a replica held, ahead of any drain. A group member may push its bucket
      past its size unless the buckets had settled first. */
  lemma Arrives(ready: Ready, d: set<Op>, seen: set<OpId>, resolved: set<Key>, op: Op)
    requires Mid(ready, d, seen, resolved) && (op.tx.None? || Quiet(ready, Held(d, seen, resolved), seen))
    requires op.id !in Ids(d) && Admissible(op)
    ensures Mid(ready, d + {op}, seen, resolved)
    ensures Held(d + {op}, seen, resolved) == Held(d, seen, resolved) + {Untag(op, resolved)}
  {
    hide Applied, Quiet, Spent;
    var e := d + {op};
    AppliedGrows(ready, d, e);
    assert op.id !in seen by {
      AppliedIds(ready, d);
    }
    forall k | k in resolved ensures Spent(e, k) {
      SpentGrows(d, e, k);
    }
    forall k, n: nat | k !in resolved && Unanimous(Members(e, k), n) && Members(e, k) != {}
      ensures |Members(e, k)| <= n
    {
      MembersWith(d, op, k);
      if op.tx.Some? {
        ArrivesBelow(ready, d, seen, resolved, op, k, n);
      }
    }
    EnvelopeWith(d, op);
    HeldWith(d, seen, resolved, op);
  }

  lemma AppliedIds(ready: Ready, d: set<Op>)
    ensures Applied(ready, d) <= Ids(d)
  {
  }

  lemma EnvelopeWith(d: set<Op>, op: Op)
    requires SingleEnvelope(d) && op.id !in Ids(d)
    ensures SingleEnvelope(d + {op})
  {
    forall x | x in d ensures x.id in Ids(d) {}
  }

  lemma HeldWith(d: set<Op>, seen: set<OpId>, resolved: set<Key>, op: Op)
    requires op.id !in seen
    ensures Held(d + {op}, seen, resolved) == Held(d, seen, resolved) + {Untag(op, resolved)}
  {
    forall x
      ensures x in Held(d + {op}, seen, resolved) <==> x in Held(d, seen, resolved) || x == Untag(op, resolved)
    {
    }
  }

  lemma ArrivesBelow(ready: Ready, d: set<Op>, seen: set<OpId>, resolved: set<Key>, op: Op, k: Key, n: nat)
    requires Mid(ready, d, seen, resolved) && Quiet(ready, Held(d, seen, resolved), seen) && Admissible(op)
    requires k !in resolved && Members(d + {op}, k) != {} && Unanimous(Members(d + {op}, k), n)
    ensures |Members(d + {op}, k)| <= n
  {
    hide Mid, Quiet;
    MembersWith(d, op, k);
    if Members(d, k) == {} {
      assert Members(d + {op}, k) == {op};
    } else {
      assert Unanimous(Members(d, k), n);
      QuietBelow(ready, d, seen, resolved, k, n);
    }
  }
}
