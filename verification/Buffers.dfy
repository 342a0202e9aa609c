/** The buffer of held ops, its group buckets, and how a replica's record follows each step
    of a drain. */
module Buffers {
  import opened Stamps
  import opened Collections
  import opened Groups

  // ---- the buffer ----

  function Bag(buffer: seq<Op>): set<Op> {
    set i | 0 <= i < |buffer| :: buffer[i]
  }

  ghost predicate DistinctIds(buffer: seq<Op>) {
    forall i, j :: 0 <= i < j < |buffer| ==> buffer[i].id != buffer[j].id
  }

  /** How many buffered ops still wait on a group. */
  ghost function TaggedCount(buffer: seq<Op>): nat {
    if buffer == [] then 0
    else (if buffer[0].tx.Some? then 1 else 0) + TaggedCount(buffer[1..])
  }

  function RemoveAt(buffer: seq<Op>, i: nat): seq<Op>
    requires i < |buffer|
  {
    buffer[..i] + buffer[i + 1..]
  }

  lemma {:induction false} TaggedConcat(a: seq<Op>, b: seq<Op>)
    ensures TaggedCount(a + b) == TaggedCount(a) + TaggedCount(b)
  {
    if a == [] {
      assert a + b == b;
    } else {
      TaggedConcat(a[1..], b);
      assert (a + b)[1..] == a[1..] + b;
    }
  }

  lemma TaggedOne(op: Op)
    ensures TaggedCount([op]) == if op.tx.Some? then 1 else 0
  {
    assert [op][1..] == [];
  }

  lemma RemoveFacts(buffer: seq<Op>, i: nat)
    requires DistinctIds(buffer) && i < |buffer|
    ensures DistinctIds(RemoveAt(buffer, i))
    ensures Bag(RemoveAt(buffer, i)) == Bag(buffer) - {buffer[i]}
    ensures Ids(Bag(RemoveAt(buffer, i))) == Ids(Bag(buffer)) - {buffer[i].id}
    ensures TaggedCount(RemoveAt(buffer, i)) + (if buffer[i].tx.Some? then 1 else 0) == TaggedCount(buffer)
  {
    hide TaggedCount, Ids, Bag;
    RemoveBag(buffer, i);
    IdsWithout(buffer, i);
    RemoveTagged(buffer, i);
  }

  lemma RemoveTagged(buffer: seq<Op>, i: nat)
    requires i < |buffer|
    ensures TaggedCount(RemoveAt(buffer, i)) + (if buffer[i].tx.Some? then 1 else 0) == TaggedCount(buffer)
  {
    hide TaggedCount;
    assert buffer == buffer[..i] + [buffer[i]] + buffer[i + 1..];
    TaggedConcat(buffer[..i], buffer[i + 1..]);
    TaggedConcat(buffer[..i], [buffer[i]]);
    TaggedConcat(buffer[..i] + [buffer[i]], buffer[i + 1..]);
    TaggedOne(buffer[i]);
  }

  lemma RemoveBag(buffer: seq<Op>, i: nat)
    requires DistinctIds(buffer) && i < |buffer|
    ensures DistinctIds(RemoveAt(buffer, i))
    ensures Bag(RemoveAt(buffer, i)) == Bag(buffer) - {buffer[i]}
  {
    var r := RemoveAt(buffer, i);
    forall j | 0 <= j < |r|
      ensures r[j] == buffer[if j < i then j else j + 1]
    {
    }
    forall o
      ensures o in Bag(r) <==> o in Bag(buffer) && o != buffer[i]
    {
      if o in Bag(r) {
        var j :| 0 <= j < |r| && r[j] == o;
        assert buffer[if j < i then j else j + 1] == o;
      }
      if o in Bag(buffer) && o != buffer[i] {
        var j :| 0 <= j < |buffer| && buffer[j] == o;
        assert r[if j < i then j else j - 1] == o;
      }
    }
  }

  lemma IdsWithout(buffer: seq<Op>, i: nat)
    requires DistinctIds(buffer) && i < |buffer|
    ensures Ids(Bag(buffer) - {buffer[i]}) == Ids(Bag(buffer)) - {buffer[i].id}
  {
    forall o | o in Bag(buffer) && o.id == buffer[i].id
      ensures o == buffer[i]
    {
      var j :| 0 <= j < |buffer| && buffer[j] == o;
    }
    forall id
      ensures id in Ids(Bag(buffer) - {buffer[i]}) <==> id in Ids(Bag(buffer)) && id != buffer[i].id
    {
    }
  }

  lemma AppendFacts(buffer: seq<Op>, op: Op)
    requires DistinctIds(buffer) && op.id !in Ids(Bag(buffer))
    ensures DistinctIds(buffer + [op])
    ensures Bag(buffer + [op]) == Bag(buffer) + {op}
    ensures Ids(Bag(buffer + [op])) == Ids(Bag(buffer)) + {op.id}
    ensures TaggedCount(buffer + [op]) == TaggedCount(buffer) + if op.tx.Some? then 1 else 0
  {
    var r := buffer + [op];
    forall i | 0 <= i < |buffer| ensures buffer[i].id in Ids(Bag(buffer)) {
      assert buffer[i] in Bag(buffer);
    }
    forall o
      ensures o in Bag(r) <==> o in Bag(buffer) || o == op
    {
      if o in Bag(buffer) {
        var j :| 0 <= j < |buffer| && buffer[j] == o;
        assert r[j] == o;
      }
      assert r[|buffer|] == op;
    }
    TaggedConcat(buffer, [op]);
    TaggedOne(op);
  }

  /** Every buffered op untagged where its key is spent. */
  function UntagAll(buffer: seq<Op>, spent: set<Key>): (r: seq<Op>)
    ensures |r| == |buffer|
    ensures forall i :: 0 <= i < |buffer| ==> r[i] == Untag(buffer[i], spent)
  {
    seq(|buffer|, i requires 0 <= i < |buffer| => Untag(buffer[i], spent))
  }

  lemma UntagFacts(buffer: seq<Op>, spent: set<Key>)
    ensures DistinctIds(buffer) ==> DistinctIds(UntagAll(buffer, spent))
    ensures Bag(UntagAll(buffer, spent)) == set o | o in Bag(buffer) :: Untag(o, spent)
    ensures Ids(Bag(UntagAll(buffer, spent))) == Ids(Bag(buffer))
  {
    var r := UntagAll(buffer, spent);
    forall o | o in Bag(buffer)
      ensures Untag(o, spent) in Bag(r)
    {
      var i :| 0 <= i < |buffer| && buffer[i] == o;
      assert r[i] == Untag(o, spent);
    }
    forall o | o in Bag(r)
      ensures exists p :: p in Bag(buffer) && o == Untag(p, spent)
    {
      var i :| 0 <= i < |r| && r[i] == o;
      assert buffer[i] in Bag(buffer);
    }
    forall id
      ensures id in Ids(Bag(r)) <==> id in Ids(Bag(buffer))
    {
      if id in Ids(Bag(buffer)) {
        var o :| o in Bag(buffer) && o.id == id;
        assert Untag(o, spent).id == id;
      }
    }
  }

  lemma {:induction false} UntagCount(buffer: seq<Op>, spent: set<Key>)
    ensures TaggedCount(UntagAll(buffer, spent)) <= TaggedCount(buffer)
    ensures (exists i :: 0 <= i < |buffer| && buffer[i].tx.Some? && KeyOf(buffer[i]) in spent)
              ==> TaggedCount(UntagAll(buffer, spent)) < TaggedCount(buffer)
  {
    if buffer != [] {
      UntagCount(buffer[1..], spent);
      assert UntagAll(buffer, spent)[1..] == UntagAll(buffer[1..], spent);
      if i :| 0 <= i < |buffer| && buffer[i].tx.Some? && KeyOf(buffer[i]) in spent {
        if i > 0 {
          assert buffer[1..][i - 1] == buffer[i];
        }
      }
    }
  }

  // ---- clocks ----

  function MaxOf(a: nat, b: nat): nat {
    if a >= b then a else b
  }

  function MinOf(a: nat, b: nat): nat {
    if a <= b then a else b
  }

  /** The partition clocks once one of them has been raised to at least `to`. */
  function AdvanceZone(clocks: map<nat, nat>, z: nat, to: nat): map<nat, nat> {
    clocks[z := MaxOf(if z in clocks then clocks[z] else 0, to)]
  }

  /** The clock of one partition, zero if it has never been stamped. */
  function ClockOf(lamport: nat, clocks: map<nat, nat>, zone: Option<nat>): nat {
    match zone
    case None => lamport
    case Some(z) => if z in clocks then clocks[z] else 0
  }

  /** An author's high-water once a reservation ending at `reach` is recorded. */
  function Recorded(high: map<nat, nat>, client: nat, reach: nat): map<nat, nat> {
    if reach == 0 then high
    else high[client := MaxOf(if client in high then high[client] else 0,
                              MinOf(reach, STATE_CEILING))]
  }

  ghost predicate ClocksOf(d: set<Op>, seen: set<OpId>, lamport: nat, zones: map<nat, nat>) {
    && IsMax(InZone(d, seen, None), ClockReach, lamport)
    && (forall z :: z in zones <==> InZone(d, seen, Some(z)) != {})
    && (forall z :: z in zones ==> IsMax(InZone(d, seen, Some(z)), ClockReach, zones[z]))
  }

  ghost predicate HighOf(d: set<Op>, high: map<nat, nat>) {
    && (forall c :: c in high <==> ByClient(d, c) != {})
    && (forall c :: c in high ==> IsMax(ByClient(d, c), Reach, high[c]))
  }

  lemma MaxMore(s: set<Op>, f: Op -> nat, v: nat, op: Op)
    requires IsMax(s, f, v)
    ensures IsMax(s + {op}, f, MaxOf(v, f(op)))
  {
    var w := MaxOf(v, f(op));
    if w != 0 {
      if f(op) == w {
        assert op in s + {op};
      } else {
        var o :| o in s && f(o) == v;
        assert o in s + {op};
      }
    }
  }

  lemma ZoneMore(d: set<Op>, seen: set<OpId>, op: Op, z: Option<nat>)
    requires SingleEnvelope(d) && op in d
    ensures InZone(d, seen + {op.id}, z) == if op.zone == z then InZone(d, seen, z) + {op} else InZone(d, seen, z)
  {
    forall o
      ensures o in InZone(d, seen + {op.id}, z) <==> o in InZone(d, seen, z) || (op.zone == z && o == op)
    {
    }
  }

  /** Applying an op moves its own partition's clock, to the greatest reach applied there. */
  lemma ClocksMore(d: set<Op>, seen: set<OpId>, lamport: nat, zones: map<nat, nat>, op: Op)
    requires SingleEnvelope(d) && op in d && ClocksOf(d, seen, lamport, zones)
    ensures op.zone.None? ==> ClocksOf(d, seen + {op.id}, MaxOf(lamport, ClockReach(op)), zones)
    ensures op.zone.Some? ==> ClocksOf(d, seen + {op.id}, lamport, AdvanceZone(zones, op.zone.value, ClockReach(op)))
  {
    hide IsMax, InZone, ClockReach;
    forall z: Option<nat> {:trigger InZone(d, seen + {op.id}, z)}
      ensures InZone(d, seen + {op.id}, z) == if op.zone == z then InZone(d, seen, z) + {op} else InZone(d, seen, z)
    {
      ZoneMore(d, seen, op, z);
    }
    match op.zone {
      case None =>
        MaxMore(InZone(d, seen, None), ClockReach, lamport, op);
      case Some(z) =>
        NoneMax(InZone(d, seen, Some(z)));
        MaxMore(InZone(d, seen, Some(z)), ClockReach, if z in zones then zones[z] else 0, op);
    }
  }

  lemma NoneMax(s: set<Op>)
    ensures s == {} ==> IsMax(s, ClockReach, 0) && IsMax(s, Reach, 0)
  {
  }

  /** A delivered op's reservation is recorded against its author. */
  lemma HighMore(d: set<Op>, high: map<nat, nat>, op: Op)
    requires HighOf(d, high) && Reach(op) <= STATE_CEILING
    ensures HighOf(d + {op}, Recorded(high, op.stamp.client, Reach(op)))
  {
    hide IsMax, Reach;
    forall c
      ensures ByClient(d + {op}, c) ==
                if c == op.stamp.client && Reach(op) > 0 then ByClient(d, c) + {op} else ByClient(d, c)
    {
    }
    var c := op.stamp.client;
    NoneMax(ByClient(d, c));
    MaxMore(ByClient(d, c), Reach, if c in high then high[c] else 0, op);
  }

  /** Recording it again changes nothing. */
  lemma HighAgain(d: set<Op>, high: map<nat, nat>, op: Op)
    requires HighOf(d, high) && op in d && Reach(op) <= STATE_CEILING
    ensures Recorded(high, op.stamp.client, Reach(op)) == high
  {
    if Reach(op) > 0 {
      assert op in ByClient(d, op.stamp.client);
      assert high[op.stamp.client] >= Reach(op);
    }
  }

  // ---- admission ----

  const MAX_TX_MEMBERS: nat := 1000

  /** Whether any replica may hold an op at all: its stamp names its author, lies inside the
      id space off the sub-lamport dimension, and its group size is representable. */
  predicate IsAdmissible(op: Op) {
    && op.stamp.client == op.id.client
    && op.stamp.offset == 0 && Reach(op) <= STATE_CEILING
    && (op.tx.Some? ==> 1 <= op.tx.value.count <= MAX_TX_MEMBERS)
  }

  lemma AdmissibleIff(op: Op)
    ensures IsAdmissible(op) <==>
            && op.stamp.client == op.id.client && op.stamp.offset == 0
            && op.stamp.lamport + op.span - 1 <= 0x7fff_ffff_ffff_ffff
            && (op.tx.None? || 1 <= op.tx.value.count <= 1000)
  {
  }

  ghost predicate AllAdmissible(d: set<Op>) {
    forall op :: op in d ==> IsAdmissible(op)
  }

  /** A replica's fields agree with having received exactly the ops in `d`, part-way
      through settling them. */
  ghost predicate Tracking(ready: Ready, d: set<Op>, seen: set<OpId>, held: set<Op>, resolved: set<Key>,
                           lamport: nat, zones: map<nat, nat>, high: map<nat, nat>) {
    && Mid(ready, d, seen, resolved) && held == Held(d, seen, resolved)
    && AllAdmissible(d) && ClocksOf(d, seen, lamport, zones) && HighOf(d, high)
  }

  lemma HeldSource(d: set<Op>, seen: set<OpId>, resolved: set<Key>, o: Op) returns (op: Op)
    requires o in Held(d, seen, resolved)
    ensures op in d && op.id !in seen && o == Untag(op, resolved)
    ensures op.id == o.id && op.stamp == o.stamp && op.zone == o.zone && Reach(op) == Reach(o)
    ensures ClockReach(op) == ClockReach(o)
  {
    op :| op in d && op.id !in seen && o == Untag(op, resolved);
  }

  /** Taking a ready, untagged op off the buffer and applying it keeps the record exact. */
  lemma TrackApply(ready: Ready, d: set<Op>, seen: set<OpId>, held: set<Op>, resolved: set<Key>,
                   lamport: nat, zones: map<nat, nat>, high: map<nat, nat>, o: Op)
    requires Tracking(ready, d, seen, held, resolved, lamport, zones, high)
    requires o in held && o.tx.None? && ready(seen, o.body)
    ensures var l := if o.zone.None? then MaxOf(lamport, ClockReach(o)) else lamport;
            var z := if o.zone.Some? then AdvanceZone(zones, o.zone.value, ClockReach(o)) else zones;
            Tracking(ready, d, seen + {o.id}, held - {o}, resolved, l, z, Recorded(high, o.stamp.client, Reach(o)))
  {
    hide Mid, Held, ClocksOf, HighOf, ClockReach, Reach;
    StepApply(ready, d, seen, resolved, o);
    var op := HeldSource(d, seen, resolved, o);
    MidEnvelope(ready, d, seen, resolved);
    ClocksMore(d, seen, lamport, zones, op);
    HighAgain(d, high, op);
  }

  lemma MidEnvelope(ready: Ready, d: set<Op>, seen: set<OpId>, resolved: set<Key>)
    requires Mid(ready, d, seen, resolved)
    ensures SingleEnvelope(d)
  {
  }

  lemma TrackSpend(ready: Ready, d: set<Op>, seen: set<OpId>, held: set<Op>, resolved: set<Key>,
                   lamport: nat, zones: map<nat, nat>, high: map<nat, nat>, ks: set<Key>)
    requires Tracking(ready, d, seen, held, resolved, lamport, zones, high)
    requires forall k :: k in ks ==> Resolves(Members(held, k))
    ensures Tracking(ready, d, seen, set o | o in held :: Untag(o, resolved + ks), resolved + ks, lamport, zones, high)
  {
    hide Mid, Held, ClocksOf, HighOf;
    forall k | k in ks ensures Spent(d, k) {
      BucketIsGroup(ready, d, seen, resolved, k);
    }
    StepSpend(ready, d, seen, resolved, ks);
  }

  // ---- buckets ----

  /** The positions of a group's buffered members, ascending. */
  ghost predicate Positions(buffer: seq<Op>, k: Key, idxs: seq<nat>) {
    && (forall i, j :: 0 <= i < j < |idxs| ==> idxs[i] < idxs[j])
    && (forall i: nat :: i in idxs <==> i < |buffer| && InGroup(buffer[i], k))
  }

  ghost predicate BucketsOf(buffer: seq<Op>, groups: map<Key, seq<nat>>) {
    && (forall k :: k in groups ==> groups[k] != [] && Positions(buffer, k, groups[k]))
    && (forall i :: 0 <= i < |buffer| && buffer[i].tx.Some? ==> KeyOf(buffer[i]) in groups)
  }

  /** The buffer positions of every held group member, by group key. */
  method TxBuckets(buffer: seq<Op>) returns (groups: map<Key, seq<nat>>)
    ensures BucketsOf(buffer, groups)
  {
    groups := map[];
    var i := 0;
    while i < |buffer|
      invariant 0 <= i <= |buffer|
      invariant BucketsOf(buffer[..i], groups)
    {
      BucketPush(buffer, i, groups);
      if buffer[i].tx.Some? {
        var k := KeyOf(buffer[i]);
        groups := groups[k := (if k in groups then groups[k] else []) + [i]];
      }
      i := i + 1;
    }
    assert buffer[..i] == buffer;
  }

  lemma BucketPush(buffer: seq<Op>, i: nat, groups: map<Key, seq<nat>>)
    requires i < |buffer| && BucketsOf(buffer[..i], groups)
    ensures buffer[i].tx.None? ==> BucketsOf(buffer[..i + 1], groups)
    ensures buffer[i].tx.Some? ==> var k := KeyOf(buffer[i]);
              BucketsOf(buffer[..i + 1], groups[k := (if k in groups then groups[k] else []) + [i]])
  {
    var b, c := buffer[..i], buffer[..i + 1];
    forall j | 0 <= j < i ensures c[j] == b[j] {}
    var next := if buffer[i].tx.None? then groups else
                  var k := KeyOf(buffer[i]);
                  groups[k := (if k in groups then groups[k] else []) + [i]];
    forall k | k in next
      ensures next[k] != [] && Positions(c, k, next[k])
    {
      PositionsPush(buffer, i, k, if k in groups then groups[k] else []);
    }
  }

  lemma PositionsPush(buffer: seq<Op>, i: nat, k: Key, idxs: seq<nat>)
    requires i < |buffer|
    requires Positions(buffer[..i], k, idxs) || (idxs == [] && forall j :: 0 <= j < i ==> !InGroup(buffer[j], k))
    ensures InGroup(buffer[i], k) ==> Positions(buffer[..i + 1], k, idxs + [i])
    ensures !InGroup(buffer[i], k) ==> Positions(buffer[..i + 1], k, idxs)
  {
    var b, c := buffer[..i], buffer[..i + 1];
    assert Positions(b, k, idxs);
    forall a | 0 <= a < |idxs| ensures idxs[a] < i {
      assert idxs[a] in idxs;
    }
    forall j: nat
      ensures j in idxs + [i] <==> j in idxs || j == i
      ensures j in idxs <==> j < i && InGroup(c[j], k)
    {
    }
  }

  lemma BucketMembers(buffer: seq<Op>, k: Key, idxs: seq<nat>)
    requires DistinctIds(buffer) && Positions(buffer, k, idxs)
    ensures forall j :: 0 <= j < |idxs| ==> idxs[j] < |buffer| && InGroup(buffer[idxs[j]], k)
    ensures Members(Bag(buffer), k) == set j | 0 <= j < |idxs| :: buffer[idxs[j]]
    ensures |Members(Bag(buffer), k)| == |idxs|
  {
    forall j | 0 <= j < |idxs| ensures idxs[j] < |buffer| && InGroup(buffer[idxs[j]], k) {
      assert idxs[j] in idxs;
    }
    var ms := set j | 0 <= j < |idxs| :: buffer[idxs[j]];
    forall o
      ensures o in Members(Bag(buffer), k) <==> o in ms
    {
      if o in Members(Bag(buffer), k) {
        var i :| 0 <= i < |buffer| && buffer[i] == o;
        assert i in idxs;
        var j :| 0 <= j < |idxs| && idxs[j] == i;
      }
      if o in ms {
        var j :| 0 <= j < |idxs| && buffer[idxs[j]] == o;
        assert o in Bag(buffer);
      }
    }
    CountPositions(buffer, idxs, |idxs|);
  }

  lemma {:induction false} CountPositions(buffer: seq<Op>, idxs: seq<nat>, n: nat)
    requires DistinctIds(buffer) && n <= |idxs|
    requires forall i, j :: 0 <= i < j < |idxs| ==> idxs[i] < idxs[j]
    requires forall j :: 0 <= j < |idxs| ==> idxs[j] < |buffer|
    ensures |set j | 0 <= j < n :: buffer[idxs[j]]| == n
  {
    if n > 0 {
      CountPositions(buffer, idxs, n - 1);
      var a := set j | 0 <= j < n - 1 :: buffer[idxs[j]];
      var b := set j | 0 <= j < n :: buffer[idxs[j]];
      assert buffer[idxs[n - 1]] !in a;
      assert b == a + {buffer[idxs[n - 1]]};
    }
  }

  /** The size a bucket's members declare, or `None` without unanimity. */
  method TxDeclaredCount(buffer: seq<Op>, idxs: seq<nat>) returns (count: Option<nat>)
    requires idxs != [] && forall j :: 0 <= j < |idxs| ==> idxs[j] < |buffer| && buffer[idxs[j]].tx.Some?
    ensures count.Some? ==> AllDeclare(buffer, idxs, count.value)
    ensures count.None? ==> forall n: nat :: !AllDeclare(buffer, idxs, n)
  {
    var first := buffer[idxs[0]].tx.value.count;
    var j := 1;
    while j < |idxs|
      invariant 1 <= j <= |idxs|
      invariant forall i :: 0 <= i < j ==> buffer[idxs[i]].tx.value.count == first
    {
      if buffer[idxs[j]].tx.value.count != first {
        return None;
      }
      j := j + 1;
    }
    return Some(first);
  }

  ghost predicate AllDeclare(buffer: seq<Op>, idxs: seq<nat>, n: nat) {
    forall j :: 0 <= j < |idxs| ==>
      idxs[j] < |buffer| && buffer[idxs[j]].tx.Some? && buffer[idxs[j]].tx.value.count == n
  }

  /** The bucket's verdict in terms of its members. */
  method JudgeBucket(buffer: seq<Op>, k: Key, idxs: seq<nat>) returns (count: Option<nat>)
    requires DistinctIds(buffer) && idxs != [] && Positions(buffer, k, idxs)
    ensures var ms := Members(Bag(buffer), k);
            && ms != {} && |ms| == |idxs|
            && (count.Some? ==> Unanimous(ms, count.value))
            && (count.None? ==> forall n: nat :: !Unanimous(ms, n))
  {
    hide DistinctIds, Positions;
    BucketMembers(buffer, k, idxs);
    ghost var ms := Members(Bag(buffer), k);
    count := TxDeclaredCount(buffer, idxs);
    assert buffer[idxs[0]] in ms;
    if count.None? {
      forall n: nat ensures !Unanimous(ms, n) {
        if Unanimous(ms, n) {
          DeclaredAll(buffer, k, idxs, n);
          assert false;
        }
      }
    }
  }

  lemma DeclaredAll(buffer: seq<Op>, k: Key, idxs: seq<nat>, n: nat)
    requires forall j :: 0 <= j < |idxs| ==> idxs[j] < |buffer| && InGroup(buffer[idxs[j]], k)
    requires Unanimous(Members(Bag(buffer), k), n)
    ensures AllDeclare(buffer, idxs, n)
  {
    forall j | 0 <= j < |idxs| ensures buffer[idxs[j]].tx.value.count == n {
      assert buffer[idxs[j]] in Members(Bag(buffer), k);
    }
  }

  // ---- members in author order ----

  ghost predicate ByNumber(ops: seq<Op>) {
    forall i, j :: 0 <= i < j < |ops| ==> ops[i].id.number <= ops[j].id.number
  }

  /** A group's members sorted by their op sequence. */
  method SortByNumber(ops: seq<Op>) returns (r: seq<Op>)
    ensures ByNumber(r) && multiset(r) == multiset(ops)
  {
    r := [];
    var k := 0;
    while k < |ops|
      invariant 0 <= k <= |ops|
      invariant ByNumber(r) && multiset(r) == multiset(ops[..k])
    {
      r := InsertByNumber(r, ops[k]);
      assert ops[..k + 1] == ops[..k] + [ops[k]];
      k := k + 1;
    }
    assert ops[..k] == ops;
  }

  method InsertByNumber(ops: seq<Op>, op: Op) returns (r: seq<Op>)
    requires ByNumber(ops)
    ensures ByNumber(r) && multiset(r) == multiset(ops) + multiset{op}
  {
    var i := 0;
    while i < |ops| && ops[i].id.number <= op.id.number
      invariant 0 <= i <= |ops|
      invariant forall j :: 0 <= j < i ==> ops[j].id.number <= op.id.number
    {
      i := i + 1;
    }
    InsertedSorted(ops, i, op);
    r := ops[..i] + [op] + ops[i..];
  }

  lemma InsertedSorted(ops: seq<Op>, i: nat, op: Op)
    requires ByNumber(ops) && i <= |ops|
    requires forall j :: 0 <= j < i ==> ops[j].id.number <= op.id.number
    requires i < |ops| ==> op.id.number <= ops[i].id.number
    ensures ByNumber(ops[..i] + [op] + ops[i..])
    ensures multiset(ops[..i] + [op] + ops[i..]) == multiset(ops) + multiset{op}
  {
    assert ops == ops[..i] + ops[i..];
    InsertedOrder(ops, i, op);
  }

  lemma InsertedOrder(ops: seq<Op>, i: nat, op: Op)
    requires ByNumber(ops) && i <= |ops|
    requires forall j :: 0 <= j < i ==> ops[j].id.number <= op.id.number
    requires i < |ops| ==> op.id.number <= ops[i].id.number
    ensures ByNumber(ops[..i] + [op] + ops[i..])
  {
    var r := ops[..i] + [op] + ops[i..];
    forall j | i <= j < |ops| ensures op.id.number <= ops[j].id.number {}
    forall a, b | 0 <= a < b < |r|
      ensures r[a].id.number <= r[b].id.number
    {
      assert r[a] == if a < i then ops[a] else if a == i then op else ops[a - 1];
      assert r[b] == if b < i then ops[b] else if b == i then op else ops[b - 1];
    }
  }

  lemma {:induction false} SameBag(a: seq<Op>, b: seq<Op>)
    requires multiset(a) == multiset(b)
    ensures Bag(a) == Bag(b)
  {
    forall o
      ensures o in Bag(a) <==> o in Bag(b)
    {
      assert o in Bag(a) <==> o in a;
      assert o in Bag(b) <==> o in b;
      assert o in a <==> o in multiset(a);
      assert o in b <==> o in multiset(b);
    }
  }

  lemma SameDistinct(a: seq<Op>, b: seq<Op>)
    requires multiset(a) == multiset(b) && DistinctIds(a)
    ensures DistinctIds(b)
  {
    SameBag(a, b);
    forall i, j | 0 <= i < j < |b|
      ensures b[i].id != b[j].id
    {
      if b[i].id == b[j].id {
        assert b[i] in Bag(b) && b[j] in Bag(b);
        OneHolds(a, b[i], b[j]);
        TwiceIn(b, i, j);
        OnceIn(a, b[i]);
        assert false;
      }
    }
  }

  lemma OneHolds(a: seq<Op>, x: Op, y: Op)
    requires DistinctIds(a) && x in Bag(a) && y in Bag(a) && x.id == y.id
    ensures x == y
  {
  }

  lemma TwiceIn(b: seq<Op>, i: nat, j: nat)
    requires i < j < |b| && b[i] == b[j]
    ensures multiset(b)[b[i]] >= 2
  {
    assert b == b[..i] + [b[i]] + b[i + 1..j] + [b[j]] + b[j + 1..];
  }

  lemma {:induction false} OnceIn(a: seq<Op>, x: Op)
    requires DistinctIds(a)
    ensures multiset(a)[x] <= 1
  {
    if a != [] {
      var init := a[..|a| - 1];
      assert a == init + [a[|a| - 1]];
      OnceIn(init, x);
      if a[|a| - 1] == x {
        assert x !in init;
        assert multiset(init)[x] == 0;
      }
    }
  }

  // ---- the replica ----

  ghost predicate BufferValid(buffer: seq<Op>, buffered: set<OpId>, resolved: set<Key>) {
    && DistinctIds(buffer) && buffered == Ids(Bag(buffer)) && AllAdmissible(Bag(buffer))
    && forall op :: op in Bag(buffer) && op.tx.Some? ==> KeyOf(op) !in resolved
  }

  ghost predicate Apart(seen: set<OpId>, buffered: set<OpId>, reserved: set<OpId>) {
    seen !! buffered && seen !! reserved && buffered !! reserved
  }

  /** The interval an op of this author occupies. */
  ghost function Reserve(client: nat, stamp: Stamp, span: Span): set<(nat, nat)> {
    if stamp.client == client then {(stamp.lamport, ReservationEnd(stamp.lamport, span))} else {}
  }

  function HighAt(high: map<nat, nat>, client: nat): nat {
    if client in high then high[client] else 0
  }

  /** Every recorded interval ends at or below the high-water. */
  ghost predicate Covered(reservations: set<(nat, nat)>, high: nat) {
    forall r :: r in reservations ==> r.1 <= high
  }

  /** Recording keeps the high-water above every interval, the new one included. */
  lemma RecordCovers(reservations: set<(nat, nat)>, high: map<nat, nat>, client: nat, stamp: Stamp, span: Span)
    requires Covered(reservations, HighAt(high, client)) && ReservationEnd(stamp.lamport, span) <= STATE_CEILING
    ensures Covered(reservations + Reserve(client, stamp, span),
                    HighAt(Recorded(high, stamp.client, ReservationEnd(stamp.lamport, span)), client))
  {
  }

  lemma GroupResolves(buffer: seq<Op>, k: Key, idxs: seq<nat>)
    requires DistinctIds(buffer) && idxs != [] && Positions(buffer, k, idxs) && Complete(Members(Bag(buffer), k))
    ensures Resolves(Members(Bag(buffer), k))
  {
    hide DistinctIds, Positions;
    BucketMembers(buffer, k, idxs);
    var ms := Members(Bag(buffer), k);
    var o :| o in ms;
  }

  lemma Permuted(buffer: seq<Op>, other: seq<Op>, buffered: set<OpId>, resolved: set<Key>)
    requires BufferValid(buffer, buffered, resolved) && multiset(other) == multiset(buffer)
    ensures BufferValid(other, buffered, resolved) && Bag(other) == Bag(buffer)
  {
    hide DistinctIds, AllAdmissible;
    SameBag(buffer, other);
    SameDistinct(buffer, other);
  }

  /** Taking a group out of the buffer and spending its key rearranges what is held. */
  /** Taking a group out of the buffer leaves every other group as it was. */
  lemma RestWaits(buffer: seq<Op>, rest: seq<Op>, taken: seq<Op>, k: Key, spent: set<Key>)
    requires multiset(rest + taken) == multiset(buffer) && k in spent
    requires forall i :: 0 <= i < |taken| ==> InGroup(taken[i], k)
    ensures StillWaits(Bag(buffer), Bag(UntagAll(rest, spent)), spent)
  {
    UntagWaits(rest, spent);
    forall o | o in Bag(buffer) && o.tx.Some? && KeyOf(o) !in spent
      ensures o in Bag(rest)
    {
      assert o in multiset(buffer);
      assert o in rest + taken;
      assert o in taken ==> InGroup(o, k);
      assert o in rest;
    }
    StillWaitsOn(Bag(buffer), Bag(rest), Bag(UntagAll(rest, spent)), spent, spent);
  }

  lemma CommitStart(buffer: seq<Op>, buffered: set<OpId>, resolved: set<Key>, k: Key,
                    rest: seq<Op>, taken: seq<Op>, members: seq<Op>)
    requires BufferValid(buffer, buffered, resolved) && multiset(rest + taken) == multiset(buffer)
    requires multiset(members) == multiset(taken) && taken != []
    requires forall i :: 0 <= i < |taken| ==> InGroup(taken[i], k)
    requires TaggedCount(rest) + |taken| == TaggedCount(buffer)
    ensures var all := resolved + {k}; var held := UntagAll(rest, all) + UntagAll(members[0..], all);
            && BufferValid(held, buffered, all)
            && Bag(held) == (set o | o in Bag(buffer) :: Untag(o, all))
            && TaggedCount(UntagAll(rest, all)) < TaggedCount(buffer)
            && (forall i :: 0 <= i < |members| ==> InGroup(members[i], k))
            && StillWaits(Bag(buffer), Bag(UntagAll(rest, all)), all)
  {
    hide TaggedCount, Untag, BufferValid, Bag, StillWaits;
    var all := resolved + {k};
    RestWaits(buffer, rest, taken, k, all);
    assert multiset(rest + members) == multiset(buffer);
    Permuted(buffer, rest + members, buffered, resolved);
    BufferUntag(rest + members, buffered, resolved, {k});
    assert UntagAll(rest + members, all) == UntagAll(rest, all) + UntagAll(members, all);
    assert members[0..] == members;
    UntagCount(rest, all);
    StillInGroup(taken, members, k);
  }

  lemma StillInGroup(taken: seq<Op>, members: seq<Op>, k: Key)
    requires multiset(members) == multiset(taken) && forall i :: 0 <= i < |taken| ==> InGroup(taken[i], k)
    ensures forall i :: 0 <= i < |members| ==> InGroup(members[i], k)
  {
    SameBag(members, taken);
    forall i | 0 <= i < |members| ensures InGroup(members[i], k) {
      assert members[i] in Bag(members);
    }
  }

  lemma CommitNext(buffer: seq<Op>, buffered: set<OpId>, resolved: set<Key>, members: seq<Op>, j: nat, k: Key)
    requires j < |members| && InGroup(members[j], k) && k in resolved
    requires BufferValid(buffer + UntagAll(members[j..], resolved), buffered, resolved)
    ensures var op, free, tail := members[j], Untag(members[j], resolved), UntagAll(members[j + 1..], resolved);
            && buffer + UntagAll(members[j..], resolved) == buffer + [free] + tail
            && free == op.(tx := None) && op.id in buffered && buffered + {free.id} == buffered
            && Reach(op) <= STATE_CEILING
            && Reach(op) == Reach(free) && ClockReach(op) == ClockReach(free)
            && free in Bag(buffer + [free] + tail)
            && Bag(buffer + tail) == Bag(buffer + [free] + tail) - {free}
            && BufferValid(buffer + tail, buffered - {op.id}, resolved)
            && TaggedCount(buffer + [free]) == TaggedCount(buffer)
            && Bag(buffer) <= Bag(buffer + [free])
  {
    hide TaggedCount, BufferValid, Bag;
    var free, tail := Untag(members[j], resolved), UntagAll(members[j + 1..], resolved);
    var whole := buffer + [free] + tail;
    assert buffer + UntagAll(members[j..], resolved) == whole;
    BufferRemove(whole, buffered, resolved, |buffer|);
    assert RemoveAt(whole, |buffer|) == buffer + tail;
    TaggedConcat(buffer, [free]);
    TaggedOne(free);
    BagMore(buffer, free);
  }

  lemma CommitEnd(buffer: seq<Op>, members: seq<Op>, resolved: set<Key>)
    ensures buffer + UntagAll(members[|members|..], resolved) == buffer
  {
  }

  lemma HeldAtPosition(buffer: seq<Op>, id: OpId, i: nat)
    requires DistinctIds(buffer) && id in Ids(Bag(buffer)) && i <= |buffer|
    requires forall j :: 0 <= j < i ==> buffer[j].id != id
    requires i < |buffer| ==> buffer[i].id == id
    ensures i < |buffer| && forall o :: o in Bag(buffer) && o.id == id ==> o == buffer[i]
  {
  }

  lemma BucketAt(buffer: seq<Op>, groups: map<Key, seq<nat>>, k: Key)
    requires BucketsOf(buffer, groups) && k in groups
    ensures groups[k] != [] && Positions(buffer, k, groups[k])
  {
  }

  lemma NothingMoves(ready: Ready, buffer: seq<Op>, seen: set<OpId>, groups: map<Key, seq<nat>>)
    requires BucketsOf(buffer, groups)
    requires forall o :: o in Bag(buffer) && o.tx.None? ==> !ready(seen, o.body)
    requires forall k :: k in groups ==> Agreed(Members(Bag(buffer), k)) && !Complete(Members(Bag(buffer), k))
    ensures Quiet(ready, Bag(buffer), seen)
  {
    hide Unanimous, Members;
    forall o | o in Bag(buffer) && o.tx.Some?
      ensures Waiting(Members(Bag(buffer), KeyOf(o)))
    {
      var i :| 0 <= i < |buffer| && buffer[i] == o;
      var n: nat :| Unanimous(Members(Bag(buffer), KeyOf(o)), n);
    }
  }

  lemma BufferAdd(buffer: seq<Op>, buffered: set<OpId>, resolved: set<Key>, op: Op)
    requires BufferValid(buffer, buffered, resolved) && op.id !in buffered && IsAdmissible(op)
    requires op.tx.Some? ==> KeyOf(op) !in resolved
    ensures BufferValid(buffer + [op], buffered + {op.id}, resolved) && Bag(buffer + [op]) == Bag(buffer) + {op}
    ensures op !in Bag(buffer)
  {
    hide TaggedCount;
    AppendFacts(buffer, op);
  }

  /** An op already received changes nothing it had decided. */
  lemma KnownOp(ready: Ready, d: set<Op>, seen: set<OpId>, buffer: seq<Op>, buffered: set<OpId>, resolved: set<Key>,
                lamport: nat, zones: map<nat, nat>, high: map<nat, nat>, op: Op)
    requires Tracking(ready, d, seen, Bag(buffer), resolved, lamport, zones, high) && SingleEnvelope(d + {op})
    requires BufferValid(buffer, buffered, resolved) && (op.id in seen || op.id in buffered)
    ensures op in d && d + {op} == d
    ensures op.id in buffered ==> exists o :: o in Bag(buffer) && o.id == op.id && (o.tx.None? || o.tx == op.tx)
  {
    hide Mid, ClocksOf, HighOf, DistinctIds, AllAdmissible, Applied;
    MidIds(ready, d, seen, resolved);
    if op.id in buffered {
      var o :| o in Bag(buffer) && o.id == op.id;
      var source := HeldSource(d, seen, resolved, o);
      assert source in d + {op} && op in d + {op};
    } else {
      var source := OpAt(d, op.id);
      assert source in d + {op} && op in d + {op};
    }
  }

  lemma MidIds(ready: Ready, d: set<Op>, seen: set<OpId>, resolved: set<Key>)
    requires Mid(ready, d, seen, resolved)
    ensures seen <= Ids(d)
  {
    AppliedIds(ready, d);
  }

  lemma HeldIds(d: set<Op>, seen: set<OpId>, resolved: set<Key>, id: OpId)
    requires id in Ids(d) && id !in seen
    ensures id in Ids(Held(d, seen, resolved))
  {
    var op := OpAt(d, id);
    assert Untag(op, resolved) in Held(d, seen, resolved) && Untag(op, resolved).id == id;
  }

  /** A new op is held, untagged if its key is spent, with its reservation recorded. */
  lemma NewOp(ready: Ready, d: set<Op>, seen: set<OpId>, buffer: seq<Op>, buffered: set<OpId>, resolved: set<Key>,
              lamport: nat, zones: map<nat, nat>, high: map<nat, nat>, op: Op)
    requires Tracking(ready, d, seen, Bag(buffer), resolved, lamport, zones, high)
    requires op.tx.None? || Quiet(ready, Bag(buffer), seen)
    requires BufferValid(buffer, buffered, resolved) && op.id !in seen && op.id !in buffered && IsAdmissible(op)
    ensures Tracking(ready, d + {op}, seen, Bag(buffer) + {Untag(op, resolved)}, resolved, lamport, zones,
                     Recorded(high, op.stamp.client, Reach(op)))
  {
    hide Mid, Held, Quiet, ClocksOf, HighOf, DistinctIds, Reach, Recorded;
    if op.id in Ids(d) {
      HeldIds(d, seen, resolved, op.id);
      assert false;
    }
    Arrives(ready, d, seen, resolved, op);
    HighMore(d, high, op);
    ClocksElsewhere(d, seen, lamport, zones, op);
  }

  lemma ClocksElsewhere(d: set<Op>, seen: set<OpId>, lamport: nat, zones: map<nat, nat>, op: Op)
    requires op.id !in seen && ClocksOf(d, seen, lamport, zones)
    ensures ClocksOf(d + {op}, seen, lamport, zones)
  {
    hide IsMax;
    forall z ensures InZone(d + {op}, seen, z) == InZone(d, seen, z) {}
  }

  /** A new op applied at once, rather than held. */
  lemma NewApplied(ready: Ready, e: set<Op>, seen: set<OpId>, held: set<Op>, resolved: set<Key>,
                   lamport: nat, zones: map<nat, nat>, high: map<nat, nat>, o: Op)
    requires Tracking(ready, e, seen, held + {o}, resolved, lamport, zones, Recorded(high, o.stamp.client, Reach(o)))
    requires o !in held && o.tx.None? && ready(seen, o.body)
    ensures var l := if o.zone.None? then MaxOf(lamport, ClockReach(o)) else lamport;
            var z := if o.zone.Some? then AdvanceZone(zones, o.zone.value, ClockReach(o)) else zones;
            Tracking(ready, e, seen + {o.id}, held, resolved, l, z, Recorded(high, o.stamp.client, Reach(o)))
  {
    hide Tracking, Reach, ClockReach;
    var high' := Recorded(high, o.stamp.client, Reach(o));
    TrackApply(ready, e, seen, held + {o}, resolved, lamport, zones, high', o);
    assert held + {o} - {o} == held;
    assert Recorded(high', o.stamp.client, Reach(o)) == high';
  }

  lemma StillQuiet(ready: Ready, buffer: seq<Op>, seen: set<OpId>, op: Op)
    requires Quiet(ready, Bag(buffer), seen) && op.tx.None? && !ready(seen, op.body)
    ensures Quiet(ready, Bag(buffer) + {op}, seen)
  {
    hide Waiting;
    forall o | o in Bag(buffer) && o.tx.Some?
      ensures Members(Bag(buffer) + {op}, KeyOf(o)) == Members(Bag(buffer), KeyOf(o))
    {
    }
  }

  lemma BufferDistinct(buffer: seq<Op>, buffered: set<OpId>, resolved: set<Key>)
    requires BufferValid(buffer, buffered, resolved)
    ensures DistinctIds(buffer)
  {
  }

  /** The keys of the buckets whose members disagree on the group's size. */
  method DisagreeingKeys(buffer: seq<Op>, groups: map<Key, seq<nat>>) returns (split: set<Key>)
    requires DistinctIds(buffer) && BucketsOf(buffer, groups)
    ensures split <= groups.Keys
    ensures forall k :: k in groups ==>
              Members(Bag(buffer), k) != {} && (k in split <==> !Agreed(Members(Bag(buffer), k)))
  {
    hide Bag, Positions, Unanimous, DistinctIds, Members;
    split := {};
    var rest := groups.Keys;
    while rest != {}
      invariant rest <= groups.Keys && split <= groups.Keys - rest
      invariant forall k :: k in groups.Keys - rest ==> Members(Bag(buffer), k) != {}
      invariant forall k :: k in groups.Keys - rest ==> (k in split <==> !Agreed(Members(Bag(buffer), k)))
      decreases |rest|
    {
      var k :| k in rest;
      var count := JudgeBucket(buffer, k, groups[k]);
      if count.None? {
        split := split + {k};
      }
      rest := rest - {k};
    }
  }

  /** The members declare one size and have reached it. */
  ghost predicate Complete(ms: set<Op>) {
    Unanimous(ms, |ms|)
  }

  /** The complete group whose first member arrived first, if any is complete. */
  method CompleteGroup(buffer: seq<Op>, groups: map<Key, seq<nat>>) returns (best: Option<Key>)
    requires DistinctIds(buffer) && BucketsOf(buffer, groups)
    ensures best.Some? ==> best.value in groups && Complete(Members(Bag(buffer), best.value))
    ensures best.Some? ==> forall k :: k in groups && Complete(Members(Bag(buffer), k)) ==>
              groups[best.value][0] <= groups[k][0]
    ensures best.None? ==> forall k :: k in groups ==> !Complete(Members(Bag(buffer), k))
  {
    hide Bag, Positions, DistinctIds, Members, Complete;
    best := None;
    var rest := groups.Keys;
    while rest != {}
      invariant rest <= groups.Keys
      invariant best.Some? ==> best.value in groups && Complete(Members(Bag(buffer), best.value))
      invariant best.Some? ==> forall k :: k in groups.Keys - rest && Complete(Members(Bag(buffer), k)) ==>
                  groups[best.value][0] <= groups[k][0]
      invariant best.None? ==> forall k :: k in groups.Keys - rest ==> !Complete(Members(Bag(buffer), k))
      decreases |rest|
    {
      var k :| k in rest;
      var count := JudgeBucket(buffer, k, groups[k]);
      CompleteIff(Members(Bag(buffer), k), count);
      if count.Some? && count.value == |groups[k]| && (best.None? || groups[k][0] < groups[best.value][0]) {
        best := Some(k);
      }
      rest := rest - {k};
    }
  }

  lemma CompleteIff(ms: set<Op>, count: Option<nat>)
    requires ms != {} && (count.Some? ==> Unanimous(ms, count.value))
    requires count.None? ==> forall n: nat :: !Unanimous(ms, n)
    ensures Complete(ms) <==> count == Some(|ms|)
  {
    var o :| o in ms;
  }

  /** A group's members taken out of the buffer, from the last position down. */
  method RemovePositions(buffer: seq<Op>, k: Key, idxs: seq<nat>) returns (rest: seq<Op>, members: seq<Op>)
    requires DistinctIds(buffer) && Positions(buffer, k, idxs)
    ensures multiset(rest + members) == multiset(buffer) && |members| == |idxs|
    ensures forall i :: 0 <= i < |members| ==> InGroup(members[i], k)
    ensures forall i :: 0 <= i < |rest| ==> !InGroup(rest[i], k)
    ensures TaggedCount(rest) + |members| == TaggedCount(buffer)
  {
    hide TaggedCount, InGroup, Positions, DistinctIds, RemoveAt;
    rest, members := buffer, [];
    var j := |idxs|;
    ghost var p := |buffer|;
    assert rest + members == buffer;
    assert rest[..p] == buffer[..p];
    while j > 0
      invariant 0 <= j <= |idxs| && p <= |rest| && p <= |buffer| && rest[..p] == buffer[..p]
      invariant p == if j == |idxs| then |buffer| else idxs[j]
      invariant forall q :: p <= q < |rest| ==> !InGroup(rest[q], k)
      invariant multiset(rest + members) == multiset(buffer) && |members| == |idxs| - j
      invariant forall i :: 0 <= i < |members| ==> InGroup(members[i], k)
      invariant TaggedCount(rest) + |members| == TaggedCount(buffer)
      decreases j
    {
      j := j - 1;
      var i := idxs[j];
      BetweenPositions(buffer, k, idxs, j, p);
      assert rest[..p][i] == buffer[..p][i];
      RemoveStep(rest, members, i);
      RemoveTail(rest, buffer, k, p, i);
      GroupTagged(rest[i], k);
      members, rest := members + [rest[i]], RemoveAt(rest, i);
      p := i;
    }
    BeforePositions(buffer, k, idxs);
    forall i | 0 <= i < |rest| ensures !InGroup(rest[i], k) {
      assert i < p ==> rest[..p][i] == buffer[..p][i];
    }
  }

  lemma GroupTagged(op: Op, k: Key)
    ensures InGroup(op, k) ==> op.tx.Some?
  {
  }

  lemma BetweenPositions(buffer: seq<Op>, k: Key, idxs: seq<nat>, j: nat, p: nat)
    requires Positions(buffer, k, idxs) && j < |idxs| && p == if j + 1 == |idxs| then |buffer| else idxs[j + 1]
    ensures idxs[j] < p <= |buffer| && InGroup(buffer[idxs[j]], k)
    ensures forall q :: idxs[j] < q < p ==> !InGroup(buffer[q], k)
  {
    assert idxs[j] in idxs;
    if j + 1 < |idxs| {
      assert idxs[j + 1] in idxs;
    }
    forall q: nat | idxs[j] < q < p
      ensures !InGroup(buffer[q], k)
    {
      if q in idxs {
        NotBetween(idxs, j, q);
        assert false;
      }
    }
  }

  lemma NotBetween(idxs: seq<nat>, j: nat, q: nat)
    requires forall a, b :: 0 <= a < b < |idxs| ==> idxs[a] < idxs[b]
    requires j < |idxs| && idxs[j] < q && (j + 1 < |idxs| ==> q < idxs[j + 1])
    ensures q !in idxs
  {
    forall a | 0 <= a < |idxs| ensures idxs[a] != q {
      if a > j {
        assert j + 1 < |idxs| && (a == j + 1 || idxs[j + 1] < idxs[a]);
      }
    }
  }

  lemma BeforePositions(buffer: seq<Op>, k: Key, idxs: seq<nat>)
    requires Positions(buffer, k, idxs)
    ensures idxs != [] ==> idxs[0] < |buffer|
    ensures forall q :: 0 <= q < (if idxs == [] then |buffer| else idxs[0]) ==> !InGroup(buffer[q], k)
  {
    assert idxs != [] ==> idxs[0] in idxs;
    forall q: nat | q < if idxs == [] then |buffer| else idxs[0]
      ensures !InGroup(buffer[q], k)
    {
      assert q !in idxs;
    }
  }

  lemma RemoveStep(rest: seq<Op>, members: seq<Op>, i: nat)
    requires i < |rest|
    ensures multiset(RemoveAt(rest, i) + (members + [rest[i]])) == multiset(rest + members)
    ensures TaggedCount(RemoveAt(rest, i)) + (if rest[i].tx.Some? then 1 else 0) == TaggedCount(rest)
  {
    hide TaggedCount;
    RemoveMultiset(rest, members, i);
    RemoveTagged(rest, i);
  }

  lemma RemoveMultiset(rest: seq<Op>, members: seq<Op>, i: nat)
    requires i < |rest|
    ensures multiset(RemoveAt(rest, i) + (members + [rest[i]])) == multiset(rest + members)
  {
    assert rest == rest[..i] + [rest[i]] + rest[i + 1..];
    assert multiset(rest) == multiset(rest[..i]) + multiset{rest[i]} + multiset(rest[i + 1..]);
  }

  lemma RemoveTail(rest: seq<Op>, buffer: seq<Op>, k: Key, p: nat, i: nat)
    requires i < p <= |rest| && p <= |buffer| && rest[..p] == buffer[..p]
    requires forall q :: p <= q < |rest| ==> !InGroup(rest[q], k)
    requires forall q :: i < q < p ==> !InGroup(buffer[q], k)
    ensures var r := RemoveAt(rest, i);
            |r| == |rest| - 1 && r[..i] == buffer[..i] && forall q :: i <= q < |r| ==> !InGroup(r[q], k)
  {
    hide InGroup;
    var r := RemoveAt(rest, i);
    assert r[..i] == rest[..p][..i] && buffer[..i] == buffer[..p][..i];
    forall q | i <= q < |r|
      ensures !InGroup(r[q], k)
    {
      assert r[q] == rest[q + 1];
      if q + 1 < p {
        assert rest[..p][q + 1] == buffer[..p][q + 1];
      }
    }
  }

  /** The members declare one size. */
  ghost predicate Agreed(ms: set<Op>) {
    exists n: nat :: Unanimous(ms, n)
  }

  lemma SplitFacts(held: set<Op>, split: set<Key>)
    requires forall k :: k in split ==> !Agreed(Members(held, k)) && Members(held, k) != {}
    ensures forall k :: k in split ==> Resolves(Members(held, k))
    ensures split != {} ==> exists o :: o in held && o.tx.Some? && KeyOf(o) in split
  {
    hide Unanimous;
    if split != {} {
      var k :| k in split;
      var o :| o in Members(held, k);
      assert KeyOf(o) in split;
    }
  }

  lemma UntagWaits(buffer: seq<Op>, spent: set<Key>)
    ensures StillWaits(Bag(buffer), Bag(UntagAll(buffer, spent)), spent)
  {
    forall o | o in Bag(buffer) && o.tx.Some? && KeyOf(o) !in spent
      ensures o in Bag(UntagAll(buffer, spent))
    {
      var i :| 0 <= i < |buffer| && buffer[i] == o;
      assert UntagAll(buffer, spent)[i] == o;
    }
  }

  lemma BufferUntag(buffer: seq<Op>, buffered: set<OpId>, resolved: set<Key>, keys: set<Key>)
    requires BufferValid(buffer, buffered, resolved)
    ensures var r := UntagAll(buffer, resolved + keys);
            && BufferValid(r, buffered, resolved + keys)
            && Bag(r) == (set o | o in Bag(buffer) :: Untag(o, resolved + keys))
            && TaggedCount(r) <= TaggedCount(buffer)
            && StillWaits(Bag(buffer), Bag(r), resolved + keys)
            && ((exists o :: o in Bag(buffer) && o.tx.Some? && KeyOf(o) in keys) ==>
                  TaggedCount(r) < TaggedCount(buffer))
  {
    hide TaggedCount, StillWaits;
    var all := resolved + keys;
    UntagWaits(buffer, all);
    UntagFacts(buffer, all);
    UntagCount(buffer, all);
    if o :| o in Bag(buffer) && o.tx.Some? && KeyOf(o) in keys {
      var i :| 0 <= i < |buffer| && buffer[i] == o;
      assert KeyOf(buffer[i]) in all;
    }
  }

  lemma NothingHeld(ready: Ready)
    ensures BufferValid([], {}, {}) && Quiet(ready, Bag([]), {})
    ensures Monotone(ready) ==> Tracking(ready, {}, {}, Bag([]), {}, 0, map[], map[])
  {
    assert Bag([]) == {};
    assert Held({}, {}, {}) == {};
  }

  /** The first untagged op that is ready, or the end of the buffer. */
  method FindReady(buffer: seq<Op>, ready: Ready, seen: set<OpId>) returns (i: nat)
    ensures i <= |buffer|
    ensures i < |buffer| ==> buffer[i].tx.None? && ready(seen, buffer[i].body)
    ensures i == |buffer| ==> forall o :: o in Bag(buffer) && o.tx.None? ==> !ready(seen, o.body)
  {
    i := 0;
    while i < |buffer| && !(buffer[i].tx.None? && ready(seen, buffer[i].body))
      invariant 0 <= i <= |buffer|
      invariant forall j :: 0 <= j < i ==> !(buffer[j].tx.None? && ready(seen, buffer[j].body))
    {
      i := i + 1;
    }
  }

  lemma BufferRemove(buffer: seq<Op>, buffered: set<OpId>, resolved: set<Key>, i: nat)
    requires BufferValid(buffer, buffered, resolved) && i < |buffer|
    ensures BufferValid(RemoveAt(buffer, i), buffered - {buffer[i].id}, resolved)
    ensures buffer[i] in Bag(buffer) && buffer[i].id in buffered && Reach(buffer[i]) <= STATE_CEILING
    ensures Bag(RemoveAt(buffer, i)) == Bag(buffer) - {buffer[i]}
    ensures TaggedCount(RemoveAt(buffer, i)) + (if buffer[i].tx.Some? then 1 else 0) == TaggedCount(buffer)
    ensures |RemoveAt(buffer, i)| == |buffer| - 1
    ensures buffer[i].tx.None? ==> StillWaits(Bag(buffer), Bag(RemoveAt(buffer, i)), resolved)
  {
    hide TaggedCount;
    RemoveFacts(buffer, i);
  }

  // ---- giving up ----

  lemma EvictKeys(buffer: seq<Op>, buffered: set<OpId>, resolved: set<Key>, groups: map<Key, seq<nat>>)
    requires BufferValid(buffer, buffered, resolved) && BucketsOf(buffer, groups)
    ensures groups.Keys == set o | o in Bag(buffer) && o.tx.Some? :: KeyOf(o)
    ensures groups.Keys !! resolved
  {
    forall k | k in groups
      ensures exists o :: o in Bag(buffer) && o.tx.Some? && KeyOf(o) == k
    {
      assert groups[k][0] in groups[k];
      assert buffer[groups[k][0]] in Bag(buffer);
    }
    forall o | o in Bag(buffer) && o.tx.Some?
      ensures KeyOf(o) in groups
    {
      var i :| 0 <= i < |buffer| && buffer[i] == o;
    }
  }

  lemma {:induction false} NoneTagged(buffer: seq<Op>)
    ensures TaggedCount(buffer) == 0 <==> forall o :: o in Bag(buffer) ==> o.tx.None?
  {
    if buffer != [] {
      NoneTagged(buffer[1..]);
      forall o
        ensures o in Bag(buffer) <==> o == buffer[0] || o in Bag(buffer[1..])
      {
        if o in Bag(buffer) && o != buffer[0] {
          var i :| 0 <= i < |buffer| && buffer[i] == o;
          assert buffer[1..][i - 1] == o;
        }
        if o in Bag(buffer[1..]) {
          var i :| 0 <= i < |buffer[1..]| && buffer[1..][i] == o;
          assert buffer[i + 1] == o;
        }
        assert buffer[0] in Bag(buffer);
      }
    }
  }

  lemma EvictUntags(buffer: seq<Op>, spent: set<Key>)
    requires forall o :: o in Bag(buffer) && o.tx.Some? ==> KeyOf(o) in spent
    ensures TaggedCount(UntagAll(buffer, spent)) == 0
  {
    hide TaggedCount;
    UntagFacts(buffer, spent);
    NoneTagged(UntagAll(buffer, spent));
  }

  // ---- minting ----

  ghost function Walked(client: nat, from: nat, j: int): OpId
    requires 0 <= j
  {
    OpId(client, (from + j) % U64_LIMIT)
  }

  lemma UnionSize(seen: set<OpId>, buffered: set<OpId>, reserved: set<OpId>)
    requires Apart(seen, buffered, reserved)
    ensures |seen + buffered + reserved| == |seen| + |buffered| + |reserved|
  {
  }

  /** The first `n` candidates of the wrapping walk are distinct while `n` fits the space. */
  lemma {:induction false} WalkSize(client: nat, from: nat, n: nat)
    requires n <= U64_LIMIT
    ensures |set j | 0 <= j < n :: Walked(client, from, j)| == n
  {
    if n > 0 {
      WalkSize(client, from, n - 1);
      var a := set j | 0 <= j < n - 1 :: Walked(client, from, j);
      var b := set j | 0 <= j < n :: Walked(client, from, j);
      forall j | 0 <= j < n - 1
        ensures Walked(client, from, j) != Walked(client, from, n - 1)
      {
        WrapDistinct(from + j, from + n - 1);
      }
      assert b == a + {Walked(client, from, n - 1)};
    }
  }

  lemma WrapDistinct(a: nat, b: nat)
    requires a < b < a + U64_LIMIT
    ensures a % U64_LIMIT != b % U64_LIMIT
  {
  }

  /** A whole lap visits every sequence. */
  lemma WalkCovers(client: nat, from: nat, n: nat) returns (j: nat)
    requires from < U64_LIMIT && n < U64_LIMIT
    ensures j < U64_LIMIT && Walked(client, from, j) == OpId(client, n)
  {
    j := if n >= from then n - from else n + U64_LIMIT - from;
  }

  /** After one miss for each taken id the next candidate is free, if any id is. */
  lemma WalkEscapes(client: nat, from: nat, taken: set<OpId>)
    requires from < U64_LIMIT && forall j :: 0 <= j < |taken| ==> Walked(client, from, j) in taken
    requires exists n: nat :: n < U64_LIMIT && OpId(client, n) !in taken
    ensures Walked(client, from, |taken|) !in taken
  {
    var n: nat :| n < U64_LIMIT && OpId(client, n) !in taken;
    var steps := |taken|;
    var j := WalkCovers(client, from, n);
    assert steps <= j;
    var visited := set i | 0 <= i < steps + 1 :: Walked(client, from, i);
    if Walked(client, from, steps) in taken {
      WalkSize(client, from, steps + 1);
      Smaller(visited, taken);
      assert false;
    }
  }

  /** A replica holding fewer ids than there are sequences has one free. */
  lemma FreeExists(client: nat, taken: set<OpId>) returns (n: nat)
    requires |taken| < U64_LIMIT
    ensures n < U64_LIMIT && OpId(client, n) !in taken
  {
    var visited := set j | 0 <= j < |taken| + 1 :: Walked(client, 0, j);
    WalkSize(client, 0, |taken| + 1);
    if visited <= taken {
      Smaller(visited, taken);
      assert false;
    }
    var id :| id in visited && id !in taken;
    n := id.number;
  }

  /** The next position above `from` with room for the whole run below the ceiling. Both
      additions are checked in 64 bits. */
  function MintPosition(from: nat, span: Span, client: nat): (r: Option<Stamp>)
    ensures r.Some? <==> from + span <= STATE_CEILING
    ensures r.Some? ==> r.value == Stamp(from + 1, client, 0) && ReservationEnd(from + 1, span) == from + span
  {
    if from + 1 >= U64_LIMIT then None
    else if from + 1 + (span - 1) >= U64_LIMIT then None
    else if from + 1 + (span - 1) > STATE_CEILING then None
    else Some(Stamp(from + 1, client, 0))
  }

  /** A stamp above a partition's clock outranks every op applied there that the clock was not
      clamped for. */
  lemma AboveApplied(ready: Ready, d: set<Op>, seen: set<OpId>, held: set<Op>, resolved: set<Key>, lamport: nat,
                     zones: map<nat, nat>, high: map<nat, nat>, zone: Option<nat>, stamp: Stamp)
    requires Tracking(ready, d, seen, held, resolved, lamport, zones, high)
    requires ClockOf(lamport, zones, zone) < stamp.lamport
    ensures forall o :: o in d && o.id in seen && o.zone == zone &&
                        o.stamp.lamport + o.span - 1 <= 0x3fff_ffff_ffff_ffff ==>
              o.stamp.lamport + o.span - 1 < stamp.lamport && Less(o.stamp, stamp)
  {
    hide Mid, Held, HighOf, AllAdmissible;
    forall o | o in d && o.id in seen && o.zone == zone && o.stamp.lamport + o.span - 1 <= 0x3fff_ffff_ffff_ffff
      ensures ClockReach(o) == o.stamp.lamport + o.span - 1 && ClockReach(o) <= ClockOf(lamport, zones, zone)
    {
      assert o in InZone(d, seen, zone);
    }
  }

  /** A partition's clock is the furthest any op applied there reaches, none counted past
      0x3fff_ffff_ffff_ffff, and an author's high-water the furthest any op received from it does. */
  lemma FurthestReached(ready: Ready, d: set<Op>, seen: set<OpId>, held: set<Op>, resolved: set<Key>, lamport: nat,
                        zones: map<nat, nat>, high: map<nat, nat>, zone: Option<nat>, client: nat)
    requires Tracking(ready, d, seen, held, resolved, lamport, zones, high)
    ensures var clock := ClockOf(lamport, zones, zone);
            && clock <= 0x3fff_ffff_ffff_ffff
            && (forall o :: o in d && o.id in seen && o.zone == zone ==>
                  o.stamp.lamport + o.span - 1 <= clock || clock == 0x3fff_ffff_ffff_ffff)
            && (clock == 0 || exists o :: o in d && o.id in seen && o.zone == zone &&
                                          clock <= o.stamp.lamport + o.span - 1)
    ensures var own := if client in high then high[client] else 0;
            && (forall o :: o in d && o.stamp.client == client ==> o.stamp.lamport + o.span - 1 <= own)
            && (own == 0 || exists o :: o in d && o.stamp.client == client && own == o.stamp.lamport + o.span - 1)
  {
    hide Mid, Held;
    var clock, own := ClockOf(lamport, zones, zone), if client in high then high[client] else 0;
    forall o | o in d && o.id in seen && o.zone == zone
      ensures o.stamp.lamport + o.span - 1 <= clock || clock == 0x3fff_ffff_ffff_ffff
    {
      assert o in InZone(d, seen, zone);
    }
    if clock != 0 {
      var o :| o in InZone(d, seen, zone) && ClockReach(o) == clock;
      assert o in d && o.id in seen && o.zone == zone && clock <= o.stamp.lamport + o.span - 1;
    }
    forall o | o in d && o.stamp.client == client
      ensures o.stamp.lamport + o.span - 1 <= own
    {
      assert Reach(o) == 0 || o in ByClient(d, client);
    }
  }

  /** What a mint promises: an op every peer admits, under a fresh id, whose reservation lies
      strictly above everything recorded under its author and above its partition's clock. */
  ghost predicate Minted(client: nat, taken: set<OpId>, reservations: set<(nat, nat)>, clock: nat, op: Op) {
    && IsAdmissible(op) && op.id.client == client && op.id !in taken
    && clock < op.stamp.lamport && (forall r :: r in reservations ==> r.1 < op.stamp.lamport)
    && Reach(op) == op.stamp.lamport + op.span - 1
  }

  lemma ClearOfAll(reservations: set<(nat, nat)>, high: nat, lamport: nat)
    requires Covered(reservations, high) && high < lamport
    ensures forall r :: r in reservations ==> r.1 < lamport
  {
  }

  lemma AdvancedClock(lamport: nat, zones: map<nat, nat>, zone: Option<nat>, to: nat)
    requires ClockOf(lamport, zones, zone) < to
    ensures var l := if zone.None? then MaxOf(lamport, to) else lamport;
            var m := if zone.Some? then AdvanceZone(zones, zone.value, to) else zones;
            ClockOf(l, m, zone) == to && forall z :: z != zone ==> ClockOf(l, m, z) == ClockOf(lamport, zones, z)
  {
  }

  /** A mint below the wire ceiling leaves the author where a peer folding it would stand. */
  lemma MintedTracks(ready: Ready, d: set<Op>, seen: set<OpId>, buffer: seq<Op>, buffered: set<OpId>,
                     resolved: set<Key>, lamport: nat, zones: map<nat, nat>, high: map<nat, nat>, op: Op)
    requires Tracking(ready, d, seen, Bag(buffer), resolved, lamport, zones, high)
    requires BufferValid(buffer, buffered, resolved)
    requires op.id !in seen && op.id !in buffered && IsAdmissible(op) && op.tx.None? && ready(seen, op.body)
    ensures var l := if op.zone.None? then MaxOf(lamport, ClockReach(op)) else lamport;
            var z := if op.zone.Some? then AdvanceZone(zones, op.zone.value, ClockReach(op)) else zones;
            Tracking(ready, d + {op}, seen + {op.id}, Bag(buffer), resolved, l, z,
                     Recorded(high, op.stamp.client, Reach(op)))
  {
    hide Tracking, BufferValid, Bag, Reach, ClockReach, Recorded, AdvanceZone, IsAdmissible;
    NewOp(ready, d, seen, buffer, buffered, resolved, lamport, zones, high, op);
    BufferAdd(buffer, buffered, resolved, op);
    NewApplied(ready, d + {op}, seen, Bag(buffer), resolved, lamport, zones, high, op);
  }

  // ---- runs ----

  datatype Edit = Edit(zone: Option<nat>, span: Span, body: nat)

  /** The op emitted for an edit. */
  ghost predicate Answers(op: Op, edit: Edit) {
    op.zone == edit.zone && op.span == edit.span && op.body == edit.body
  }

  datatype Step =
    | Receive(op: Op)
    | Withheld(numbers: seq<nat>, reach: nat)
    | Evict
    | Edits(edits: seq<Edit>)

  /** The most ids a step can take. */
  ghost function StepCost(step: Step): nat {
    match step
    case Receive(_) => 1
    case Withheld(numbers, _) => |numbers|
    case Evict => 0
    case Edits(edits) => |edits|
  }

  ghost function Cost(steps: seq<Step>): nat {
    if steps == [] then 0 else StepCost(steps[0]) + Cost(steps[1..])
  }

  lemma CostStep(steps: seq<Step>)
    requires steps != []
    ensures Cost(steps) == StepCost(steps[0]) + Cost(steps[1..])
  {
  }

  /** Minted ops: each one every peer admits, under an id none held, above every position
      recorded before, and each above the one minted before it. */
  ghost predicate Fresh(client: nat, taken: set<OpId>, reservations: set<(nat, nat)>, ops: seq<Op>) {
    && (forall i :: 0 <= i < |ops| ==> IsAdmissible(ops[i]) && ops[i].id.client == client && ops[i].id !in taken)
    && (forall i, r :: 0 <= i < |ops| && r in reservations ==> r.1 < ops[i].stamp.lamport)
    && (forall i, j :: 0 <= i < j < |ops| ==> ops[i].id != ops[j].id && Reach(ops[i]) < ops[j].stamp.lamport)
  }

  /** The ops are on the record. */
  ghost predicate Kept(ops: seq<Op>, taken: set<OpId>, reservations: set<(nat, nat)>) {
    forall i :: 0 <= i < |ops| ==> ops[i].id in taken && (ops[i].stamp.lamport, Reach(ops[i])) in reservations
  }

  ghost function IdsOf(ops: seq<Op>): set<OpId> {
    set i | 0 <= i < |ops| :: ops[i].id
  }

  lemma NoneFresh(client: nat, taken: set<OpId>, reservations: set<(nat, nat)>)
    ensures Fresh(client, taken, reservations, []) && Kept([], taken, reservations) && IdsOf([]) == {}
  {
  }

  lemma NoneKept(taken: set<OpId>, reservations: set<(nat, nat)>)
    ensures Kept([], taken, reservations)
  {
  }

  lemma KeptGrows(ops: seq<Op>, taken: set<OpId>, reservations: set<(nat, nat)>, taken': set<OpId>,
                  reservations': set<(nat, nat)>)
    requires Kept(ops, taken, reservations) && taken <= taken' && reservations <= reservations'
    ensures Kept(ops, taken', reservations')
  {
  }

  /** Runs of mints chain: what the first left on the record the second clears. */
  lemma FreshConcat(client: nat, taken: set<OpId>, reservations: set<(nat, nat)>, a: seq<Op>,
                    taken': set<OpId>, reservations': set<(nat, nat)>, b: seq<Op>)
    requires Fresh(client, taken, reservations, a) && Kept(a, taken', reservations')
    requires taken <= taken' && reservations <= reservations' && Fresh(client, taken', reservations', b)
    ensures Fresh(client, taken, reservations, a + b)
  {
    hide IsAdmissible, Reach;
    var ops := a + b;
    forall i, j | 0 <= i < j < |ops|
      ensures ops[i].id != ops[j].id && Reach(ops[i]) < ops[j].stamp.lamport
    {
      if i < |a| <= j {
        assert ops[i] == a[i] && ops[j] == b[j - |a|];
        assert (a[i].stamp.lamport, Reach(a[i])) in reservations';
      } else if j < |a| {
        assert ops[i] == a[i] && ops[j] == a[j];
      } else {
        assert ops[i] == b[i - |a|] && ops[j] == b[j - |a|];
      }
    }
  }

  lemma KeptConcat(a: seq<Op>, b: seq<Op>, taken: set<OpId>, reservations: set<(nat, nat)>,
                   taken': set<OpId>, reservations': set<(nat, nat)>)
    requires Kept(a, taken, reservations) && taken <= taken' && reservations <= reservations'
    requires Kept(b, taken', reservations')
    ensures Kept(a + b, taken', reservations')
  {
  }

  lemma FreshStep(client: nat, taken: set<OpId>, reservations: set<(nat, nat)>, ops: seq<Op>,
                  taken': set<OpId>, reservations': set<(nat, nat)>, clock: nat, op: Op)
    requires Fresh(client, taken, reservations, ops) && Kept(ops, taken', reservations')
    requires taken' == taken + IdsOf(ops) && reservations <= reservations'
    requires Minted(client, taken', reservations', clock, op)
    ensures Fresh(client, taken, reservations, ops + [op])
    ensures Kept(ops + [op], taken' + {op.id}, reservations' + Reserve(client, op.stamp, op.span))
    ensures taken' + {op.id} == taken + IdsOf(ops + [op])
    ensures |taken' + {op.id}| == |taken'| + 1
  {
    hide Fresh, Kept, IdsOf;
    MintedFresh(client, taken', reservations', clock, op);
    FreshConcat(client, taken, reservations, ops, taken', reservations', [op]);
    KeptConcat(ops, [op], taken', reservations', taken' + {op.id}, reservations' + Reserve(client, op.stamp, op.span));
    IdsMore(ops, op);
  }

  lemma MintedFresh(client: nat, taken: set<OpId>, reservations: set<(nat, nat)>, clock: nat, op: Op)
    requires Minted(client, taken, reservations, clock, op)
    ensures Fresh(client, taken, reservations, [op])
    ensures Kept([op], taken + {op.id}, reservations + Reserve(client, op.stamp, op.span))
    ensures op.id !in taken
  {
  }

  lemma IdsMore(ops: seq<Op>, op: Op)
    ensures IdsOf(ops + [op]) == IdsOf(ops) + {op.id}
  {
    var all := ops + [op];
    forall id
      ensures id in IdsOf(all) <==> id in IdsOf(ops) || id == op.id
    {
      if id in IdsOf(ops) {
        var i :| 0 <= i < |ops| && ops[i].id == id;
        assert all[i].id == id;
      }
      assert all[|ops|] == op;
    }
  }

  lemma {:induction false} IdsSize(ops: seq<Op>)
    ensures |IdsOf(ops)| <= |ops|
  {
    if ops != [] {
      var init := ops[..|ops| - 1];
      IdsSize(init);
      IdsMore(init, ops[|ops| - 1]);
      assert init + [ops[|ops| - 1]] == ops;
    } else {
      assert IdsOf(ops) == {};
    }
  }

  lemma {:induction false} NumbersSize(client: nat, numbers: seq<nat>)
    ensures |set n | n in numbers :: OpId(client, n)| <= |numbers|
  {
    var all := set n | n in numbers :: OpId(client, n);
    if numbers == [] {
      assert all == {};
    } else {
      NumbersSize(client, numbers[1..]);
      var rest := set n | n in numbers[1..] :: OpId(client, n);
      assert all == rest + {OpId(client, numbers[0])};
    }
  }

  /** The ops a replica admits out of those it is handed. */
  ghost function Admitted(ops: set<Op>): set<Op> {
    set op | op in ops && IsAdmissible(op)
  }

  lemma AdmittedNone(d: set<Op>, ops: seq<Op>)
    ensures d + Admitted(Bag(ops[..0])) == d && Ids(Admitted(Bag(ops[..0]))) == {}
  {
    assert Bag(ops[..0]) == {};
  }

  lemma AdmittedMore(d: set<Op>, ops: seq<Op>, i: nat)
    requires i < |ops|
    ensures var got, op := Admitted(Bag(ops[..i])), ops[i];
            && (SingleEnvelope(d + Bag(ops)) ==> SingleEnvelope(d + got + {op}))
            && d + Admitted(Bag(ops[..i + 1])) == (if IsAdmissible(op) then d + got + {op} else d + got)
            && Ids(Admitted(Bag(ops[..i + 1]))) == Ids(got) + if IsAdmissible(op) then {op.id} else {}
  {
    hide IsAdmissible;
    var a, b := ops[..i], ops[..i + 1];
    forall o
      ensures o in Bag(b) <==> o in Bag(a) || o == ops[i]
      ensures o in Bag(b) ==> o in Bag(ops)
    {
      if o in Bag(a) {
        var j :| 0 <= j < |a| && a[j] == o;
        assert b[j] == o;
      }
      assert b[i] == ops[i];
      if o in Bag(b) {
        var j :| 0 <= j < |b| && b[j] == o;
        assert ops[j] == o;
      }
    }
    assert Bag(b) == Bag(a) + {ops[i]};
    IdsAdmitted(Bag(a), ops[i]);
    assert forall o :: o in d + Admitted(Bag(a)) + {ops[i]} ==> o in d + Bag(ops);
  }

  lemma IdsAdmitted(s: set<Op>, op: Op)
    ensures Admitted(s + {op}) == Admitted(s) + if IsAdmissible(op) then {op} else {}
    ensures Ids(Admitted(s + {op})) == Ids(Admitted(s)) + if IsAdmissible(op) then {op.id} else {}
  {
    hide IsAdmissible;
    var more: set<Op> := if IsAdmissible(op) then {op} else {};
    assert Admitted(s + {op}) == Admitted(s) + more;
    assert Ids(Admitted(s) + more) == Ids(Admitted(s)) + Ids(more);
    assert Ids({op}) == {op.id};
  }

  lemma ClocksUnique(d: set<Op>, seen: set<OpId>, lamport: nat, zones: map<nat, nat>, lamport': nat,
                     zones': map<nat, nat>)
    requires ClocksOf(d, seen, lamport, zones) && ClocksOf(d, seen, lamport', zones')
    ensures lamport == lamport' && zones == zones'
  {
    hide IsMax, InZone;
    MaxUnique(InZone(d, seen, None), ClockReach, lamport, lamport');
    forall z | z in zones
      ensures z in zones' && zones[z] == zones'[z]
    {
      MaxUnique(InZone(d, seen, Some(z)), ClockReach, zones[z], zones'[z]);
    }
  }

  lemma HighUnique(d: set<Op>, high: map<nat, nat>, high': map<nat, nat>)
    requires HighOf(d, high) && HighOf(d, high')
    ensures high == high'
  {
    hide IsMax, ByClient;
    forall c | c in high
      ensures c in high' && high[c] == high'[c]
    {
      MaxUnique(ByClient(d, c), Reach, high[c], high'[c]);
    }
  }

  lemma HeldNone(buffer: seq<Op>)
    ensures Bag(buffer) == {} ==> buffer == []
  {
    if buffer != [] {
      assert buffer[0] in Bag(buffer);
    }
  }

  /** The op joins the buffer, and whatever waits in it still does. */
  lemma ArrivalWaits(buffer: seq<Op>, spent: set<Key>, op: Op)
    ensures Bag(buffer + [op]) == Bag(buffer) + {op} && StillWaits(Bag(buffer), Bag(buffer + [op]), spent)
  {
    BagMore(buffer, op);
  }

  lemma ArrivedWaits(held: set<Op>, op: Op, after: set<Op>, spent: set<Key>)
    requires StillWaits(held + {op}, after, spent)
    ensures StillWaits(held, after, spent) && (op.tx.Some? && KeyOf(op) !in spent ==> op in after)
  {
  }

  lemma StillWaitsMore(a: set<Op>, b: set<Op>, c: set<Op>, spent: set<Key>)
    requires StillWaits(a, b, spent) && b <= c
    ensures StillWaits(a, c, spent)
  {
  }

  /** Nothing held back has been applied. */
  lemma WaitingApart(buffer: seq<Op>, buffered: set<OpId>, resolved: set<Key>, seen: set<OpId>, reserved: set<OpId>)
    requires BufferValid(buffer, buffered, resolved) && Apart(seen, buffered, reserved)
    ensures forall o :: o in Bag(buffer) ==> o.id !in seen
  {
    hide Bag, DistinctIds, AllAdmissible;
    assert forall o :: o in Bag(buffer) ==> o.id in Ids(Bag(buffer));
  }

  // ---- a run and its record ----

  /** What a replica has on record: the ids it holds, the ids it may not use, the intervals
      reserved under its own client id, the ops it holds back, the ids it has applied, the keys
      it has spent, and whether its last intention was refused a mint. */
  datatype Mark = Mark(held: set<OpId>, taken: set<OpId>, reservations: set<(nat, nat)>,
                       waiting: set<Op>, applied: set<OpId>, spent: set<Key>, refused: bool)

  /** A new member of a group joins the ops held back unless its key is spent by then, and one
      held back under an unspent key stays, unapplied. */
  ghost predicate HeldBack(step: Step, before: Mark, after: Mark) {
    && before.spent <= after.spent && StillWaits(before.waiting, after.waiting, after.spent)
    && (forall o :: o in after.waiting ==> o.id !in after.applied)
    && (step.Receive? && IsAdmissible(step.op) && step.op.id !in before.held && step.op.tx.Some? ==>
          KeyOf(step.op) in after.spent || step.op in after.waiting)
  }

  /** An intention's edits are all answered in order, or up to the one refused; an eviction leaves
      nothing waiting on a group; and nothing else mints. */
  ghost predicate Answered(step: Step, after: Mark, ops: seq<Op>) {
    && (step.Edits? ==>
          && |ops| <= |step.edits| && (after.refused <==> |ops| < |step.edits|) && IdsOf(ops) <= after.held
          && (forall i :: 0 <= i < |ops| ==> Answers(ops[i], step.edits[i])))
    && (!step.Edits? ==> ops == [])
    && (step.Evict? ==> forall o :: o in after.waiting ==> o.tx.None?)
  }

  lemma AnsweredBy(step: Step, after: Mark, ops: seq<Op>)
    requires step.Edits? ==>
               && |ops| <= |step.edits| && (after.refused <==> |ops| < |step.edits|) && IdsOf(ops) <= after.held
               && (forall i :: 0 <= i < |ops| ==> Answers(ops[i], step.edits[i]))
    requires !step.Edits? ==> ops == []
    requires step.Evict? ==> forall o :: o in after.waiting ==> o.tx.None?
    ensures Answered(step, after, ops)
  {
  }

  lemma BackHeld(step: Step, before: Mark, after: Mark)
    requires before.spent <= after.spent && StillWaits(before.waiting, after.waiting, after.spent)
    requires forall o :: o in after.waiting ==> o.id !in after.applied
    requires step.Receive? && IsAdmissible(step.op) && step.op.id !in before.held && step.op.tx.Some? ==>
               KeyOf(step.op) in after.spent || step.op in after.waiting
    ensures HeldBack(step, before, after)
  {
  }

  /** One step of a run: the record only grows, what it mints clears all that was on record,
      and what it brings in is on record after it. */
  ghost predicate StepKept(client: nat, step: Step, before: Mark, after: Mark, ops: seq<Op>) {
    && HeldBack(step, before, after) && Answered(step, after, ops) && before.applied <= after.applied
    && before.held <= after.held && before.taken <= after.taken && before.reservations <= after.reservations
    && Fresh(client, before.taken, before.reservations, ops) && Kept(ops, after.taken, after.reservations)
    && (step.Receive? && IsAdmissible(step.op) ==> step.op.id in after.taken)
    && (step.Receive? && IsAdmissible(step.op) && step.op.id !in before.held ==>
          Reserve(client, step.op.stamp, step.op.span) <= after.reservations)
    && (step.Withheld? ==> forall n :: n in step.numbers ==> OpId(client, n) in after.taken)
  }

  ghost predicate Traced(client: nat, steps: seq<Step>, batches: seq<seq<Op>>, marks: seq<Mark>) {
    && |batches| == |steps| && |marks| == |steps| + 1
    && forall i :: 0 <= i < |steps| ==> StepKept(client, steps[i], marks[i], marks[i + 1], batches[i])
  }

  lemma TraceMore(client: nat, steps: seq<Step>, i: nat, batches: seq<seq<Op>>, marks: seq<Mark>, ops: seq<Op>,
                  after: Mark)
    requires i < |steps| && Traced(client, steps[..i], batches, marks)
    requires StepKept(client, steps[i], marks[i], after, ops)
    ensures Traced(client, steps[..i + 1], batches + [ops], marks + [after])
  {
    hide StepKept;
  }

  lemma {:induction false} MarksGrow(client: nat, steps: seq<Step>, batches: seq<seq<Op>>, marks: seq<Mark>, i: nat,
                                     j: nat)
    requires Traced(client, steps, batches, marks) && i <= j <= |steps|
    ensures marks[i].held <= marks[j].held && marks[i].taken <= marks[j].taken
    ensures marks[i].reservations <= marks[j].reservations
    decreases j
  {
    hide Fresh, Kept, IsAdmissible, Reserve, HeldBack, Answered;
    if i < j {
      MarksGrow(client, steps, batches, marks, i, j - 1);
      assert StepKept(client, steps[j - 1], marks[j - 1], marks[j - 1 + 1], batches[j - 1]);
    }
  }

  /** An op minted later in a run shares no id with one delivered earlier in it, and lies
      strictly above the reservation of every new one delivered under its own client id. */
  lemma MintClearsDelivery(client: nat, steps: seq<Step>, batches: seq<seq<Op>>, marks: seq<Mark>, i: nat, j: nat,
                           k: nat)
    requires Traced(client, steps, batches, marks) && i < j < |steps| && k < |batches[j]|
    requires steps[i].Receive? && IsAdmissible(steps[i].op)
    ensures var op, mint := steps[i].op, batches[j][k];
            && mint.id != op.id && IsAdmissible(mint)
            && (op.id !in marks[i].held && op.stamp.client == client ==> Reach(op) < mint.stamp.lamport)
  {
    hide Kept, IsAdmissible, HeldBack, Answered;
    assert StepKept(client, steps[i], marks[i], marks[i + 1], batches[i]);
    MarksGrow(client, steps, batches, marks, i + 1, j);
    assert StepKept(client, steps[j], marks[j], marks[j + 1], batches[j]);
    var op := steps[i].op;
    if op.id !in marks[i].held && op.stamp.client == client {
      assert (op.stamp.lamport, Reach(op)) in marks[j].reservations;
    }
  }

  /** Ops minted at two steps of a run share neither an id nor a position. */
  lemma MintsApart(client: nat, steps: seq<Step>, batches: seq<seq<Op>>, marks: seq<Mark>, i: nat, h: nat, j: nat,
                   k: nat)
    requires Traced(client, steps, batches, marks) && i < j < |steps| && h < |batches[i]| && k < |batches[j]|
    ensures batches[i][h].id != batches[j][k].id && Reach(batches[i][h]) < batches[j][k].stamp.lamport
  {
    hide IsAdmissible, Reserve, HeldBack, Answered;
    assert StepKept(client, steps[i], marks[i], marks[i + 1], batches[i]);
    MarksGrow(client, steps, batches, marks, i + 1, j);
    assert StepKept(client, steps[j], marks[j], marks[j + 1], batches[j]);
    assert (batches[i][h].stamp.lamport, Reach(batches[i][h])) in marks[j].reservations;
  }

  /** At no point of a run, under any gate and however often an id is sent again, has a member
      of a group whose key is unspent been applied: from its delivery on it is held back as it
      came. */
  lemma {:induction false} NoneEarlyInRun(client: nat, steps: seq<Step>, batches: seq<seq<Op>>, marks: seq<Mark>,
                                          i: nat, j: nat)
    requires Traced(client, steps, batches, marks) && i < j <= |steps|
    requires steps[i].Receive? && IsAdmissible(steps[i].op) && steps[i].op.id !in marks[i].held
    requires steps[i].op.tx.Some? && KeyOf(steps[i].op) !in marks[j].spent
    ensures steps[i].op in marks[j].waiting && steps[i].op.id !in marks[j].applied
    decreases j
  {
    hide IsAdmissible, Fresh, Kept, Reserve, Answered;
    var l: nat := j - 1;
    assert StepKept(client, steps[l], marks[l], marks[l + 1], batches[l]);
    if i < l {
      NoneEarlyInRun(client, steps, batches, marks, i, l);
    }
  }

  // ---- author and peer ----

  /** Each op was ready when it was made, counting those made before it, and lies where a fold
      does not clamp the clock. */
  ghost predicate Followed(ready: Ready, seen: set<OpId>, ops: seq<Op>) {
    forall i :: 0 <= i < |ops| ==> ready(seen + IdsOf(ops[..i]), ops[i].body) && Reach(ops[i]) <= WIRE_CEILING
  }

  lemma FollowedMore(ready: Ready, seen: set<OpId>, d: set<Op>, ops: seq<Op>, op: Op)
    ensures Followed(ready, seen, ops + [op]) ==>
              Followed(ready, seen, ops) && ready(seen + IdsOf(ops), op.body) && Reach(op) <= WIRE_CEILING
    ensures d + Bag(ops + [op]) == d + Bag(ops) + {op} && IdsOf(ops + [op]) == IdsOf(ops) + {op.id}
  {
    hide IdsOf, Reach;
    IdsMore(ops, op);
    BagMore(ops, op);
    var all := ops + [op];
    assert all[..|ops|] == ops && all[|ops|] == op;
    if Followed(ready, seen, all) {
      forall i | 0 <= i < |ops|
        ensures ready(seen + IdsOf(ops[..i]), ops[i].body) && Reach(ops[i]) <= WIRE_CEILING
      {
        assert all[..i] == ops[..i] && all[i] == ops[i];
      }
    }
  }

  lemma BagMore(ops: seq<Op>, op: Op)
    ensures Bag(ops + [op]) == Bag(ops) + {op}
  {
    var all := ops + [op];
    forall o
      ensures o in Bag(all) <==> o in Bag(ops) || o == op
    {
      if o in Bag(ops) {
        var i :| 0 <= i < |ops| && ops[i] == o;
        assert all[i] == o;
      }
      assert all[|ops|] == op;
    }
  }

  lemma NoneInBag(d: set<Op>)
    ensures d + Bag([]) == d
  {
    assert Bag([]) == {};
  }

  /** Freshly minted ops each come under one envelope beside everything already received. */
  lemma FreshEnvelopes(client: nat, taken: set<OpId>, reservations: set<(nat, nat)>, d: set<Op>, ops: seq<Op>)
    requires SingleEnvelope(d) && (forall op :: op in d ==> op.id in taken) && Fresh(client, taken, reservations, ops)
    ensures SingleEnvelope(d + Bag(ops)) && Admitted(Bag(ops)) == Bag(ops)
  {
    hide IsAdmissible, Reach;
    forall x, y | x in d + Bag(ops) && y in d + Bag(ops) && x.id == y.id
      ensures x == y
    {
    }
  }
}
