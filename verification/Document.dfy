/** The replica: what it has applied, what it holds back, how an arrival settles, and how
    it mints ids of its own. */
module Documents {
  import opened Stamps
  import opened Groups
  import opened Buffers

  class Document {
    const client: nat
    const ready: Ready
    var seen: set<OpId>
    var reserved: set<OpId>
    var buffer: seq<Op>
    var buffered: set<OpId>
    var resolvedTx: set<Key>
    var lamport: nat
    var zoneClocks: map<nat, nat>
    var stampHighWater: map<nat, nat>
    var nextSeq: nat
    var mintRefused: bool
    var pending: seq<Op>
    /** Every lamport interval recorded under this replica's own client id. */
    ghost var reservations: set<(nat, nat)>

    /** The three id sets are disjoint, the buffer is what `buffered` says, and no buffered
        op waits on a spent key. */
    ghost predicate Valid()
      reads this
    {
      && BufferValid(buffer, buffered, resolvedTx) && Apart(seen, buffered, reserved)
      && (forall id :: id in reserved ==> id.client == client)
      && nextSeq < U64_LIMIT && Covered(reservations, HighAt(stampHighWater, client))
    }

    /** This replica has received exactly the ops in `d`. */
    ghost predicate Tracks(d: set<Op>)
      reads this
    {
      Tracking(ready, d, seen, Bag(buffer), resolvedTx, lamport, zoneClocks, stampHighWater)
    }

    /** It would have received exactly `e`, were `op` held and its reservation recorded. */
    ghost predicate AwaitsOnly(e: set<Op>, op: Op)
      reads this
    {
      Tracking(ready, e, seen, Bag(buffer) + {op}, resolvedTx, lamport, zoneClocks,
               Recorded(stampHighWater, op.stamp.client, Reach(op)))
    }

    /** Nothing the buffer holds can move. */
    ghost predicate Settled()
      reads this
    {
      Quiet(ready, Bag(buffer), seen)
    }

    /** Every id this replica holds, applied, waiting or reserved. */
    ghost function Taken(): set<OpId>
      reads this
    {
      seen + buffered + reserved
    }

    constructor (who: nat, gate: Ready)
      ensures client == who && ready == gate && Valid() && Settled() && Taken() == {}
      ensures Monotone(gate) ==> Tracks({})
      ensures lamport == 0 && zoneClocks == map[] && stampHighWater == map[] && nextSeq == 0 && !mintRefused
      ensures buffer == [] && resolvedTx == {} && pending == [] && reservations == {}
    {
      client, ready := who, gate;
      seen, reserved, buffered := {}, {}, {};
      buffer, resolvedTx := [], {};
      lamport, zoneClocks, stampHighWater := 0, map[], map[];
      nextSeq, mintRefused, pending, reservations := 0, false, [], {};
      new;
      NothingHeld(gate);
    }

    /** Raise a partition's clock to at least `to`, and no other. */
    method AdvanceClock(zone: Option<nat>, to: nat)
      modifies `lamport, `zoneClocks
      ensures lamport == if zone.None? then MaxOf(old(lamport), to) else old(lamport)
      ensures zoneClocks == if zone.Some? then AdvanceZone(old(zoneClocks), zone.value, to) else old(zoneClocks)
    {
      match zone {
        case None =>
          if to > lamport {
            lamport := to;
          }
        case Some(z) =>
          if z !in zoneClocks {
            zoneClocks := zoneClocks[z := 0];
          }
          if to > zoneClocks[z] {
            zoneClocks := zoneClocks[z := to];
          }
          assert zoneClocks == AdvanceZone(old(zoneClocks), z, to);
      }
    }

    /** Record a reservation against its author's high-water. */
    method RecordStamp(stamp: Stamp, span: Span)
      modifies `stampHighWater, `reservations
      ensures stampHighWater == Recorded(old(stampHighWater), stamp.client, ReservationEnd(stamp.lamport, span))
      ensures reservations == old(reservations) + Reserve(client, stamp, span)
    {
      reservations := reservations + Reserve(client, stamp, span);
      var reach := ReservationEnd(stamp.lamport, span);
      if reach == 0 {
        return;
      }
      var slot := if stamp.client in stampHighWater then stampHighWater[stamp.client] else 0;
      stampHighWater := stampHighWater[stamp.client := MaxOf(slot, MinOf(reach, STATE_CEILING))];
    }

    /** Apply a resolvable op: mark it seen, advance its partition's clock and record its
        reservation. */
    method ApplyNow(op: Op)
      modifies `seen, `lamport, `zoneClocks, `stampHighWater, `reservations
      ensures seen == old(seen) + {op.id}
      ensures lamport == if op.zone.None? then MaxOf(old(lamport), ClockReach(op)) else old(lamport)
      ensures zoneClocks ==
                if op.zone.Some? then AdvanceZone(old(zoneClocks), op.zone.value, ClockReach(op)) else old(zoneClocks)
      ensures stampHighWater == Recorded(old(stampHighWater), op.stamp.client, Reach(op))
      ensures reservations == old(reservations) + Reserve(client, op.stamp, op.span)
    {
      seen := seen + {op.id};
      AdvanceClock(op.zone, ClockReach(op));
      RecordStamp(op.stamp, op.span);
    }

    /** Hold an op until it can apply. */
    method Hold(op: Op)
      modifies `buffer, `buffered
      ensures buffered == old(buffered) + {op.id} && buffer == old(buffer) + [op]
    {
      buffered := buffered + {op.id};
      buffer := buffer + [op];
    }

    /** Take one ready, untagged op out of the buffer and apply it. */
    method Release(i: nat, ghost d: set<Op>)
      requires Valid() && i < |buffer| && buffer[i].tx.None? && ready(seen, buffer[i].body)
      modifies `buffer, `buffered, `seen, `lamport, `zoneClocks, `stampHighWater, `reservations
      ensures Valid() && (old(Tracks(d)) ==> Tracks(d))
      ensures seen + buffered == old(seen + buffered) && old(seen) <= seen && old(reservations) <= reservations
      ensures TaggedCount(buffer) == TaggedCount(old(buffer)) && |buffer| == |old(buffer)| - 1
      ensures StillWaits(Bag(old(buffer)), Bag(buffer), resolvedTx)
    {
      hide Tracking, BufferValid, Bag, StillWaits, TaggedCount, RemoveAt, ReservationEnd, ClockReach, Recorded,
           AdvanceZone, MaxOf, Covered, HighAt, Reserve;
      var op := buffer[i];
      BufferRemove(buffer, buffered, resolvedTx, i);
      if Tracks(d) {
        TrackApply(ready, d, seen, Bag(buffer), resolvedTx, lamport, zoneClocks, stampHighWater, op);
      }
      buffer := RemoveAt(buffer, i);
      buffered := buffered - {op.id};
      RecordCovers(reservations, stampHighWater, client, op.stamp, op.span);
      ApplyNow(op);
    }

    /** Apply every untagged op that is ready, one at a time, until none is. */
    method DrainReady(ghost d: set<Op>) returns (progressed: bool)
      requires Valid()
      modifies `buffer, `buffered, `seen, `lamport, `zoneClocks, `stampHighWater, `reservations
      ensures Valid() && (old(Tracks(d)) ==> Tracks(d))
      ensures seen + buffered == old(seen + buffered) && old(seen) <= seen && old(reservations) <= reservations
      ensures TaggedCount(buffer) == TaggedCount(old(buffer))
      ensures if progressed then |buffer| < |old(buffer)| else buffer == old(buffer) && seen == old(seen)
      ensures forall o :: o in Bag(buffer) && o.tx.None? ==> !ready(seen, o.body)
      ensures StillWaits(Bag(old(buffer)), Bag(buffer), resolvedTx)
    {
      hide Tracking, BufferValid, Bag, StillWaits, TaggedCount, Covered, HighAt, Apart;
      progressed := false;
      StillWaitsHere(Bag(buffer), resolvedTx);
      var i: nat := FindReady(buffer, ready, seen);
      while i < |buffer|
        invariant Valid() && i <= |buffer| && (old(Tracks(d)) ==> Tracks(d))
        invariant i < |buffer| ==> buffer[i].tx.None? && ready(seen, buffer[i].body)
        invariant i == |buffer| ==> forall o :: o in Bag(buffer) && o.tx.None? ==> !ready(seen, o.body)
        invariant seen + buffered == old(seen + buffered) && old(seen) <= seen && old(reservations) <= reservations
        invariant TaggedCount(buffer) == TaggedCount(old(buffer))
        invariant if progressed then |buffer| < |old(buffer)| else buffer == old(buffer) && seen == old(seen)
        invariant StillWaits(Bag(old(buffer)), Bag(buffer), resolvedTx)
        decreases |buffer|
      {
        ghost var held := Bag(buffer);
        Release(i, d);
        StillWaitsOn(Bag(old(buffer)), held, Bag(buffer), resolvedTx, resolvedTx);
        progressed := true;
        i := FindReady(buffer, ready, seen);
      }
    }

    /** Spend a set of keys and release every member held under them. */
    method Spend(keys: set<Key>, ghost d: set<Op>)
      requires Valid()
      modifies `buffer, `resolvedTx
      ensures Valid() && resolvedTx == old(resolvedTx) + keys
      ensures buffer == UntagAll(old(buffer), resolvedTx)
      ensures TaggedCount(buffer) <= TaggedCount(old(buffer)) && |buffer| == |old(buffer)|
      ensures (exists o :: o in Bag(old(buffer)) && o.tx.Some? && KeyOf(o) in keys) ==>
                TaggedCount(buffer) < TaggedCount(old(buffer))
      ensures old(Tracks(d)) && (forall k :: k in keys ==> Resolves(Members(Bag(old(buffer)), k))) ==> Tracks(d)
      ensures StillWaits(Bag(old(buffer)), Bag(buffer), resolvedTx)
    {
      hide Tracking, BufferValid, Bag, StillWaits, TaggedCount, Resolves;
      ghost var before := buffer;
      resolvedTx := resolvedTx + keys;
      buffer := UntagAll(buffer, resolvedTx);
      BufferUntag(before, buffered, old(resolvedTx), keys);
      if old(Tracks(d)) && forall k :: k in keys ==> Resolves(Members(Bag(before), k)) {
        TrackSpend(ready, d, seen, Bag(before), old(resolvedTx), lamport, zoneClocks, stampHighWater, keys);
      }
    }

    /** Spend the key of every bucket whose members disagree on the group's size. */
    method ResolveDisagreeingTx(groups: map<Key, seq<nat>>, ghost d: set<Op>) returns (spent: bool)
      requires Valid() && BucketsOf(buffer, groups)
      modifies `buffer, `resolvedTx
      ensures Valid() && (old(Tracks(d)) ==> Tracks(d)) && old(resolvedTx) <= resolvedTx
      ensures spent ==> TaggedCount(buffer) < TaggedCount(old(buffer))
      ensures !spent ==> buffer == old(buffer) && resolvedTx == old(resolvedTx)
      ensures !spent ==> forall k :: k in groups ==> Agreed(Members(Bag(buffer), k))
      ensures StillWaits(Bag(old(buffer)), Bag(buffer), resolvedTx)
    {
      hide Tracking, Bag, StillWaits, TaggedCount, BucketsOf, Resolves, Agreed;
      StillWaitsHere(Bag(buffer), resolvedTx);
      BufferDistinct(buffer, buffered, resolvedTx);
      var split := DisagreeingKeys(buffer, groups);
      spent := split != {};
      if spent {
        SplitFacts(Bag(buffer), split);
        Spend(split, d);
      }
    }

    /** Commit a complete group: spend its key, then apply its members in author order,
        holding untagged any that is not ready. */
    method CommitGroup(k: Key, idxs: seq<nat>, ghost d: set<Op>)
      requires Valid() && idxs != [] && Positions(buffer, k, idxs) && Complete(Members(Bag(buffer), k))
      modifies `buffer, `buffered, `resolvedTx, `seen, `lamport, `zoneClocks, `stampHighWater, `reservations
      ensures Valid() && (old(Tracks(d)) ==> Tracks(d)) && resolvedTx == old(resolvedTx) + {k}
      ensures seen + buffered == old(seen + buffered) && old(seen) <= seen && old(reservations) <= reservations
      ensures TaggedCount(buffer) < TaggedCount(old(buffer))
      ensures StillWaits(Bag(old(buffer)), Bag(buffer), resolvedTx)
    {
      hide Tracking, BufferValid, Bag, StillWaits, TaggedCount, Positions, Members, Complete, Resolves, UntagAll, Untag,
           ReservationEnd, ClockReach, Recorded, AdvanceZone, MaxOf, Covered, HighAt, Reserve;
      BufferDistinct(buffer, buffered, resolvedTx);
      var rest, taken := RemovePositions(buffer, k, idxs);
      var members := SortByNumber(taken);
      ghost var all := resolvedTx + {k};
      CommitStart(buffer, buffered, resolvedTx, k, rest, taken, members);
      if Tracks(d) {
        GroupResolves(buffer, k, idxs);
        TrackSpend(ready, d, seen, Bag(buffer), resolvedTx, lamport, zoneClocks, stampHighWater, {k});
      }
      resolvedTx := resolvedTx + {k};
      buffer := UntagAll(rest, resolvedTx);
      var j := 0;
      while j < |members|
        invariant 0 <= j <= |members| && resolvedTx == all
        invariant forall i :: 0 <= i < |members| ==> InGroup(members[i], k)
        invariant BufferValid(buffer + UntagAll(members[j..], resolvedTx), buffered, resolvedTx)
        invariant Apart(seen, buffered, reserved) && Covered(reservations, HighAt(stampHighWater, client))
        invariant seen + buffered == old(seen + buffered) && old(seen) <= seen && old(reservations) <= reservations
        invariant TaggedCount(buffer) < TaggedCount(old(buffer)) && StillWaits(Bag(old(buffer)), Bag(buffer), all)
        invariant old(Tracks(d)) ==> Tracking(ready, d, seen, Bag(buffer + UntagAll(members[j..], resolvedTx)),
                                              resolvedTx, lamport, zoneClocks, stampHighWater)
      {
        var op := members[j];
        var tail := UntagAll(members[j + 1..], resolvedTx);
        var free := Untag(op, resolvedTx);
        CommitNext(buffer, buffered, resolvedTx, members, j, k);
        if ready(seen, op.body) {
          if old(Tracks(d)) {
            TrackApply(ready, d, seen, Bag(buffer + [free] + tail), resolvedTx, lamport, zoneClocks, stampHighWater,
                       free);
          }
          buffered := buffered - {op.id};
          RecordCovers(reservations, stampHighWater, client, op.stamp, op.span);
          ApplyNow(op);
        } else {
          StillWaitsMore(Bag(old(buffer)), Bag(buffer), Bag(buffer + [free]), all);
          Hold(free);
        }
        j := j + 1;
      }
      CommitEnd(buffer, members, resolvedTx);
    }

    /** Replay buffered ops to a fixpoint: an applied op can unblock a causal chain, and a
        spent key or a committed group can release more. */
    method DrainBuffer(ghost d: set<Op>)
      requires Valid()
      modifies `buffer, `buffered, `resolvedTx, `seen, `lamport, `zoneClocks, `stampHighWater, `reservations
      ensures Valid() && Settled() && (old(Tracks(d)) ==> Tracks(d))
      ensures TaggedCount(buffer) <= TaggedCount(old(buffer))
      ensures TaggedCount(old(buffer)) == 0 ==> resolvedTx == old(resolvedTx)
      ensures seen + buffered == old(seen + buffered) && old(seen) <= seen && old(resolvedTx) <= resolvedTx
      ensures old(reservations) <= reservations
      ensures StillWaits(Bag(old(buffer)), Bag(buffer), resolvedTx)
    {
      hide Tracking, BufferValid, Bag, StillWaits, TaggedCount, BucketsOf, Agreed, Complete, Quiet;
      StillWaitsHere(Bag(buffer), resolvedTx);
      while true
        invariant StillWaits(Bag(old(buffer)), Bag(buffer), resolvedTx)
        invariant Valid() && (old(Tracks(d)) ==> Tracks(d))
        invariant TaggedCount(buffer) <= TaggedCount(old(buffer))
        invariant TaggedCount(old(buffer)) == 0 ==> resolvedTx == old(resolvedTx)
        invariant seen + buffered == old(seen + buffered) && old(seen) <= seen && old(resolvedTx) <= resolvedTx
        invariant old(reservations) <= reservations
        decreases TaggedCount(buffer), |buffer|
      {
        ghost var held, spent := Bag(buffer), resolvedTx;
        var progressed := DrainReady(d);
        StillWaitsOn(Bag(old(buffer)), held, Bag(buffer), spent, resolvedTx);
        held, spent := Bag(buffer), resolvedTx;
        var groups := TxBuckets(buffer);
        BufferDistinct(buffer, buffered, resolvedTx);
        var split := ResolveDisagreeingTx(groups, d);
        if !split {
          var best := CompleteGroup(buffer, groups);
          if best.Some? {
            BucketAt(buffer, groups, best.value);
            CommitGroup(best.value, groups[best.value], d);
          } else if !progressed {
            NothingMoves(ready, buffer, seen, groups);
            break;
          }
        }
        StillWaitsOn(Bag(old(buffer)), held, Bag(buffer), spent, resolvedTx);
      }
    }

    /** Fold a foreign op in. The result says whether it is applied now; `d` is what had
        been received before it. */
    method Apply(op: Op, ghost d: set<Op>) returns (applied: bool)
      requires Valid() && Settled()
      modifies `reserved, `buffer, `buffered, `resolvedTx, `seen, `lamport, `zoneClocks, `stampHighWater, `reservations
      ensures Valid() && Settled() && old(seen) <= seen && old(resolvedTx) <= resolvedTx
      ensures old(reservations) <= reservations
      ensures if op.stamp.client == op.id.client && op.stamp.offset == 0 &&
                 op.stamp.lamport + op.span - 1 <= 0x7fff_ffff_ffff_ffff &&
                 (op.tx.None? || 1 <= op.tx.value.count <= 1000)
              then op.id in seen + buffered
              else !applied && reserved == old(reserved) && buffer == old(buffer) && buffered == old(buffered)
                   && resolvedTx == old(resolvedTx) && seen == old(seen) && lamport == old(lamport)
                   && zoneClocks == old(zoneClocks) && stampHighWater == old(stampHighWater)
      ensures Taken() == old(Taken()) + if IsAdmissible(op) then {op.id} else {}
      ensures seen + buffered == old(seen + buffered) + if IsAdmissible(op) then {op.id} else {}
      ensures IsAdmissible(op) && op.id !in old(seen + buffered) ==> Reserve(client, op.stamp, op.span) <= reservations
      ensures op.id in old(buffered) ==> !applied
      ensures op.id !in old(buffered) ==> (applied <==> op.id in seen - old(seen))
      ensures old(Tracks(d)) && SingleEnvelope(d + {op}) ==> Tracks(if IsAdmissible(op) then d + {op} else d)
      ensures StillWaits(Bag(old(buffer)), Bag(buffer), resolvedTx)
      ensures IsAdmissible(op) && op.id !in old(seen + buffered) && op.tx.Some? && KeyOf(op) !in resolvedTx ==>
                op in Bag(buffer)
    {
      hide Tracking, BufferValid, Bag, StillWaits, Quiet, Covered, HighAt, Reserve, ReservationEnd, SingleEnvelope;
      StillWaitsHere(Bag(buffer), resolvedTx);
      AdmissibleIff(op);
      if !IsAdmissible(op) {
        return false;
      }
      if op.id in seen || op.id in buffered {
        if Tracks(d) && SingleEnvelope(d + {op}) {
          KnownOp(ready, d, seen, buffer, buffered, resolvedTx, lamport, zoneClocks, stampHighWater, op);
        }
        if op.tx.Some? && op.id in buffered {
          SecondEnvelope(op, d);
        }
        return false;
      }
      applied := ApplyNew(op, d);
    }

    /** Fold in an op under an id not seen before. A member of a spent group is a stray and
        merges alone; a member of another waits for its group. */
    method ApplyNew(op: Op, ghost d: set<Op>) returns (applied: bool)
      requires Valid() && Settled() && IsAdmissible(op) && op.id !in seen && op.id !in buffered
      modifies `reserved, `buffer, `buffered, `resolvedTx, `seen, `lamport, `zoneClocks, `stampHighWater, `reservations
      ensures Valid() && Settled() && old(seen) <= seen && old(resolvedTx) <= resolvedTx
      ensures old(reservations) + Reserve(client, op.stamp, op.span) <= reservations
      ensures seen + buffered == old(seen + buffered) + {op.id} && reserved == old(reserved) - {op.id}
      ensures applied <==> op.id in seen
      ensures old(Tracks(d)) && SingleEnvelope(d + {op}) ==> Tracks(d + {op})
      ensures StillWaits(Bag(old(buffer)), Bag(buffer), resolvedTx)
      ensures op.tx.Some? && KeyOf(op) !in resolvedTx ==> op in Bag(buffer)
    {
      hide Tracking, BufferValid, Bag, StillWaits, Quiet, Covered, HighAt, Reserve, Recorded, ReservationEnd,
           ClockReach, AdvanceZone, MaxOf, SingleEnvelope;
      reserved := reserved - {op.id};
      var arrived := if op.tx.Some? && KeyOf(op) in resolvedTx then op.(tx := None) else op;
      ghost var e := d + {op};
      ghost var on := old(Tracks(d)) && SingleEnvelope(e);
      if on {
        NewOp(ready, d, seen, buffer, buffered, resolvedTx, lamport, zoneClocks, stampHighWater, op);
      }
      if arrived.tx.None? && ready(seen, op.body) {
        BufferAdd(buffer, buffered, resolvedTx, arrived);
        RecordCovers(reservations, stampHighWater, client, op.stamp, op.span);
        if on {
          NewApplied(ready, e, seen, Bag(buffer), resolvedTx, lamport, zoneClocks, stampHighWater, arrived);
        }
        ApplyNow(arrived);
        DrainBuffer(e);
        return true;
      }
      HoldNew(arrived, e);
      applied := op.id in seen;
    }

    /** Hold a new op. A member of a group may complete it; an op not yet ready moves nothing. */
    method HoldNew(op: Op, ghost e: set<Op>)
      requires Valid() && Settled() && IsAdmissible(op) && op.id !in Taken()
      requires if op.tx.Some? then KeyOf(op) !in resolvedTx else !ready(seen, op.body)
      modifies `buffer, `buffered, `resolvedTx, `seen, `lamport, `zoneClocks, `stampHighWater, `reservations
      ensures Valid() && Settled() && old(seen) <= seen && old(resolvedTx) <= resolvedTx
      ensures old(reservations) + Reserve(client, op.stamp, op.span) <= reservations
      ensures seen + buffered == old(seen + buffered) + {op.id} && (op.tx.None? ==> seen == old(seen))
      ensures old(AwaitsOnly(e, op)) ==> Tracks(e)
      ensures StillWaits(Bag(old(buffer)), Bag(buffer), resolvedTx)
      ensures op.tx.Some? && KeyOf(op) !in resolvedTx ==> op in Bag(buffer)
    {
      hide Tracking, BufferValid, Bag, StillWaits, Quiet, Covered, HighAt, Reserve, Recorded, ReservationEnd;
      ghost var held := Bag(buffer);
      BufferAdd(buffer, buffered, resolvedTx, op);
      RecordCovers(reservations, stampHighWater, client, op.stamp, op.span);
      ArrivalWaits(buffer, resolvedTx, op);
      RecordStamp(op.stamp, op.span);
      if op.tx.Some? {
        Hold(op);
        DrainBuffer(e);
        ArrivedWaits(held, op, Bag(buffer), resolvedTx);
      } else {
        StillQuiet(ready, buffer, seen, op);
        Hold(op);
      }
    }

    /** A second envelope for a member the buffer holds under another group: both keys are
        spent, since which of the two groups the id ends up in is the arrival order's. */
    method SecondEnvelope(op: Op, ghost d: set<Op>)
      requires Valid() && Settled() && op.tx.Some? && op.id in buffered
      modifies `buffer, `buffered, `resolvedTx, `seen, `lamport, `zoneClocks, `stampHighWater, `reservations
      ensures Valid() && Settled()
      ensures seen + buffered == old(seen + buffered) && old(seen) <= seen && old(resolvedTx) <= resolvedTx
      ensures old(reservations) <= reservations
      ensures (exists o :: o in Bag(old(buffer)) && o.id == op.id && (o.tx.None? || o.tx == op.tx)) ==>
                buffer == old(buffer) && buffered == old(buffered) && resolvedTx == old(resolvedTx) && seen == old(seen)
                && lamport == old(lamport) && zoneClocks == old(zoneClocks) && stampHighWater == old(stampHighWater)
      ensures forall o :: o in Bag(old(buffer)) && o.id == op.id && o.tx.Some? && o.tx != op.tx ==>
                KeyOf(o) in resolvedTx && KeyOf(op) in resolvedTx
      ensures StillWaits(Bag(old(buffer)), Bag(buffer), resolvedTx)
    {
      hide Tracking, StillWaits, Quiet, TaggedCount, Reach;
      StillWaitsHere(Bag(buffer), resolvedTx);
      var i := 0;
      while i < |buffer| && buffer[i].id != op.id
        invariant 0 <= i <= |buffer|
        invariant forall j :: 0 <= j < i ==> buffer[j].id != op.id
        invariant buffer == old(buffer) && buffered == old(buffered) && resolvedTx == old(resolvedTx)
        invariant seen == old(seen)
        invariant lamport == old(lamport) && zoneClocks == old(zoneClocks) && stampHighWater == old(stampHighWater)
      {
        i := i + 1;
      }
      HeldAtPosition(buffer, op.id, i);
      var held := buffer[i].tx;
      if held.Some? && held != op.tx {
        Spend({(op.id.client, held.value.id), KeyOf(op)}, d);
        ghost var loose, spent := Bag(buffer), resolvedTx;
        DrainBuffer(d);
        StillWaitsOn(Bag(old(buffer)), loose, Bag(buffer), spent, resolvedTx);
      }
    }

    /** Give up on every group still waiting: spend its key and let its members merge alone. */
    method EvictPartialTransactions() returns (evicted: nat)
      requires Valid() && Settled()
      modifies `buffer, `buffered, `resolvedTx, `seen, `lamport, `zoneClocks, `stampHighWater, `reservations
      ensures Valid() && Settled() && forall o :: o in Bag(buffer) ==> o.tx.None?
      ensures seen + buffered == old(seen + buffered) && old(seen) <= seen && old(reservations) <= reservations
      ensures old(resolvedTx) + (set o | o in Bag(old(buffer)) && o.tx.Some? :: KeyOf(o)) == resolvedTx
      ensures evicted == |resolvedTx - old(resolvedTx)|
      ensures StillWaits(Bag(old(buffer)), Bag(buffer), resolvedTx)
    {
      hide Tracking, StillWaits, Quiet, TaggedCount, Covered, HighAt, Reserve, ReservationEnd;
      var groups := TxBuckets(buffer);
      EvictKeys(buffer, buffered, resolvedTx, groups);
      StillWaitsHere(Bag(buffer), resolvedTx);
      if groups == map[] {
        return 0;
      }
      evicted := |groups|;
      EvictUntags(buffer, resolvedTx + groups.Keys);
      Spend(groups.Keys, {});
      ghost var loose, spent := Bag(buffer), resolvedTx;
      DrainBuffer({});
      StillWaitsOn(Bag(old(buffer)), loose, Bag(buffer), spent, resolvedTx);
      NoneTagged(buffer);
    }

    // ---- minting ----

    /** Some sequence under this replica's identity is not taken. */
    ghost predicate HasFree()
      reads this
    {
      exists n: nat :: n < U64_LIMIT && OpId(client, n) !in Taken()
    }

    /** The first sequence at or after `from`, wrapping, that no held id uses. One step for
        each held id is enough to reach one if any is free. */
    method FreeSeq(from: nat) returns (number: nat)
      requires Valid() && from < U64_LIMIT
      ensures number < U64_LIMIT
      ensures HasFree() ==> OpId(client, number) !in Taken()
    {
      hide BufferValid, Covered, HighAt;
      number := from;
      var steps := |seen| + |buffered| + |reserved|;
      var i := 0;
      while i < steps
        invariant 0 <= i <= steps && number == (from + i) % U64_LIMIT
        invariant forall j :: 0 <= j < i ==> Walked(client, from, j) in Taken()
      {
        var id := OpId(client, number);
        if id !in seen && id !in buffered && id !in reserved {
          return;
        }
        assert Walked(client, from, i) == id;
        number := (number + 1) % U64_LIMIT;
        i := i + 1;
      }
      UnionSize(seen, buffered, reserved);
      if HasFree() {
        WalkEscapes(client, from, Taken());
      }
    }

    /** Take the next op id this replica has not published. */
    method MintOpId() returns (id: OpId)
      requires Valid() && HasFree()
      modifies `seen, `nextSeq
      ensures Valid() && id.client == client && id !in old(Taken())
      ensures seen == old(seen) + {id} && nextSeq == (id.number + 1) % U64_LIMIT
    {
      hide BufferValid, Covered, HighAt;
      nextSeq := FreeSeq(nextSeq);
      id := OpId(client, nextSeq);
      nextSeq := (nextSeq + 1) % U64_LIMIT;
      seen := seen + {id};
    }

    /** Reserve what a redacted catch-up withheld of this replica's own run: the sequences
        it names, and the position the ops behind them reach. */
    method NotePublished(numbers: seq<nat>, reach: nat)
      requires Valid()
      modifies `reserved, `stampHighWater, `reservations
      ensures Valid() && Taken() == old(Taken()) + set n | n in numbers :: OpId(client, n)
      ensures old(reservations) <= reservations
      ensures stampHighWater == Recorded(old(stampHighWater), client, MinOf(reach, STATE_CEILING))
    {
      hide BufferValid, Covered, HighAt;
      var i := 0;
      while i < |numbers|
        invariant 0 <= i <= |numbers| && stampHighWater == old(stampHighWater) && reservations == old(reservations)
        invariant Valid() && Taken() == old(Taken()) + set n | n in numbers[..i] :: OpId(client, n)
      {
        assert numbers[..i + 1] == numbers[..i] + [numbers[i]];
        var id := OpId(client, numbers[i]);
        assert (set n | n in numbers[..i + 1] :: OpId(client, n)) ==
               (set n | n in numbers[..i] :: OpId(client, n)) + {id};
        if id !in seen && id !in buffered {
          reserved := reserved + {id};
        }
        i := i + 1;
      }
      assert numbers[..i] == numbers;
      var stamp := Stamp(MinOf(reach, STATE_CEILING), client, 0);
      RecordCovers(reservations, stampHighWater, client, stamp, 1);
      RecordStamp(stamp, 1);
    }

    function Clock(zone: Option<nat>): nat
      reads this
    {
      ClockOf(lamport, zoneClocks, zone)
    }

    /** The highest position a local mint must clear. */
    function MintFloor(zone: Option<nat>): nat
      reads this
    {
      if client in stampHighWater then MaxOf(Clock(zone), stampHighWater[client]) else Clock(zone)
    }

    /** Mint identity and causal position for a local edit and apply it, or refuse and latch.
        `d` is what had been received or minted before it. */
    method EmitStamped(zone: Option<nat>, span: Span, body: nat, ghost d: set<Op>) returns (r: Option<Op>)
      requires Valid() && HasFree()
      modifies `lamport, `zoneClocks, `stampHighWater, `reservations, `seen, `nextSeq, `pending, `mintRefused
      ensures Valid()
      ensures var clock := old(if zone.None? then lamport
                               else if zone.value in zoneClocks then zoneClocks[zone.value] else 0);
              var own := old(if client in stampHighWater then stampHighWater[client] else 0);
              var floor := if own > clock then own else clock;
              && (r.Some? <==> !old(mintRefused) && floor + span <= 0x7fff_ffff_ffff_ffff)
              && (r.Some? ==> r.value.stamp == Stamp(floor + 1, client, 0))
      ensures r.None? ==> mintRefused && lamport == old(lamport) && zoneClocks == old(zoneClocks) && seen == old(seen)
      ensures r.None? ==> stampHighWater == old(stampHighWater) && reservations == old(reservations)
      ensures r.None? ==> nextSeq == old(nextSeq) && pending == old(pending)
      ensures r.Some? ==> Minted(client, old(Taken()), old(reservations), old(Clock(zone)), r.value)
      ensures r.Some? ==> r.value.zone == zone && r.value.span == span && r.value.body == body && r.value.tx.None?
      ensures r.Some? ==> seen == old(seen) + {r.value.id} && pending == old(pending) + [r.value] && !mintRefused
      ensures r.Some? ==> reservations == old(reservations) + Reserve(client, r.value.stamp, span)
      ensures r.Some? ==> Clock(zone) == Reach(r.value)
      ensures r.Some? ==> forall z :: z != zone ==>
                ClockOf(lamport, zoneClocks, z) == ClockOf(old(lamport), old(zoneClocks), z)
      ensures r.Some? && old(Tracks(d)) && ready(old(seen), body) && Reach(r.value) <= WIRE_CEILING ==>
                Tracks(d + {r.value})
      ensures r.Some? && old(Tracks(d)) ==>
                forall o :: o in d && o.id in old(seen) && o.zone == zone &&
                            o.stamp.lamport + o.span - 1 <= 0x3fff_ffff_ffff_ffff ==>
                  o.stamp.lamport + o.span - 1 < r.value.stamp.lamport && Less(o.stamp, r.value.stamp)
    {
      hide Tracking, BufferValid, Bag, Covered, Reserve, Minted, HighAt, Apart;
      if mintRefused {
        return None;
      }
      var position := MintPosition(MintFloor(zone), span, client);
      if position.None? {
        mintRefused := true;
        return None;
      }
      if Tracks(d) {
        AboveApplied(ready, d, seen, Bag(buffer), resolvedTx, lamport, zoneClocks, stampHighWater, zone,
                     position.value);
      }
      var op := EmitAt(position.value, zone, span, body, d);
      return Some(op);
    }

    /** Mint an op at a position above everything recorded, and apply it. */
    method EmitAt(stamp: Stamp, zone: Option<nat>, span: Span, body: nat, ghost d: set<Op>) returns (op: Op)
      requires Valid() && HasFree() && stamp.client == client && stamp.offset == 0
      requires MintFloor(zone) < stamp.lamport && stamp.lamport + span - 1 <= STATE_CEILING
      modifies `lamport, `zoneClocks, `stampHighWater, `reservations, `seen, `nextSeq, `pending
      ensures Valid() && Minted(client, old(Taken()), old(reservations), old(Clock(zone)), op)
      ensures op.stamp == stamp && op.zone == zone && op.span == span && op.body == body && op.tx.None?
      ensures seen == old(seen) + {op.id} && pending == old(pending) + [op]
      ensures reservations == old(reservations) + Reserve(client, stamp, span)
      ensures Clock(zone) == Reach(op)
      ensures forall z :: z != zone ==> ClockOf(lamport, zoneClocks, z) == ClockOf(old(lamport), old(zoneClocks), z)
      ensures old(Tracks(d)) && ready(old(seen), body) && Reach(op) <= WIRE_CEILING ==> Tracks(d + {op})
    {
      hide Tracking, BufferValid, Bag, Covered, Reserve, Recorded, AdvanceZone;
      var last := stamp.lamport + span - 1;
      ClearOfAll(reservations, HighAt(stampHighWater, client), stamp.lamport);
      AdvanceClock(zone, last);
      AdvancedClock(old(lamport), old(zoneClocks), zone, last);
      var id := MintOpId();
      RecordCovers(reservations, stampHighWater, client, stamp, span);
      RecordStamp(stamp, span);
      op := Op(id, stamp, span, zone, None, body);
      pending := pending + [op];
      if old(Tracks(d)) && ready(old(seen), body) && Reach(op) <= WIRE_CEILING {
        MintedTracks(ready, d, old(seen), buffer, buffered, resolvedTx, old(lamport), old(zoneClocks),
                     old(stampHighWater), op);
      }
    }

    /** One edit of an intention, on top of those already pending. */
    method EmitNext(edit: Edit, ghost taken: set<OpId>, ghost before: set<(nat, nat)>, ghost d: set<Op>)
      requires Valid() && |Taken()| < U64_LIMIT && before <= reservations
      requires Fresh(client, taken, before, pending) && Kept(pending, Taken(), reservations)
      requires Taken() == taken + IdsOf(pending)
      modifies `lamport, `zoneClocks, `stampHighWater, `reservations, `seen, `nextSeq, `pending, `mintRefused
      ensures Valid() && before <= reservations
      ensures Fresh(client, taken, before, pending) && Kept(pending, Taken(), reservations)
      ensures Taken() == taken + IdsOf(pending)
      ensures old(mintRefused) ==> mintRefused
      ensures mintRefused ==> pending == old(pending) && Taken() == old(Taken()) && seen == old(seen)
      ensures mintRefused && old(Tracks(d)) ==> Tracks(d)
      ensures !mintRefused ==>
                |Taken()| == |old(Taken())| + 1 && |pending| == |old(pending)| + 1 && old(pending) < pending
      ensures !mintRefused ==> var op := pending[|old(pending)|]; Answers(op, edit)
      ensures !mintRefused ==>
                var op := pending[|old(pending)|]; pending == old(pending) + [op] && seen == old(seen) + {op.id}
      ensures !mintRefused ==> var op := pending[|old(pending)|];
                old(Tracks(d)) && ready(old(seen), op.body) && Reach(op) <= WIRE_CEILING ==> Tracks(d + {op})
    {
      hide BufferValid, Bag, Covered, HighAt, Minted, Fresh, Kept, Tracking, Quiet, TaggedCount, IdsOf, Reach, Reserve,
           Apart, ClockOf, MaxOf, IsAdmissible;
      var n := FreeExists(client, Taken());
      var op := EmitStamped(edit.zone, edit.span, edit.body, d);
      if op.Some? {
        FreshStep(client, taken, before, old(pending), old(Taken()), old(reservations), old(Clock(edit.zone)),
                  op.value);
        assert Taken() == old(Taken()) + {op.value.id};
      }
    }

    /** Emit the edits of one intention in order. A refused edit refuses the rest. */
    method EmitAll(edits: seq<Edit>, ghost d: set<Op>)
      requires Valid() && |Taken()| + |edits| < U64_LIMIT && pending == [] && !mintRefused
      modifies `lamport, `zoneClocks, `stampHighWater, `reservations, `seen, `nextSeq, `pending, `mintRefused
      ensures Valid() && Fresh(client, old(Taken()), old(reservations), pending) && Kept(pending, Taken(), reservations)
      ensures seen == old(seen) + IdsOf(pending) && old(reservations) <= reservations
      ensures |pending| <= |edits| && (mintRefused <==> |pending| < |edits|)
      ensures forall j :: 0 <= j < |pending| ==> Answers(pending[j], edits[j])
      ensures old(Tracks(d)) && Followed(ready, old(seen), pending) ==> Tracks(d + Bag(pending))
    {
      hide BufferValid, Bag, Covered, HighAt, Fresh, Kept, Tracking, IdsOf, Reach, Apart, IsAdmissible, Followed;
      NoneFresh(client, Taken(), reservations);
      NoneInBag(d);
      var i := 0;
      while i < |edits|
        invariant 0 <= i <= |edits| && Valid() && old(reservations) <= reservations
        invariant |pending| <= i && (mintRefused <==> |pending| < i)
        invariant Fresh(client, old(Taken()), old(reservations), pending) && Kept(pending, Taken(), reservations)
        invariant Taken() == old(Taken()) + IdsOf(pending) && |Taken()| <= |old(Taken())| + i
        invariant forall j :: 0 <= j < |pending| ==> Answers(pending[j], edits[j])
        invariant seen == old(seen) + IdsOf(pending)
        invariant old(Tracks(d)) && Followed(ready, old(seen), pending) ==> Tracks(d + Bag(pending))
      {
        ghost var sofar := pending;
        EmitNext(edits[i], old(Taken()), old(reservations), d + Bag(pending));
        if !mintRefused {
          FollowedMore(ready, old(seen), d, sofar, pending[|sofar|]);
        }
        i := i + 1;
      }
    }

    /** Gather local edits into ops, applying each as it is emitted, then replay what they
        unblocked. `d` is what had been received or minted before. */
    method Transact(edits: seq<Edit>, ghost d: set<Op>) returns (ops: seq<Op>)
      requires Valid() && |Taken()| + |edits| < U64_LIMIT
      modifies this
      ensures Valid() && Settled() && Fresh(client, old(Taken()), old(reservations), ops)
      ensures seen + buffered == old(seen + buffered) + IdsOf(ops) && reserved == old(reserved)
      ensures old(reservations) <= reservations && Kept(ops, Taken(), reservations) && pending == []
      ensures |ops| <= |edits| && (mintRefused <==> |ops| < |edits|)
      ensures forall i :: 0 <= i < |ops| ==> Answers(ops[i], edits[i])
      ensures old(Tracks(d)) && Followed(ready, old(seen), ops) ==> Tracks(d + Bag(ops))
      ensures old(seen) <= seen && old(resolvedTx) <= resolvedTx
      ensures StillWaits(Bag(old(buffer)), Bag(buffer), resolvedTx)
    {
      hide BufferValid, Bag, StillWaits, Covered, HighAt, Fresh, Kept, Tracking, Quiet, TaggedCount, IdsOf, Reach,
           Apart, Followed, Answers;
      pending, mintRefused := [], false;
      EmitAll(edits, d);
      ghost var minted, ivs := Taken(), reservations;
      DrainBuffer(d + Bag(pending));
      KeptGrows(pending, minted, ivs, Taken(), reservations);
      ops := pending;
      pending := [];
    }

    /** Fold a batch of foreign ops in, in the order given: every admissible id is held after
        it, a group already waiting stays together until its key is spent, and the record of
        what was received stays exact where each id came under one envelope. */
    method Deliver(ops: seq<Op>, ghost d: set<Op>)
      requires Valid() && Settled()
      modifies `reserved, `buffer, `buffered, `resolvedTx, `seen, `lamport, `zoneClocks, `stampHighWater, `reservations
      ensures Valid() && Settled() && old(seen) <= seen && old(resolvedTx) <= resolvedTx
      ensures seen + buffered == old(seen + buffered) + Ids(Admitted(Bag(ops)))
      ensures StillWaits(Bag(old(buffer)), Bag(buffer), resolvedTx)
      ensures old(Tracks(d)) && SingleEnvelope(d + Bag(ops)) ==>
                && Tracks(d + Admitted(Bag(ops)))
                && (forall op :: op in d + Admitted(Bag(ops)) && op.tx.Some? && KeyOf(op) !in resolvedTx ==>
                      op.id !in seen && op in Bag(buffer))
    {
      hide Tracking, BufferValid, Bag, Quiet, Covered, HighAt, SingleEnvelope, StillWaits, Apart, IsAdmissible, Reserve,
           Ids, Admitted;
      ghost var on := old(Tracks(d)) && SingleEnvelope(d + Bag(ops));
      var i := 0;
      AdmittedNone(d, ops);
      StillWaitsHere(Bag(buffer), resolvedTx);
      while i < |ops|
        invariant 0 <= i <= |ops| && Valid() && Settled() && old(seen) <= seen && old(resolvedTx) <= resolvedTx
        invariant seen + buffered == old(seen + buffered) + Ids(Admitted(Bag(ops[..i])))
        invariant StillWaits(Bag(old(buffer)), Bag(buffer), resolvedTx)
        invariant on ==> Tracks(d + Admitted(Bag(ops[..i])))
      {
        AdmittedMore(d, ops, i);
        ghost var held, spent := Bag(buffer), resolvedTx;
        var applied := Apply(ops[i], d + Admitted(Bag(ops[..i])));
        StillWaitsOn(Bag(old(buffer)), held, Bag(buffer), spent, resolvedTx);
        i := i + 1;
      }
      assert ops[..i] == ops;
      if on {
        NoneEarly(this, d + Admitted(Bag(ops)));
      }
    }

    /** What is on record: the ids held, all the ids taken, and the intervals reserved. */
    ghost function Record(): Mark
      reads this
    {
      Mark(seen + buffered, Taken(), reservations, Bag(buffer), seen, resolvedTx, mintRefused)
    }

    /** Any run of deliveries, withheld-run notices, evictions and local intentions: no id
        once taken is ever released, and the ops minted over the run never share an id or a
        position with each other or with anything on record before them, delivered during the
        run or before it. `marks` is the record before each step and at the end. */
    method Run(steps: seq<Step>) returns (batches: seq<seq<Op>>, ghost marks: seq<Mark>)
      requires Valid() && Settled() && |Taken()| + Cost(steps) < U64_LIMIT
      modifies this
      ensures Valid() && Settled() && old(Taken()) <= Taken()
      ensures Traced(client, steps, batches, marks) && marks[0] == old(Record()) && marks[|steps|] == Record()
    {
      hide BufferValid, Bag, Covered, HighAt, Fresh, Kept, Tracking, Quiet, TaggedCount, Apart, IsAdmissible, Reserve,
           Cost, StepKept;
      batches, marks := [], [Record()];
      ghost var left := steps;
      var i := 0;
      while i < |steps|
        invariant 0 <= i <= |steps| && left == steps[i..] && Valid() && Settled()
        invariant old(Taken()) <= Taken() && |Taken()| + Cost(left) < U64_LIMIT
        invariant Traced(client, steps[..i], batches, marks) && marks[0] == old(Record()) && marks[i] == Record()
      {
        CostStep(left);
        ghost var before := Record();
        var ops := Perform(steps[i]);
        TraceMore(client, steps, i, batches, marks, ops, Record());
        batches, marks := batches + [ops], marks + [Record()];
        i := i + 1;
        left := left[1..];
      }
      assert steps[..i] == steps;
    }

    method Perform(step: Step) returns (ops: seq<Op>)
      requires Valid() && Settled() && |Taken()| + StepCost(step) < U64_LIMIT
      modifies this
      ensures Valid() && Settled() && old(Taken()) <= Taken() && old(reservations) <= reservations
      ensures |Taken()| <= |old(Taken())| + StepCost(step)
      ensures StepKept(client, step, old(Record()), Record(), ops)
    {
      hide BufferValid, Bag, Covered, HighAt, Minted, Fresh, Kept, Tracking, Quiet, TaggedCount, Apart, IsAdmissible,
           Reserve, Recorded, MinOf, IdsOf, Followed, StillWaits, HeldBack, Answered, Answers;
      ops := [];
      NoneFresh(client, Taken(), reservations);
      StillWaitsHere(Bag(buffer), resolvedTx);
      match step {
        case Receive(op) =>
          var applied := Apply(op, {});
        case Withheld(numbers, reach) =>
          NotePublished(numbers, reach);
          NumbersSize(client, numbers);
        case Evict =>
          var evicted := EvictPartialTransactions();
        case Edits(edits) =>
          ops := Transact(edits, {});
          IdsSize(ops);
          assert Taken() == old(Taken()) + IdsOf(ops);
      }
      NoneKept(Taken(), reservations);
      WaitingApart(buffer, buffered, resolvedTx, seen, reserved);
      BackHeld(step, old(Record()), Record());
      AnsweredBy(step, Record(), ops);
    }
  }

  /** Two replicas under one gate that have received the same ops and settled stand in the
      same state, whatever order the ops came in: it is the one the set itself decides. */
  lemma SettledState(doc: Document, d: set<Op>)
    requires doc.Valid() && doc.Tracks(d) && doc.Settled()
    ensures doc.seen == Applied(doc.ready, d) && doc.resolvedTx == SpentKeys(d)
    ensures Bag(doc.buffer) == Held(d, Applied(doc.ready, d), SpentKeys(d))
    ensures ClocksOf(d, Applied(doc.ready, d), doc.lamport, doc.zoneClocks) && HighOf(d, doc.stampHighWater)
  {
    hide Mid, Quiet, Held, Applied, SpentKeys, ClocksOf, HighOf, BufferValid;
    QuietIsWhole(doc.ready, d, doc.seen, doc.resolvedTx);
  }

  lemma Converge(a: Document, b: Document, d: set<Op>)
    requires a.Valid() && a.Tracks(d) && a.Settled() && b.Valid() && b.Tracks(d) && b.Settled() && a.ready == b.ready
    ensures a.seen == b.seen && a.buffered == b.buffered && Bag(a.buffer) == Bag(b.buffer)
    ensures a.resolvedTx == b.resolvedTx
    ensures a.lamport == b.lamport && a.zoneClocks == b.zoneClocks && a.stampHighWater == b.stampHighWater
  {
    hide Quiet, Held, Applied, SpentKeys, Tracking, ClocksOf, HighOf;
    SettledState(a, d);
    SettledState(b, d);
    ClocksUnique(d, a.seen, a.lamport, a.zoneClocks, b.lamport, b.zoneClocks);
    HighUnique(d, a.stampHighWater, b.stampHighWater);
  }

  /** No member of a group whose key is unspent has ever been applied. */
  lemma NoneEarly(doc: Document, d: set<Op>)
    requires doc.Tracks(d)
    ensures forall op :: op in d && op.tx.Some? && KeyOf(op) !in doc.resolvedTx ==>
              op.id !in doc.seen && op in Bag(doc.buffer)
  {
    hide Applied, ClocksOf, HighOf, Unanimous, Spent, Bag;
    assert forall op :: op in d && op.tx.Some? && KeyOf(op) !in doc.resolvedTx ==> Untag(op, doc.resolvedTx) == op;
  }

  /** Two fresh replicas fed the same ops, each in its own order, end in the same state. */
  method FoldBothWays(gate: Ready, one: nat, two: nat, ops: seq<Op>, other: seq<Op>) returns (a: Document, b: Document)
    requires Monotone(gate) && SingleEnvelope(Bag(ops)) && Bag(ops) == Bag(other)
    ensures a.seen == b.seen && a.buffered == b.buffered && Bag(a.buffer) == Bag(b.buffer)
    ensures a.resolvedTx == b.resolvedTx
    ensures a.lamport == b.lamport && a.zoneClocks == b.zoneClocks && a.stampHighWater == b.stampHighWater
    ensures a.seen == Applied(gate, Admitted(Bag(ops))) && a.resolvedTx == SpentKeys(Admitted(Bag(ops)))
  {
    hide Tracking, BufferValid, Bag, Quiet, Covered, HighAt, SingleEnvelope, Applied, SpentKeys, Monotone, Admitted;
    a := new Document(one, gate);
    b := new Document(two, gate);
    assert {} + Bag(ops) == Bag(ops);
    assert {} + Admitted(Bag(ops)) == Admitted(Bag(ops));
    a.Deliver(ops, {});
    b.Deliver(other, {});
    SettledState(a, Admitted(Bag(ops)));
    Converge(a, b, Admitted(Bag(ops)));
  }

  /** A fresh replica with everything ready, fed members of one group in any order and with any
      of them sent again: none applies until as many are there as the group declares, and then all do. */
  method FoldGroup(gate: Ready, who: nat, author: nat, group: nat, n: nat, ops: seq<Op>) returns (doc: Document)
    requires (forall s, body :: gate(s, body)) && 1 <= n <= 1000 && SingleEnvelope(Bag(ops))
    requires forall op :: op in Bag(ops) ==>
               && op.id.client == author && op.stamp.client == author && op.stamp.offset == 0
               && op.stamp.lamport + op.span - 1 <= 0x7fff_ffff_ffff_ffff && op.tx == Some(Tx(group, n))
    ensures |Bag(ops)| < n ==> doc.seen == {} && Bag(doc.buffer) == Bag(ops) && doc.resolvedTx == {}
    ensures |Bag(ops)| >= n ==>
              && doc.seen == (set op | op in Bag(ops) :: op.id) && doc.buffer == []
              && doc.resolvedTx == {(author, group)}
  {
    hide Tracking, BufferValid, Bag, Quiet, Covered, HighAt, SingleEnvelope, IsAdmissible, Applied, SpentKeys, Held;
    doc := new Document(who, gate);
    ghost var d := Bag(ops);
    forall op | op in d
      ensures IsAdmissible(op)
    {
      AdmissibleIff(op);
    }
    assert {} + d == d && Admitted(d) == d && {} + Admitted(d) == d;
    doc.Deliver(ops, {});
    SettledState(doc, d);
    GroupDecides(gate, d, (author, group), n);
    HeldNone(doc.buffer);
  }

  /** A committed batch delivered to a settled peer that stood where its author did leaves the
      two in one state, as long as each op was ready when it was made and lies below the wire
      ceiling. */
  method CommitAndDeliver(author: Document, peer: Document, edits: seq<Edit>, ghost d: set<Op>) returns (ops: seq<Op>)
    requires author != peer && author.ready == peer.ready && author.Valid() && author.Settled() && author.Tracks(d)
    requires peer.Valid() && peer.Settled() && peer.Tracks(d) && |author.Taken()| + |edits| < U64_LIMIT
    modifies author, peer
    ensures author.Valid() && author.Settled() && peer.Valid() && peer.Settled()
    ensures Followed(author.ready, old(author.seen), ops) ==>
              && author.seen == peer.seen && author.buffered == peer.buffered && Bag(author.buffer) == Bag(peer.buffer)
              && author.resolvedTx == peer.resolvedTx && author.lamport == peer.lamport
              && author.zoneClocks == peer.zoneClocks && author.stampHighWater == peer.stampHighWater
  {
    hide Tracking, BufferValid, Bag, Quiet, Covered, HighAt, Followed, Fresh, Kept, IdsOf, Apart;
    TrackedTaken(author, d);
    ghost var taken, before := author.Taken(), author.reservations;
    ops := author.Transact(edits, d);
    FreshEnvelopes(author.client, taken, before, d, ops);
    peer.Deliver(ops, d);
    if Followed(author.ready, old(author.seen), ops) {
      Converge(author, peer, d + Bag(ops));
    }
  }

  lemma TrackedTaken(doc: Document, d: set<Op>)
    requires doc.Valid() && doc.Tracks(d)
    ensures SingleEnvelope(d) && forall op :: op in d ==> op.id in doc.Taken()
  {
    hide Applied, ClocksOf, HighOf, Unanimous, Spent, Covered, HighAt, AllAdmissible, DistinctIds;
    forall op | op in d
      ensures op.id in doc.Taken()
    {
      if op.id !in doc.seen {
        assert op.id in Ids(d);
        HeldIds(d, doc.seen, doc.resolvedTx, op.id);
      }
    }
  }
}
