/** Last-writer-wins map slots with the container create each key retains. */
module MapSlots {
  import opened Stamps

  type Key = seq<nat>

  datatype Kind = Scalar | Register | Counter | Map | List | Text | XmlElement | XmlFragment

  function Tag(kind: Kind): nat {
    match kind
    case Scalar => 0
    case Register => 1
    case Counter => 2
    case Map => 3
    case List => 4
    case Text => 5
    case XmlElement => 6
    case XmlFragment => 7
  }

  predicate IsContainer(kind: Kind) {
    kind == Map || kind == List || kind == Text || kind == XmlElement || kind == XmlFragment
  }

  /** What sits in a slot: its kind, and its element id or, for a scalar, its content. */
  datatype Value = Value(kind: Kind, id: nat)

  /** The identity a snapshot migration resurrects a container by. */
  datatype Create = Create(stamp: Stamp, kind: Kind)

  datatype Entry = Entry(stamp: Stamp, value: Option<Value>, tombstone: bool, container: Option<Create>)

  datatype Write = Set(stamp: Stamp, value: Value) | Delete(stamp: Stamp)

  // ---- ranks ----

  predicate Above(a: Create, b: Create) {
    Less(b.stamp, a.stamp) || (a.stamp == b.stamp && Tag(a.kind) > Tag(b.kind))
  }

  /** The higher-ranked of two retained creates. */
  function Higher(a: Option<Create>, b: Option<Create>): Option<Create> {
    match (a, b)
    case (Some(x), Some(y)) => Some(if Above(y, x) then y else x)
    case (_, None) => a
    case (None, _) => b
  }

  function CreateOf(value: Value, stamp: Stamp): Option<Create> {
    if IsContainer(value.kind) then Some(Create(stamp, value.kind)) else None
  }

  lemma AboveTotal(a: Create, b: Create, c: Create)
    ensures !(Above(a, b) && Above(b, a)) && (a != b ==> Above(a, b) || Above(b, a))
    ensures Above(a, b) && Above(b, c) ==> Above(a, c)
  {
  }

  // ---- what a set of writes comes to ----

  /** A stamp determines its write. */
  ghost predicate OneWrite(ws: set<Write>) {
    forall a, b :: a in ws && b in ws && a.stamp == b.stamp ==> a == b
  }

  ghost predicate Latest(ws: set<Write>, w: Write) {
    w in ws && forall v :: v in ws ==> AtMost(v.stamp, w.stamp)
  }

  ghost predicate CreateIn(ws: set<Write>, c: Create) {
    exists w :: w in ws && w.Set? && CreateOf(w.value, w.stamp) == Some(c)
  }

  /** The retained create is the highest-ranked create ever written, whether or not it won. */
  ghost predicate Retained(ws: set<Write>, container: Option<Create>) {
    match container
    case None => forall c :: !CreateIn(ws, c)
    case Some(k) => CreateIn(ws, k) && forall c :: CreateIn(ws, c) ==> c == k || Above(k, c)
  }

  ghost predicate Shows(e: Entry, w: Write) {
    && e.stamp == w.stamp
    && (if w.Set? then !e.tombstone && e.value == Some(w.value) else e.tombstone && e.value == None)
  }

  /** A slot that has seen exactly the writes `ws`. */
  ghost predicate Sums(ws: set<Write>, slot: Option<Entry>) {
    match slot
    case None => ws == {}
    case Some(e) => Retained(ws, e.container) && exists w :: Latest(ws, w) && Shows(e, w)
  }

  lemma SumsUnique(ws: set<Write>, a: Option<Entry>, b: Option<Entry>)
    requires OneWrite(ws) && Sums(ws, a) && Sums(ws, b)
    ensures a == b
  {
    hide CreateIn, Above;
    if a.Some? && b.Some? {
      var v :| Latest(ws, v) && Shows(a.value, v);
      var w :| Latest(ws, w) && Shows(b.value, w);
      LatestUnique(ws, v, w);
      RetainedUnique(ws, a.value.container, b.value.container);
    }
  }

  lemma LatestUnique(ws: set<Write>, v: Write, w: Write)
    requires OneWrite(ws) && Latest(ws, v) && Latest(ws, w)
    ensures v == w
  {
  }

  lemma RetainedUnique(ws: set<Write>, a: Option<Create>, b: Option<Create>)
    requires Retained(ws, a) && Retained(ws, b)
    ensures a == b
  {
    hide CreateIn, Above;
    if a.Some? && b.Some? {
      AboveTotal(a.value, b.value, a.value);
    }
  }

  lemma CreateInUnion(ws: set<Write>, vs: set<Write>, c: Create)
    ensures CreateIn(ws + vs, c) <==> CreateIn(ws, c) || CreateIn(vs, c)
  {
    if w :| w in ws && w.Set? && CreateOf(w.value, w.stamp) == Some(c) {
      assert w in ws + vs;
    }
    if w :| w in vs && w.Set? && CreateOf(w.value, w.stamp) == Some(c) {
      assert w in ws + vs;
    }
  }

  /** The higher of two retained creates is the one the union retains. */
  lemma RetainedUnion(ws: set<Write>, vs: set<Write>, a: Option<Create>, b: Option<Create>)
    requires Retained(ws, a) && Retained(vs, b)
    ensures Retained(ws + vs, Higher(a, b))
  {
    hide CreateIn, Above;
    forall c ensures CreateIn(ws + vs, c) <==> CreateIn(ws, c) || CreateIn(vs, c) {
      CreateInUnion(ws, vs, c);
    }
    if a.Some? && b.Some? {
      AboveTotal(a.value, b.value, a.value);
      forall c | CreateIn(ws + vs, c)
        ensures c == Higher(a, b).value || Above(Higher(a, b).value, c)
      {
        AboveTotal(a.value, b.value, c);
        AboveTotal(b.value, a.value, c);
      }
    }
  }

  lemma RetainedOne(w: Write)
    ensures Retained({w}, if w.Set? then CreateOf(w.value, w.stamp) else None)
  {
    if w.Set? && IsContainer(w.value.kind) {
      assert CreateIn({w}, Create(w.stamp, w.value.kind));
    }
  }

  lemma LatestUnion(ws: set<Write>, vs: set<Write>, a: Write, b: Write)
    requires Latest(ws, a) && Latest(vs, b)
    ensures Latest(ws + vs, if Less(a.stamp, b.stamp) then b else a)
  {
    forall v | v in ws + vs
      ensures AtMost(v.stamp, if Less(a.stamp, b.stamp) then b.stamp else a.stamp)
    {
    }
  }

  // ---- one slot ----

  /** Two writes of the very same handle: a composite of one kind and id. */
  predicate SameHandle(a: Value, b: Value) {
    a.kind != Scalar && a == b
  }

  /** A slot after a set: the create is retained whether or not the set wins, and re-setting
      the installed handle only advances the stamp. */
  function SetSlot(prior: Option<Entry>, value: Value, stamp: Stamp): Entry {
    var container := Higher(if prior.Some? then prior.value.container else None, CreateOf(value, stamp));
    if prior.Some? && !Less(prior.value.stamp, stamp) then prior.value.(container := container)
    else if prior.Some? && !prior.value.tombstone && prior.value.value.Some? &&
            SameHandle(prior.value.value.value, value) then
      prior.value.(stamp := stamp, container := container)
    else Entry(stamp, Some(value), false, container)
  }

  function DeleteSlot(prior: Option<Entry>, stamp: Stamp): Entry {
    if prior.Some? && !Less(prior.value.stamp, stamp) then prior.value
    else Entry(stamp, None, true, if prior.Some? then prior.value.container else None)
  }

  /** Both live composites of one kind and id are merged in place; otherwise the later entry
      is kept. The retained creates join either way. */
  function MergeSlot(dst: Option<Entry>, src: Entry): Entry {
    var container := Higher(if dst.Some? then dst.value.container else None, src.container);
    if dst.None? then src.(container := container)
    else
      var d := dst.value;
      if !d.tombstone && !src.tombstone && d.value.Some? && src.value.Some? &&
         SameHandle(d.value.value, src.value.value) then
        d.(stamp := if Less(d.stamp, src.stamp) then src.stamp else d.stamp, container := container)
      else if !Less(d.stamp, src.stamp) then d.(container := container)
      else src.(container := container)
  }

  /** Merging two slots is the slot that saw both their writes. */
  lemma MergeSums(ws: set<Write>, vs: set<Write>, dst: Option<Entry>, src: Entry)
    requires OneWrite(ws + vs) && Sums(ws, dst) && Sums(vs, Some(src))
    ensures Sums(ws + vs, Some(MergeSlot(dst, src)))
  {
    hide Retained, Above, Less, OneWrite, Latest;
    var b :| Latest(vs, b) && Shows(src, b);
    if dst.None? {
      assert ws + vs == vs;
      RetainedOnly(vs, src.container);
    } else {
      var a :| Latest(ws, a) && Shows(dst.value, a);
      RetainedUnion(ws, vs, dst.value.container, src.container);
      LatestUnion(ws, vs, a, b);
      LatestTie(ws, vs, a, b);
      assert Shows(MergeSlot(dst, src), if Less(a.stamp, b.stamp) then b else a);
    }
  }

  lemma RetainedOnly(vs: set<Write>, c: Option<Create>)
    requires Retained(vs, c)
    ensures Higher(None, c) == c
  {
  }

  lemma LatestTie(ws: set<Write>, vs: set<Write>, a: Write, b: Write)
    requires OneWrite(ws + vs) && Latest(ws, a) && Latest(vs, b)
    ensures a.stamp == b.stamp ==> a == b
    ensures !(Less(a.stamp, b.stamp) && Less(b.stamp, a.stamp))
  {
    assert a in ws + vs && b in ws + vs;
  }

  /** A set is the merge of the slot it writes alone. */
  lemma SetSums(ws: set<Write>, prior: Option<Entry>, value: Value, stamp: Stamp)
    requires OneWrite(ws + {Set(stamp, value)}) && Sums(ws, prior)
    ensures Sums(ws + {Set(stamp, value)}, Some(SetSlot(prior, value, stamp)))
  {
    hide Retained, Above, OneWrite, Sums, CreateOf;
    var one := Entry(stamp, Some(value), false, CreateOf(value, stamp));
    OneSums(Set(stamp, value), one);
    MergeSums(ws, {Set(stamp, value)}, prior, one);
    assert SetSlot(prior, value, stamp) == MergeSlot(prior, one) by {
      LessTotal(if prior.Some? then prior.value.stamp else stamp, stamp);
    }
  }

  lemma OneSums(w: Write, e: Entry)
    requires Shows(e, w) && e.container == if w.Set? then CreateOf(w.value, w.stamp) else None
    ensures Sums({w}, Some(e))
  {
    hide Retained, CreateOf;
    RetainedOne(w);
    assert Latest({w}, w);
  }

  lemma DeleteSums(ws: set<Write>, prior: Option<Entry>, stamp: Stamp)
    requires OneWrite(ws + {Delete(stamp)}) && Sums(ws, prior)
    ensures Sums(ws + {Delete(stamp)}, Some(DeleteSlot(prior, stamp)))
  {
    hide Retained, Above, OneWrite, Sums;
    var one := Entry(stamp, None, true, None);
    OneSums(Delete(stamp), one);
    MergeSums(ws, {Delete(stamp)}, prior, one);
    LessTotal(if prior.Some? then prior.value.stamp else stamp, stamp);
    assert DeleteSlot(prior, stamp) == MergeSlot(prior, one);
  }

  // ---- the map ----

  /** The writes to one key. */
  ghost function To(ws: set<(Key, Write)>, key: Key): set<Write> {
    set p | p in ws && p.0 == key :: p.1
  }

  function SlotAt(slots: map<Key, Entry>, key: Key): Option<Entry> {
    if key in slots then Some(slots[key]) else None
  }

  /** Every slot has seen exactly the writes to its key. */
  ghost predicate Reflects(slots: map<Key, Entry>, ws: set<(Key, Write)>) {
    forall key :: Sums(To(ws, key), SlotAt(slots, key))
  }

  ghost predicate StampsDetermine(ws: set<(Key, Write)>) {
    forall key :: OneWrite(To(ws, key))
  }

  lemma ToUnion(ws: set<(Key, Write)>, vs: set<(Key, Write)>, key: Key)
    ensures To(ws + vs, key) == To(ws, key) + To(vs, key)
  {
    forall w
      ensures w in To(ws + vs, key) <==> w in To(ws, key) || w in To(vs, key)
    {
      assert w in To(ws, key) <==> (key, w) in ws;
      assert w in To(vs, key) <==> (key, w) in vs;
      assert w in To(ws + vs, key) <==> (key, w) in ws + vs;
    }
  }

  lemma ToOne(key: Key, w: Write, k: Key)
    ensures To({(key, w)}, k) == if k == key then {w} else {}
  {
    forall x
      ensures x in To({(key, w)}, k) <==> k == key && x == w
    {
      assert x in To({(key, w)}, k) <==> (k, x) in {(key, w)};
    }
  }

  /** The write to a key that outranks every other, by lamport and then client and offset, is
      what its slot shows: its value, or nothing if it is a delete. */
  lemma LatestWins(slots: map<Key, Entry>, ws: set<(Key, Write)>, key: Key, w: Write)
    requires Reflects(slots, ws) && (key, w) in ws
    requires forall v :: (key, v) in ws && v != w ==>
               || v.stamp.lamport < w.stamp.lamport
               || (v.stamp.lamport == w.stamp.lamport && v.stamp.client < w.stamp.client)
               || (v.stamp.lamport == w.stamp.lamport && v.stamp.client == w.stamp.client
                   && v.stamp.offset < w.stamp.offset)
    ensures key in slots && slots[key].stamp == w.stamp && slots[key].tombstone == w.Delete?
    ensures slots[key].value == if w.Set? then Some(w.value) else None
  {
    hide Retained;
    var vs := To(ws, key);
    assert Sums(vs, SlotAt(slots, key));
    assert w in vs && forall v :: v in vs ==> (key, v) in ws;
    var l :| Latest(vs, l) && Shows(slots[key], l);
    assert l == w;
  }

  /** The container create that outranks every other written to a key is the one it retains,
      whatever was set or deleted over it since. */
  lemma LatestCreateKept(slots: map<Key, Entry>, ws: set<(Key, Write)>, key: Key, w: Write)
    requires Reflects(slots, ws) && (key, w) in ws && CreatesContainer(w)
    requires forall v :: (key, v) in ws && v != w && CreatesContainer(v) ==>
               || v.stamp.lamport < w.stamp.lamport
               || (v.stamp.lamport == w.stamp.lamport && v.stamp.client < w.stamp.client)
               || (v.stamp.lamport == w.stamp.lamport && v.stamp.client == w.stamp.client
                   && v.stamp.offset < w.stamp.offset)
               || (v.stamp == w.stamp && KindBefore(v.value.kind, w.value.kind))
    ensures key in slots && slots[key].container == Some(Create(w.stamp, w.value.kind))
  {
    var vs := To(ws, key);
    assert Sums(vs, SlotAt(slots, key));
    assert w in vs && forall v :: v in vs ==> (key, v) in ws;
    assert CreateIn(vs, Create(w.stamp, w.value.kind));
    var c := slots[key].container.value;
    var v :| v in vs && v.Set? && CreateOf(v.value, v.stamp) == Some(c);
    assert v == w;
  }

  /** The container kinds in rank order. */
  ghost predicate KindBefore(a: Kind, b: Kind) {
    exists i, j :: 0 <= i < j < 5 && CONTAINERS[i] == a && CONTAINERS[j] == b
  }

  const CONTAINERS: seq<Kind> := [Map, List, Text, XmlElement, XmlFragment]

  /** Every kind but a scalar, a register and a counter is created as a container. */
  ghost predicate CreatesContainer(w: Write) {
    w.Set? && w.value.kind != Scalar && w.value.kind != Register && w.value.kind != Counter
  }

  /** The same writes leave the same slots. */
  lemma WritesDecide(ws: set<(Key, Write)>, a: map<Key, Entry>, b: map<Key, Entry>)
    requires StampsDetermine(ws) && Reflects(a, ws) && Reflects(b, ws)
    ensures a == b
  {
    hide Sums, OneWrite;
    forall key
      ensures SlotAt(a, key) == SlotAt(b, key)
    {
      SumsUnique(To(ws, key), SlotAt(a, key), SlotAt(b, key));
    }
    assert forall key :: key in a <==> SlotAt(a, key).Some?;
    assert forall key :: key in b <==> SlotAt(b, key).Some?;
    forall key | key in a ensures key in b && a[key] == b[key] {
      assert SlotAt(a, key) == SlotAt(b, key);
    }
    assert a.Keys == b.Keys;
  }

  /** One more write to one key. */
  lemma ReflectsMore(slots: map<Key, Entry>, ws: set<(Key, Write)>, key: Key, w: Write, e: Entry)
    requires Reflects(slots, ws) && Sums(To(ws, key) + {w}, Some(e))
    ensures Reflects(slots[key := e], ws + {(key, w)})
  {
    hide Sums;
    forall k
      ensures Sums(To(ws + {(key, w)}, k), SlotAt(slots[key := e], k))
    {
      ToUnion(ws, {(key, w)}, k);
      ToOne(key, w, k);
      assert To(ws, k) + {} == To(ws, k);
    }
  }

  lemma OneWriteTo(ws: set<(Key, Write)>, key: Key, w: Write)
    requires StampsDetermine(ws + {(key, w)})
    ensures OneWrite(To(ws, key) + {w})
  {
    hide OneWrite;
    ToUnion(ws, {(key, w)}, key);
    ToOne(key, w, key);
  }

  class MapSlots {
    var slots: map<Key, Entry>

    constructor ()
      ensures slots == map[] && Reflects(slots, {})
    {
      slots := map[];
      new;
      NoWrites();
    }

    /** Write a value at a key; `ws` is what the map had seen. */
    method Put(key: Key, value: Value, stamp: Stamp, ghost ws: set<(Key, Write)>)
      modifies this
      ensures slots == old(slots)[key := SetSlot(SlotAt(old(slots), key), value, stamp)]
      ensures old(Reflects(slots, ws)) && StampsDetermine(ws + {(key, Set(stamp, value))}) ==>
                Reflects(slots, ws + {(key, Set(stamp, value))})
    {
      hide Sums, OneWrite, Reflects, StampsDetermine, SetSlot;
      if Reflects(slots, ws) && StampsDetermine(ws + {(key, Set(stamp, value))}) {
        OneWriteTo(ws, key, Set(stamp, value));
        ReflectedAt(slots, ws, key);
        SetSums(To(ws, key), SlotAt(slots, key), value, stamp);
        ReflectsMore(slots, ws, key, Set(stamp, value), SetSlot(SlotAt(slots, key), value, stamp));
      }
      slots := slots[key := SetSlot(SlotAt(slots, key), value, stamp)];
    }

    /** Tombstone a key; `ws` is what the map had seen. */
    method Remove(key: Key, stamp: Stamp, ghost ws: set<(Key, Write)>)
      modifies this
      ensures slots == old(slots)[key := DeleteSlot(SlotAt(old(slots), key), stamp)]
      ensures old(Reflects(slots, ws)) && StampsDetermine(ws + {(key, Delete(stamp))}) ==>
                Reflects(slots, ws + {(key, Delete(stamp))})
    {
      hide Sums, OneWrite, Reflects, StampsDetermine, DeleteSlot;
      if Reflects(slots, ws) && StampsDetermine(ws + {(key, Delete(stamp))}) {
        OneWriteTo(ws, key, Delete(stamp));
        ReflectedAt(slots, ws, key);
        DeleteSums(To(ws, key), SlotAt(slots, key), stamp);
        ReflectsMore(slots, ws, key, Delete(stamp), DeleteSlot(SlotAt(slots, key), stamp));
      }
      slots := slots[key := DeleteSlot(SlotAt(slots, key), stamp)];
    }

    /** Merge another map in, key by key. The result is the map that saw both sets of writes. */
    method Merge(src: MapSlots, ghost ws: set<(Key, Write)>, ghost vs: set<(Key, Write)>)
      requires src != this
      modifies this
      ensures forall key :: SlotAt(slots, key) == MergedAt(old(slots), src.slots, key)
      ensures old(Reflects(slots, ws)) && Reflects(src.slots, vs) && StampsDetermine(ws + vs) ==>
                Reflects(slots, ws + vs)
    {
      hide Sums, OneWrite, Reflects, StampsDetermine, MergeSlot;
      ghost var before := slots;
      var rest := src.slots.Keys;
      while rest != {}
        invariant rest <= src.slots.Keys
        invariant forall key :: SlotAt(slots, key) ==
                    if key in rest then SlotAt(before, key) else MergedAt(before, src.slots, key)
        decreases |rest|
      {
        var key :| key in rest;
        slots := slots[key := MergeSlot(SlotAt(slots, key), src.slots[key])];
        rest := rest - {key};
      }
      if Reflects(before, ws) && Reflects(src.slots, vs) && StampsDetermine(ws + vs) {
        MergedReflects(before, src.slots, slots, ws, vs);
      }
    }
  }

  function MergedAt(dst: map<Key, Entry>, src: map<Key, Entry>, key: Key): Option<Entry> {
    if key in src then Some(MergeSlot(SlotAt(dst, key), src[key])) else SlotAt(dst, key)
  }

  lemma NoWrites()
    ensures Reflects(map[], {})
  {
    forall key ensures To({}, key) == {} {}
  }

  lemma ReflectedAt(slots: map<Key, Entry>, ws: set<(Key, Write)>, key: Key)
    requires Reflects(slots, ws)
    ensures Sums(To(ws, key), SlotAt(slots, key))
  {
  }

  lemma MergedReflects(dst: map<Key, Entry>, src: map<Key, Entry>, out: map<Key, Entry>, ws: set<(Key, Write)>,
                       vs: set<(Key, Write)>)
    requires Reflects(dst, ws) && Reflects(src, vs) && StampsDetermine(ws + vs)
    requires forall key :: SlotAt(out, key) == MergedAt(dst, src, key)
    ensures Reflects(out, ws + vs)
  {
    hide Sums, OneWrite, MergeSlot;
    forall key
      ensures Sums(To(ws + vs, key), SlotAt(out, key))
    {
      ToUnion(ws, vs, key);
      if key in src {
        MergeSums(To(ws, key), To(vs, key), SlotAt(dst, key), src[key]);
      } else {
        UnseenKey(To(vs, key));
        assert To(ws, key) + {} == To(ws, key);
      }
    }
  }

  lemma UnseenKey(ws: set<Write>)
    requires Sums(ws, None)
    ensures ws == {}
  {
  }

  /** Merging in either direction, or folding the union, leaves one state. */
  lemma MergeCommutes(a: map<Key, Entry>, b: map<Key, Entry>, ab: map<Key, Entry>, ba: map<Key, Entry>,
                      ws: set<(Key, Write)>, vs: set<(Key, Write)>)
    requires Reflects(a, ws) && Reflects(b, vs) && StampsDetermine(ws + vs)
    requires forall key :: SlotAt(ab, key) == MergedAt(a, b, key)
    requires forall key :: SlotAt(ba, key) == MergedAt(b, a, key)
    ensures ab == ba
  {
    hide Reflects, StampsDetermine, MergedAt;
    assert vs + ws == ws + vs;
    MergedReflects(a, b, ab, ws, vs);
    MergedReflects(b, a, ba, vs, ws);
    WritesDecide(ws + vs, ab, ba);
  }

  ghost function Written(writes: seq<(Key, Write)>): set<(Key, Write)> {
    set p | p in writes
  }

  /** A batch of writes in any order. */
  method FoldWrites(writes: seq<(Key, Write)>) returns (m: MapSlots)
    requires StampsDetermine(Written(writes))
    ensures Reflects(m.slots, Written(writes))
  {
    hide Reflects, StampsDetermine;
    m := new MapSlots();
    var i := 0;
    assert Written(writes[..0]) == {};
    while i < |writes|
      invariant 0 <= i <= |writes| && Reflects(m.slots, Written(writes[..i]))
      invariant fresh(m)
    {
      ghost var ws := Written(writes[..i]);
      assert Written(writes[..i + 1]) == ws + {writes[i]} by {
        assert writes[..i + 1] == writes[..i] + [writes[i]];
      }
      DetermineLess(Written(writes), ws + {writes[i]});
      match writes[i].1 {
        case Set(stamp, value) => m.Put(writes[i].0, value, stamp, ws);
        case Delete(stamp) => m.Remove(writes[i].0, stamp, ws);
      }
      i := i + 1;
    }
    assert writes[..i] == writes;
  }

  lemma DetermineLess(ws: set<(Key, Write)>, vs: set<(Key, Write)>)
    requires StampsDetermine(ws) && vs <= ws
    ensures StampsDetermine(vs)
  {
    forall key
      ensures OneWrite(To(vs, key))
    {
      assert OneWrite(To(ws, key));
      assert To(vs, key) <= To(ws, key);
    }
  }
}
