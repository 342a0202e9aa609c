/** The element-level diff of two snapshots of a sequence: runs to delete from the old one
    and runs to insert into the new, by stable id. Lists and texts share it. */
module Diff {
  import opened Stamps

  /** A live item with its id. */
  datatype Item<T> = Item(id: Stamp, value: T)

  /** Consecutive items of one fate, and where the first of them sits. */
  datatype Run<T> = Run(index: nat, items: seq<T>)

  function Ids<T>(items: seq<Item<T>>): set<Stamp> {
    set i | 0 <= i < |items| :: items[i].id
  }

  function Values<T>(items: seq<Item<T>>): (r: seq<T>)
    ensures |r| == |items| && forall i :: 0 <= i < |r| ==> r[i] == items[i].value
  {
    seq(|items|, i requires 0 <= i < |items| => items[i].value)
  }

  function End<T>(run: Run<T>): nat {
    run.index + |run.items|
  }

  // ---- what the runs are ----

  /** The runs lie in the sequence, in order, with something kept between any two, and their
      items are the sequence's. */
  ghost predicate Laid<T>(values: seq<T>, runs: seq<Run<T>>) {
    && (forall r :: 0 <= r < |runs| ==> runs[r].items != [] && End(runs[r]) <= |values|)
    && (forall r :: 0 <= r < |runs| ==> values[runs[r].index..End(runs[r])] == runs[r].items)
    && (forall r, s :: 0 <= r < s < |runs| ==> End(runs[r]) < runs[s].index)
  }

  ghost predicate InRun<T>(runs: seq<Run<T>>, i: int) {
    exists r :: 0 <= r < |runs| && runs[r].index <= i < End(runs[r])
  }

  /** The runs cover exactly the items whose id is not kept. */
  ghost predicate Covers<T>(items: seq<Item<T>>, runs: seq<Run<T>>, kept: set<Stamp>) {
    Laid(Values(items), runs) && forall i :: 0 <= i < |items| ==> (InRun(runs, i) <==> items[i].id !in kept)
  }

  lemma OneRun<T>(values: seq<T>, runs: seq<Run<T>>, r: nat, i: int)
    requires Laid(values, runs) && r < |runs| && (i == runs[r].index - 1 || i == End(runs[r]))
    ensures !InRun(runs, i)
  {
    forall s | 0 <= s < |runs|
      ensures !(runs[s].index <= i < End(runs[s]))
    {
      assert s < r ==> End(runs[s]) < runs[r].index;
      assert r < s ==> End(runs[r]) < runs[s].index;
    }
  }

  /** No run can be longer: each is bounded by the end of the sequence or a kept item. */
  lemma RunsMaximal<T>(items: seq<Item<T>>, runs: seq<Run<T>>, kept: set<Stamp>, r: nat)
    requires Covers(items, runs, kept) && r < |runs|
    ensures runs[r].items != []
    ensures runs[r].index == 0 || items[runs[r].index - 1].id in kept
    ensures End(runs[r]) == |items| || items[End(runs[r])].id in kept
  {
    OneRun(Values(items), runs, r, runs[r].index - 1);
    OneRun(Values(items), runs, r, End(runs[r]));
  }

  // ---- finding them ----

  ghost function Whole<T>(runs: seq<Run<T>>, run: Option<Run<T>>): seq<Run<T>> {
    if run.Some? then runs + [run.value] else runs
  }

  /** The runs found in the first `i` items, the last of them still open. */
  ghost predicate Scanned<T>(items: seq<Item<T>>, i: nat, runs: seq<Run<T>>, run: Option<Run<T>>, kept: set<Stamp>) {
    && i <= |items| && Covers(items[..i], Whole(runs, run), kept)
    && (run.Some? ==> End(run.value) == i)
    && (run.None? ==> forall r :: 0 <= r < |runs| ==> End(runs[r]) < i)
  }

  /** The items whose id is not in `kept`, coalesced into runs. */
  method ListRuns<T>(items: seq<Item<T>>, kept: set<Stamp>) returns (runs: seq<Run<T>>)
    ensures Covers(items, runs, kept)
  {
    hide Covers;
    runs := [];
    var run: Option<Run<T>> := None;
    var i: nat := 0;
    NoneScanned(items, kept);
    while i < |items|
      invariant 0 <= i <= |items| && Scanned(items, i, runs, run, kept)
    {
      var item := items[i];
      if item.id in kept {
        ScanKept(items, i, runs, run, kept);
        if run.Some? {
          runs, run := runs + [run.value], None;
        }
      } else if run.Some? {
        ScanMore(items, i, runs, run.value, kept);
        run := Some(Run(run.value.index, run.value.items + [item.value]));
      } else {
        ScanNew(items, i, runs, kept);
        run := Some(Run(i, [item.value]));
      }
      i := i + 1;
    }
    assert items[..i] == items;
    if run.Some? {
      runs := runs + [run.value];
    }
  }

  lemma NoneScanned<T>(items: seq<Item<T>>, kept: set<Stamp>)
    ensures Scanned(items, 0, [], None, kept)
  {
  }

  lemma PrefixValues<T>(items: seq<Item<T>>, i: nat)
    requires i < |items|
    ensures Values(items[..i + 1]) == Values(items[..i]) + [items[i].value]
  {
  }

  lemma ScanKept<T>(items: seq<Item<T>>, i: nat, runs: seq<Run<T>>, run: Option<Run<T>>, kept: set<Stamp>)
    requires i < |items| && Scanned(items, i, runs, run, kept) && items[i].id in kept
    ensures Scanned(items, i + 1, Whole(runs, run), None, kept)
  {
    var a, b, all := items[..i], items[..i + 1], Whole(runs, run);
    LaidLonger(Values(a), Values(b), all);
    forall j | 0 <= j < |b|
      ensures InRun(all, j) <==> b[j].id !in kept
    {
      if j < i {
        assert b[j] == a[j];
      }
    }
  }

  lemma LaidLonger<T>(v: seq<T>, w: seq<T>, runs: seq<Run<T>>)
    requires Laid(v, runs) && v <= w
    ensures Laid(w, runs)
  {
    forall r | 0 <= r < |runs|
      ensures w[runs[r].index..End(runs[r])] == runs[r].items
    {
      assert w[runs[r].index..End(runs[r])] == v[runs[r].index..End(runs[r])];
    }
  }

  lemma ScanNew<T>(items: seq<Item<T>>, i: nat, runs: seq<Run<T>>, kept: set<Stamp>)
    requires i < |items| && Scanned(items, i, runs, None, kept) && items[i].id !in kept
    ensures Scanned(items, i + 1, runs, Some(Run(i, [items[i].value])), kept)
  {
    var a, b, all := items[..i], items[..i + 1], runs + [Run(i, [items[i].value])];
    LaidLonger(Values(a), Values(b), runs);
    assert Values(b)[i..i + 1] == [items[i].value];
    assert Laid(Values(b), all);
    forall j | 0 <= j < |b|
      ensures InRun(all, j) <==> b[j].id !in kept
    {
      InRunMore(runs, Run(i, [items[i].value]), j);
      if j < i {
        assert b[j] == a[j];
      }
    }
  }

  lemma InRunMore<T>(runs: seq<Run<T>>, run: Run<T>, j: int)
    ensures InRun(runs + [run], j) <==> InRun(runs, j) || run.index <= j < End(run)
  {
    var all := runs + [run];
    if r :| 0 <= r < |runs| && runs[r].index <= j < End(runs[r]) {
      assert all[r] == runs[r];
    }
    assert all[|runs|] == run;
  }

  lemma ScanMore<T>(items: seq<Item<T>>, i: nat, runs: seq<Run<T>>, run: Run<T>, kept: set<Stamp>)
    requires i < |items| && Scanned(items, i, runs, Some(run), kept) && items[i].id !in kept
    ensures Scanned(items, i + 1, runs, Some(Run(run.index, run.items + [items[i].value])), kept)
  {
    hide InRun, Laid;
    var a, b, longer := items[..i], items[..i + 1], Run(run.index, run.items + [items[i].value]);
    LaidMore(items, i, runs, run);
    forall j | 0 <= j < |b|
      ensures InRun(runs + [longer], j) <==> b[j].id !in kept
    {
      InRunMore(runs, run, j);
      InRunMore(runs, longer, j);
      LaidFrom(Values(a), runs, run);
      assert j < i ==> b[j] == a[j];
    }
  }

  lemma LaidFrom<T>(v: seq<T>, runs: seq<Run<T>>, run: Run<T>)
    requires Laid(v, runs + [run])
    ensures run.items != [] && End(run) <= |v| && v[run.index..End(run)] == run.items
    ensures forall j :: j >= |v| ==> !InRun(runs, j)
  {
    var all := runs + [run];
    assert all[|runs|] == run;
    forall r | 0 <= r < |runs| ensures End(runs[r]) <= |v| {
      assert all[r] == runs[r];
    }
  }

  lemma LaidMore<T>(items: seq<Item<T>>, i: nat, runs: seq<Run<T>>, run: Run<T>)
    requires i < |items| && Laid(Values(items[..i]), runs + [run]) && End(run) == i
    ensures Laid(Values(items[..i + 1]), runs + [Run(run.index, run.items + [items[i].value])])
  {
    hide Laid, InRun;
    var v, w := Values(items[..i]), Values(items[..i + 1]);
    PrefixValues(items, i);
    LaidLonger(v, w, runs + [run]);
    LaidFrom(v, runs, run);
    assert w[run.index..i + 1] == v[run.index..i] + [items[i].value];
    LaidLast(w, runs, run, Run(run.index, run.items + [items[i].value]));
  }

  lemma LaidLast<T>(v: seq<T>, runs: seq<Run<T>>, run: Run<T>, other: Run<T>)
    requires Laid(v, runs + [run]) && other.index == run.index && other.items != [] && End(other) <= |v|
    requires v[other.index..End(other)] == other.items
    ensures Laid(v, runs + [other])
  {
    var a, b := runs + [run], runs + [other];
    forall r | 0 <= r < |runs|
      ensures b[r] == a[r]
    {
    }
    assert a[|runs|] == run && b[|runs|] == other;
  }

  /** The diff: runs to delete, at their indices in the old sequence, then runs to insert, at
      theirs in the new. */
  method DiffList<T>(old': seq<Item<T>>, new': seq<Item<T>>) returns (deletes: seq<Run<T>>, inserts: seq<Run<T>>)
    ensures Covers(old', deletes, Ids(new')) && Covers(new', inserts, Ids(old'))
  {
    deletes := ListRuns(old', Ids(new'));
    inserts := ListRuns(new', Ids(old'));
  }

  // ---- the diff as a patch ----

  /** The runs taken out of a sequence, the last first so that earlier indices stay put. */
  ghost function Cut<T>(values: seq<T>, runs: seq<Run<T>>): seq<T>
    decreases |runs|
  {
    if runs == [] then values else
    var last := runs[|runs| - 1];
    if End(last) > |values| then values
    else Cut(values[..last.index] + values[End(last)..], runs[..|runs| - 1])
  }

  /** The runs put into a sequence in order, each at the index it is to have. */
  ghost function Paste<T>(values: seq<T>, runs: seq<Run<T>>): seq<T>
    decreases |runs|
  {
    if runs == [] then values else
    var last := runs[|runs| - 1];
    var so := Paste(values, runs[..|runs| - 1]);
    if last.index > |so| then so
    else so[..last.index] + last.items + so[last.index..]
  }

  lemma LaidInit<T>(values: seq<T>, runs: seq<Run<T>>)
    requires Laid(values, runs) && runs != []
    ensures var last := runs[|runs| - 1];
            && End(last) <= |values| && values[last.index..End(last)] == last.items
            && Laid(values[..last.index], runs[..|runs| - 1])
  {
    var last, init := runs[|runs| - 1], runs[..|runs| - 1];
    var v := values[..last.index];
    forall r | 0 <= r < |init|
      ensures End(init[r]) < |v| && v[init[r].index..End(init[r])] == init[r].items
    {
      assert init[r] == runs[r] && End(runs[r]) < runs[|runs| - 1].index;
      assert v[init[r].index..End(init[r])] == values[init[r].index..End(init[r])];
    }
  }

  /** Pasting undoes cutting. */
  lemma {:induction false} PasteCut<T>(values: seq<T>, runs: seq<Run<T>>)
    requires Laid(values, runs)
    ensures Paste(Cut(values, runs), runs) == values
    decreases |runs|
  {
    hide Laid;
    if runs != [] {
      var last, init := runs[|runs| - 1], runs[..|runs| - 1];
      LaidInit(values, runs);
      var short := values[..last.index] + values[End(last)..];
      assert values[..last.index] <= short;
      LaidLonger(values[..last.index], short, init);
      PasteCut(short, init);
      assert short[..last.index] + last.items + short[last.index..] == values;
    }
  }

  /** The items whose id is kept. */
  ghost function Kept<T>(items: seq<Item<T>>, kept: set<Stamp>): seq<Item<T>> {
    if items == [] then []
    else Kept(items[..|items| - 1], kept) + if items[|items| - 1].id in kept then [items[|items| - 1]] else []
  }

  lemma {:induction false} KeptConcat<T>(a: seq<Item<T>>, b: seq<Item<T>>, kept: set<Stamp>)
    ensures Kept(a + b, kept) == Kept(a, kept) + Kept(b, kept)
    decreases |b|
  {
    if b == [] {
      assert a + b == a;
    } else {
      KeptConcat(a, b[..|b| - 1], kept);
      assert (a + b)[..|a + b| - 1] == a + b[..|b| - 1];
    }
  }

  lemma {:induction false} KeptAll<T>(items: seq<Item<T>>, kept: set<Stamp>)
    ensures (forall i :: 0 <= i < |items| ==> items[i].id in kept) ==> Kept(items, kept) == items
    ensures (forall i :: 0 <= i < |items| ==> items[i].id !in kept) ==> Kept(items, kept) == []
  {
    if items != [] {
      KeptAll(items[..|items| - 1], kept);
      assert items == items[..|items| - 1] + [items[|items| - 1]];
    }
  }

  lemma {:induction false} CutPrefix<T>(v: seq<T>, tail: seq<T>, runs: seq<Run<T>>)
    requires Laid(v, runs)
    ensures Cut(v + tail, runs) == Cut(v, runs) + tail
    decreases |runs|
  {
    hide Laid;
    if runs != [] {
      var last, init := runs[|runs| - 1], runs[..|runs| - 1];
      LaidInit(v, runs);
      var short := v[..last.index] + v[End(last)..];
      assert (v + tail)[..last.index] + (v + tail)[End(last)..] == short + tail;
      assert v[..last.index] <= short;
      LaidLonger(v[..last.index], short, init);
      CutPrefix(short, tail, init);
    }
  }

  /** Cutting the runs out leaves exactly the kept items, in order. */
  lemma {:induction false} CutKeeps<T>(items: seq<Item<T>>, runs: seq<Run<T>>, kept: set<Stamp>)
    requires Covers(items, runs, kept)
    ensures Cut(Values(items), runs) == Values(Kept(items, kept))
    decreases |runs|
  {
    hide Covers, InRun, Laid, Kept;
    if runs == [] {
      CoversNone(items, kept);
      KeptAll(items, kept);
    } else {
      var last, init := runs[|runs| - 1], runs[..|runs| - 1];
      CoversSplit(items, runs, kept);
      var a, b := items[..last.index], items[End(last)..];
      CutKeeps(a, init, kept);
      KeptSplit(items, last.index, End(last), kept);
      CoversLaid(a, init, kept);
      CutPrefix(Values(a), Values(b), init);
      CutLast(items, runs);
      ValuesConcat(Kept(a, kept), b);
    }
  }

  lemma ValuesConcat<T>(a: seq<Item<T>>, b: seq<Item<T>>)
    ensures Values(a + b) == Values(a) + Values(b)
  {
  }

  lemma CutLast<T>(items: seq<Item<T>>, runs: seq<Run<T>>)
    requires runs != [] && End(runs[|runs| - 1]) <= |items|
    ensures var last := runs[|runs| - 1];
            Cut(Values(items), runs) ==
            Cut(Values(items[..last.index]) + Values(items[End(last)..]), runs[..|runs| - 1])
  {
    var last := runs[|runs| - 1];
    assert Values(items)[..last.index] == Values(items[..last.index]);
    assert Values(items)[End(last)..] == Values(items[End(last)..]);
  }

  lemma KeptSplit<T>(items: seq<Item<T>>, from: nat, to: nat, kept: set<Stamp>)
    requires from <= to <= |items| && (forall i :: from <= i < to ==> items[i].id !in kept)
    requires forall i :: to <= i < |items| ==> items[i].id in kept
    ensures Kept(items, kept) == Kept(items[..from], kept) + items[to..]
  {
    hide Kept;
    var a, mid, b := items[..from], items[from..to], items[to..];
    KeptAll(mid, kept);
    KeptAll(b, kept);
    assert items == a + mid + b;
    KeptConcat(a + mid, b, kept);
    KeptConcat(a, mid, kept);
  }

  lemma CoversLaid<T>(items: seq<Item<T>>, runs: seq<Run<T>>, kept: set<Stamp>)
    requires Covers(items, runs, kept)
    ensures Laid(Values(items), runs)
  {
  }

  lemma CoversNone<T>(items: seq<Item<T>>, kept: set<Stamp>)
    requires Covers(items, [], kept)
    ensures forall i :: 0 <= i < |items| ==> items[i].id in kept
  {
    forall i | 0 <= i < |items| ensures items[i].id in kept {
      assert !InRun<T>([], i);
    }
  }

  lemma CoversSplit<T>(items: seq<Item<T>>, runs: seq<Run<T>>, kept: set<Stamp>)
    requires Covers(items, runs, kept) && runs != []
    ensures var last := runs[|runs| - 1];
            && End(last) <= |items| && Covers(items[..last.index], runs[..|runs| - 1], kept)
            && (forall i :: last.index <= i < End(last) ==> items[i].id !in kept)
            && (forall i :: End(last) <= i < |items| ==> items[i].id in kept)
  {
    hide Laid;
    var last, init := runs[|runs| - 1], runs[..|runs| - 1];
    var v := Values(items);
    LaidInit(v, runs);
    assert runs == init + [last];
    assert Values(items[..last.index]) == v[..last.index];
    forall i | 0 <= i < |items|
      ensures InRun(runs, i) <==> InRun(init, i) || last.index <= i < End(last)
      ensures i >= last.index ==> !InRun(init, i)
    {
      InRunMore(init, last, i);
      if i >= last.index {
        LaidBounds(v[..last.index], init, i);
      }
    }
  }

  lemma LaidBounds<T>(values: seq<T>, runs: seq<Run<T>>, i: int)
    requires Laid(values, runs) && i >= |values|
    ensures !InRun(runs, i)
  {
  }

  // ---- snapshots of one sequence ----

  ghost predicate DistinctIds<T>(items: seq<Item<T>>) {
    forall i, j :: 0 <= i < j < |items| ==> items[i].id != items[j].id
  }

  /** Ids shared by two snapshots keep their items and their relative order. */
  ghost predicate Aligned<T>(a: seq<Item<T>>, b: seq<Item<T>>) {
    && DistinctIds(a) && DistinctIds(b)
    && (forall i, j :: 0 <= i < |a| && 0 <= j < |b| && a[i].id == b[j].id ==> a[i] == b[j])
    && (forall i, i', j, j' :: 0 <= i < i' < |a| && 0 <= j < |b| && 0 <= j' < |b| ==>
          a[i].id == b[j].id && a[i'].id == b[j'].id ==> j < j')
  }

  lemma {:induction false} KeptSame<T>(items: seq<Item<T>>, s: set<Stamp>, t: set<Stamp>)
    requires forall i :: 0 <= i < |items| ==> (items[i].id in s <==> items[i].id in t)
    ensures Kept(items, s) == Kept(items, t)
  {
    if items != [] {
      KeptSame(items[..|items| - 1], s, t);
    }
  }

  lemma IdsInit<T>(items: seq<Item<T>>)
    requires items != []
    ensures Ids(items) == Ids(items[..|items| - 1]) + {items[|items| - 1].id}
  {
    var init := items[..|items| - 1];
    forall id
      ensures id in Ids(items) <==> id in Ids(init) || id == items[|items| - 1].id
    {
      if id in Ids(init) {
        var i :| 0 <= i < |init| && init[i].id == id;
        assert items[i].id == id;
      }
      if id in Ids(items) && id != items[|items| - 1].id {
        var i :| 0 <= i < |items| && items[i].id == id;
        assert init[i].id == id;
      }
    }
  }

  lemma AlignedInit<T>(a: seq<Item<T>>, b: seq<Item<T>>)
    requires Aligned(a, b)
    ensures a != [] ==> Aligned(a[..|a| - 1], b)
    ensures b != [] ==> Aligned(a, b[..|b| - 1])
  {
  }

  /** What two aligned snapshots keep of each other is the same sequence. */
  lemma {:induction false} SharedSame<T>(a: seq<Item<T>>, b: seq<Item<T>>)
    requires Aligned(a, b)
    ensures Kept(a, Ids(b)) == Kept(b, Ids(a))
    decreases |a| + |b|
  {
    hide Aligned, Kept, DistinctIds;
    if a == [] || b == [] {
      assert (a == [] ==> Ids(a) == {}) && (b == [] ==> Ids(b) == {});
      KeptAll(a, Ids(b));
      KeptAll(b, Ids(a));
      KeptNil<T>(Ids(a));
      KeptNil<T>(Ids(b));
    } else if a[|a| - 1].id !in Ids(b) {
      DropLast(a, b);
      AlignedInit(a, b);
      SharedSame(a[..|a| - 1], b);
    } else if b[|b| - 1].id !in Ids(a) {
      DropLast(b, a);
      AlignedInit(a, b);
      SharedSame(a, b[..|b| - 1]);
    } else {
      LastShared(a, b);
      AlignedDistinct(a, b);
      AlignedInit(a, b);
      AlignedInit(a[..|a| - 1], b);
      SharedSame(a[..|a| - 1], b[..|b| - 1]);
      DropShared(a, b);
      DropShared(b, a);
    }
  }

  lemma AlignedDistinct<T>(a: seq<Item<T>>, b: seq<Item<T>>)
    requires Aligned(a, b)
    ensures DistinctIds(a) && DistinctIds(b)
  {
  }

  lemma KeptNil<T>(kept: set<Stamp>)
    ensures Kept<T>([], kept) == []
  {
  }

  lemma InIds<T>(items: seq<Item<T>>, i: int)
    requires 0 <= i < |items|
    ensures items[i].id in Ids(items)
  {
  }

  /** A last item the other does not hold matters to neither. */
  lemma DropLast<T>(a: seq<Item<T>>, b: seq<Item<T>>)
    requires a != [] && a[|a| - 1].id !in Ids(b)
    ensures Kept(a, Ids(b)) == Kept(a[..|a| - 1], Ids(b)) && Kept(b, Ids(a)) == Kept(b, Ids(a[..|a| - 1]))
  {
    IdsInit(a);
    forall i | 0 <= i < |b| ensures b[i].id in Ids(a) <==> b[i].id in Ids(a[..|a| - 1]) {
      InIds(b, i);
    }
    KeptSame(b, Ids(a), Ids(a[..|a| - 1]));
  }

  lemma LastShared<T>(a: seq<Item<T>>, b: seq<Item<T>>)
    requires Aligned(a, b) && a != [] && b != [] && a[|a| - 1].id in Ids(b) && b[|b| - 1].id in Ids(a)
    ensures a[|a| - 1] == b[|b| - 1]
  {
    var j :| 0 <= j < |b| && b[j].id == a[|a| - 1].id;
    var i :| 0 <= i < |a| && a[i].id == b[|b| - 1].id;
    assert i < |a| - 1 ==> |b| - 1 < j;
  }

  lemma DropShared<T>(a: seq<Item<T>>, b: seq<Item<T>>)
    requires DistinctIds(a) && a != [] && b != [] && a[|a| - 1] == b[|b| - 1]
    ensures Kept(a, Ids(b)) == Kept(a[..|a| - 1], Ids(b[..|b| - 1])) + [a[|a| - 1]]
  {
    var init := a[..|a| - 1];
    IdsInit(b);
    forall i | 0 <= i < |init| ensures init[i].id in Ids(b) <==> init[i].id in Ids(b[..|b| - 1]) {
      assert init[i] == a[i];
    }
    KeptSame(init, Ids(b), Ids(b[..|b| - 1]));
  }

  /** Removing the delete runs from the old sequence and adding the insert runs to what is left
      turns it into the new one. */
  lemma DiffIsPatch<T>(a: seq<Item<T>>, b: seq<Item<T>>, deletes: seq<Run<T>>, inserts: seq<Run<T>>)
    requires Aligned(a, b) && Covers(a, deletes, Ids(b)) && Covers(b, inserts, Ids(a))
    ensures Paste(Cut(Values(a), deletes), inserts) == Values(b)
  {
    hide Aligned, Covers, Cut, Paste, Kept, Values, Ids;
    SharedSame(a, b);
    PatchIff(a, b, deletes, inserts);
  }

  /** Cutting undoes pasting, wherever the runs lie in what was pasted. */
  lemma {:induction false} CutPaste<T>(values: seq<T>, runs: seq<Run<T>>)
    requires Laid(Paste(values, runs), runs)
    ensures Cut(Paste(values, runs), runs) == values
    decreases |runs|
  {
    hide Laid;
    if runs != [] {
      var last, init := runs[|runs| - 1], runs[..|runs| - 1];
      var so, whole := Paste(values, init), Paste(values, runs);
      LaidInit(whole, runs);
      LastSome(whole, runs);
      assert whole == so[..last.index] + last.items + so[last.index..];
      assert whole[..last.index] == so[..last.index] && whole[End(last)..] == so[last.index..];
      assert whole[..last.index] + whole[End(last)..] == so;
      LaidLonger(whole[..last.index], so, init);
      CutPaste(values, init);
    }
  }

  lemma LastSome<T>(values: seq<T>, runs: seq<Run<T>>)
    requires Laid(values, runs) && runs != []
    ensures runs[|runs| - 1].items != []
  {
  }

  /** For any two snapshots the diff is a patch if and only if what they keep of each other reads
      the same. */
  lemma PatchIff<T>(a: seq<Item<T>>, b: seq<Item<T>>, deletes: seq<Run<T>>, inserts: seq<Run<T>>)
    requires Covers(a, deletes, Ids(b)) && Covers(b, inserts, Ids(a))
    ensures Paste(Cut(Values(a), deletes), inserts) == Values(b) <==> Values(Kept(a, Ids(b))) == Values(Kept(b, Ids(a)))
  {
    hide Covers, Cut, Paste, Kept, Values, Ids;
    CutKeeps(a, deletes, Ids(b));
    CutKeeps(b, inserts, Ids(a));
    CoversLaid(b, inserts, Ids(a));
    PasteCut(Values(b), inserts);
    if Paste(Cut(Values(a), deletes), inserts) == Values(b) {
      CutPaste(Cut(Values(a), deletes), inserts);
    }
  }

  /** The shared order is needed: two snapshots with the same ids swapped have an empty diff. */
  lemma PatchNeedsOrder<T>(x: Item<T>, y: Item<T>)
    requires x.id != y.id && x.value != y.value
    ensures var a, b := [x, y], [y, x];
            && Covers(a, [], Ids(b)) && Covers(b, [], Ids(a))
            && Paste(Cut(Values(a), []), []) != Values(b)
  {
    var a, b := [x, y], [y, x];
    assert a[0].id in Ids(a) && a[1].id in Ids(a) && b[0].id in Ids(b) && b[1].id in Ids(b);
    assert Values(a)[0] != Values(b)[0];
  }
}
