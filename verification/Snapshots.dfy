/** A plain list's snapshot: its nodes in stamp order, then its runs split into capped
    chained chunks, and the decode that welds them back. */
module Snapshots {
  import opened Stamps
  import opened Bytes
  import opened Codec
  import opened Cursors
  import opened Fugue
  import opened Runs
  import opened Lists

  /** The most ids one encoded run record may cover. */
  const MAX_TOMBSTONE_RUN: nat := 0x10_0000

  /** One encoded run record. */
  datatype Chunk = Chunk(start: Stamp, len: nat, anchor: Anchor)

  // ---- the encoding ----

  function PutNode(id: Stamp, n: Node): seq<Byte>
    requires ElementFits(n.value)
  {
    PutStamp(id) + PutElement(n.value) + PutAnchor(n.anchor)
  }

  function PutNodes(nodes: map<Stamp, Node>, ids: seq<Stamp>): seq<Byte>
    requires forall id :: id in ids ==> id in nodes && ElementFits(nodes[id].value)
  {
    if ids == [] then [] else PutNode(ids[0], nodes[ids[0]]) + PutNodes(nodes, ids[1..])
  }

  /** The records of one run from `off` on, each at most the cap, each later one hanging
      off the id before it. */
  function ChunksFrom(start: Stamp, len: nat, anchor: Anchor, off: nat): seq<Chunk>
    decreases len - off
  {
    if off >= len then [] else
      var n := if len - off <= MAX_TOMBSTONE_RUN then len - off else MAX_TOMBSTONE_RUN;
      [Chunk(RunId(start, off), n, ChainAnchor(start, anchor, off))] + ChunksFrom(start, len, anchor, off + n)
  }

  function AllChunks(dead: DeadMap, heads: seq<Stamp>): seq<Chunk>
    requires forall h :: h in heads ==> h in dead
  {
    if heads == [] then []
    else ChunksFrom(heads[0], dead[heads[0]].len, dead[heads[0]].anchor, 0) + AllChunks(dead, heads[1..])
  }

  function PutChunk(c: Chunk): seq<Byte> {
    PutStamp(c.start) + Le(c.len, 4) + PutAnchor(c.anchor)
  }

  function PutChunks(cs: seq<Chunk>): seq<Byte> {
    if cs == [] then [] else PutChunk(cs[0]) + PutChunks(cs[1..])
  }

  ghost predicate ValuesFit(nodes: map<Stamp, Node>) {
    forall id :: id in nodes ==> ElementFits(nodes[id].value)
  }

  ghost function RunChunks(dead: DeadMap): seq<Chunk> {
    AllChunks(dead, Sorted(dead.Keys))
  }

  /** The bytes of a list's state: a function of the nodes and the runs alone. */
  ghost function Encoding(id: nat, nodes: map<Stamp, Node>, dead: DeadMap): seq<Byte>
    requires ValuesFit(nodes)
  {
    Be(id, 16) + (Le(|nodes|, 4) + (PutNodes(nodes, Sorted(nodes.Keys))
      + (Le(|RunChunks(dead)|, 4) + PutChunks(RunChunks(dead)))))
  }

  /** The counts the codec can express, and stamps within their widths. */
  ghost predicate Encodable(id: nat, nodes: map<Stamp, Node>, dead: DeadMap) {
    && id < U128_LIMIT && |nodes| < U32_LIMIT && |RunChunks(dead)| < U32_LIMIT
    && (forall x :: x in nodes ==> StampFits(x) && AnchorFits(nodes[x].anchor))
    && (forall h :: h in dead ==> StampFits(h) && AnchorFits(dead[h].anchor))
  }

  // ---- the parse ----

  function TakeNode(b: seq<Byte>): Parsed<(Stamp, Node)> {
    var (id, b1) :- TakeStamp(b);
    var (value, b2) :- TakeElement(b1);
    var (anchor, b3) :- TakeAnchor(b2);
    Ok((id, Node(value, anchor, false)), b3)
  }

  /** `n` node records, no id twice. */
  function TakeNodes(b: seq<Byte>, n: nat, nodes: map<Stamp, Node>): Parsed<map<Stamp, Node>>
    decreases n
  {
    if n == 0 then Ok(nodes, b) else
      var (rec, b1) :- TakeNode(b);
      if rec.0 in nodes then Err(BadTag(0)) else TakeNodes(b1, n - 1, nodes[rec.0 := rec.1])
  }

  function TakeChunk(b: seq<Byte>): Parsed<Chunk> {
    var (start, b1) :- TakeStamp(b);
    var (len, b2) :- TakeU32(b1);
    var (anchor, b3) :- TakeAnchor(b2);
    if len == 0 || len > MAX_TOMBSTONE_RUN then Err(BadTag(0)) else Ok(Chunk(start, len, anchor), b3)
  }

  function TakeChunks(b: seq<Byte>, n: nat): Parsed<seq<Chunk>>
    decreases n
  {
    if n == 0 then Ok([], b) else
      var (c, b1) :- TakeChunk(b);
      var (cs, b2) :- TakeChunks(b1, n - 1);
      Ok([c] + cs, b2)
  }

  datatype Parts = Parts(id: nat, nodes: map<Stamp, Node>, chunks: seq<Chunk>)

  function TakeParts(b: seq<Byte>): Parsed<Parts> {
    var (id, b1) :- TakeUuid(b);
    var (n, b2) :- TakeU32(b1);
    var (nodes, b3) :- TakeNodes(b2, n, map[]);
    var (k, b4) :- TakeU32(b3);
    var (chunks, b5) :- TakeChunks(b4, k);
    Ok(Parts(id, nodes, chunks), b5)
  }

  // ---- parsing what was put ----

  lemma NodeAhead(id: Stamp, n: Node, rest: seq<Byte>)
    requires StampFits(id) && ElementFits(n.value) && AnchorFits(n.anchor) && !n.movedAway
    ensures TakeNode(PutNode(id, n) + rest) == Ok((id, n), rest)
  {
    hide TakeStamp, TakeElement, TakeAnchor, PutStamp, PutElement, PutAnchor;
    var b := PutAnchor(n.anchor) + rest;
    assert PutNode(id, n) + rest == PutStamp(id) + (PutElement(n.value) + b);
    StampAhead(id, PutElement(n.value) + b);
    ElementAhead(n.value, b);
    AnchorAhead(n.anchor, rest);
  }

  lemma ChunkAhead(c: Chunk, rest: seq<Byte>)
    requires StampFits(c.start) && AnchorFits(c.anchor) && 0 < c.len <= MAX_TOMBSTONE_RUN
    ensures TakeChunk(PutChunk(c) + rest) == Ok(c, rest)
  {
    hide TakeStamp, TakeAnchor, PutStamp, PutAnchor, TakeU32, Le;
    var b := PutAnchor(c.anchor) + rest;
    assert PutChunk(c) + rest == PutStamp(c.start) + (Le(c.len, 4) + b);
    StampAhead(c.start, Le(c.len, 4) + b);
    U32Ahead(c.len, b);
    AnchorAhead(c.anchor, rest);
  }

  predicate NodePlain(n: Node) {
    ElementFits(n.value) && AnchorFits(n.anchor) && !n.movedAway
  }

  ghost predicate NodesPlain(nodes: map<Stamp, Node>, ids: seq<Stamp>) {
    forall id :: id in ids ==> id in nodes && StampFits(id) && NodePlain(nodes[id])
  }

  lemma TakeNone(b: seq<Byte>, acc: map<Stamp, Node>)
    ensures TakeNodes(b, 0, acc) == Ok(acc, b)
  {
  }

  lemma TakeOneMore(b: seq<Byte>, n: nat, acc: map<Stamp, Node>, id: Stamp, node: Node, rest: seq<Byte>)
    requires n > 0 && TakeNode(b) == Ok((id, node), rest) && id !in acc
    ensures TakeNodes(b, n, acc) == TakeNodes(rest, n - 1, acc[id := node])
  {
    hide TakeNode;
  }

  lemma PlainAhead(nodes: map<Stamp, Node>, ids: seq<Stamp>, id: Stamp, rest: seq<Byte>)
    requires NodesPlain(nodes, ids) && id in ids
    ensures TakeNode(PutNode(id, nodes[id]) + rest) == Ok((id, nodes[id]), rest)
  {
    hide TakeNode, PutNode;
    NodeAhead(id, nodes[id], rest);
  }

  ghost function Picked(nodes: map<Stamp, Node>, ids: seq<Stamp>): map<Stamp, Node> {
    map id | id in ids && id in nodes :: nodes[id]
  }

  lemma PickNone(nodes: map<Stamp, Node>, acc: map<Stamp, Node>)
    ensures acc + Picked(nodes, []) == acc
  {
  }

  lemma {:induction false} NodesAhead(nodes: map<Stamp, Node>, ids: seq<Stamp>, acc: map<Stamp, Node>, rest: seq<Byte>)
    requires NodesPlain(nodes, ids) && Ascending(ids) && forall id :: id in ids ==> id !in acc
    ensures TakeNodes(PutNodes(nodes, ids) + rest, |ids|, acc)
         == Ok(acc + Picked(nodes, ids), rest)
    decreases |ids|
  {
    hide TakeNode, PutNode, TakeNodes, ElementFits, AnchorFits, StampFits, Picked;
    if ids == [] {
      TakeNone(rest, acc);
      assert PutNodes(nodes, ids) + rest == rest;
      PickNone(nodes, acc);
    } else {
      var id, tail := ids[0], ids[1..];
      var more := PutNodes(nodes, tail) + rest;
      assert PutNodes(nodes, ids) + rest == PutNode(id, nodes[id]) + more;
      FirstIn(ids);
      PlainAhead(nodes, ids, id, more);
      assert forall x :: x in tail ==> x in ids && x != id;
      TakeOneMore(PutNode(id, nodes[id]) + more, |ids|, acc, id, nodes[id], more);
      NodesAhead(nodes, tail, acc[id := nodes[id]], rest);
      MapMore(nodes, ids, acc);
    }
  }

  lemma MapMore(nodes: map<Stamp, Node>, ids: seq<Stamp>, acc: map<Stamp, Node>)
    requires ids != [] && forall id :: id in ids ==> id in nodes && id !in acc
    ensures acc[ids[0] := nodes[ids[0]]] + Picked(nodes, ids[1..]) == acc + Picked(nodes, ids)
  {
    FirstIn(ids);
    var l, r := acc[ids[0] := nodes[ids[0]]] + Picked(nodes, ids[1..]), acc + Picked(nodes, ids);
    forall x
      ensures x in l <==> x in r
      ensures x in l ==> l[x] == r[x]
    {
      assert x in ids <==> x == ids[0] || x in ids[1..];
    }
  }

  ghost predicate ChunksFit(cs: seq<Chunk>) {
    forall i :: 0 <= i < |cs| ==>
      StampFits(cs[i].start) && AnchorFits(cs[i].anchor) && 0 < cs[i].len <= MAX_TOMBSTONE_RUN
  }

  /** The parser reads one record and then the others. */
  lemma TakeOneChunk(b: seq<Byte>, n: nat, c: Chunk, b1: seq<Byte>, cs: seq<Chunk>, rest: seq<Byte>)
    requires n > 0 && TakeChunk(b) == Ok(c, b1) && TakeChunks(b1, n - 1) == Ok(cs, rest)
    ensures TakeChunks(b, n) == Ok([c] + cs, rest)
  {
    hide TakeChunk;
  }

  lemma NoneToTake(rest: seq<Byte>)
    ensures TakeChunks(rest, 0) == Ok([], rest)
  {
  }

  lemma PutOneChunk(cs: seq<Chunk>, rest: seq<Byte>)
    requires cs != []
    ensures PutChunks(cs) + rest == PutChunk(cs[0]) + (PutChunks(cs[1..]) + rest)
  {
    hide PutChunk;
    assert PutChunks(cs) == PutChunk(cs[0]) + PutChunks(cs[1..]);
  }

  lemma {:induction false} ChunksAhead(cs: seq<Chunk>, rest: seq<Byte>)
    requires ChunksFit(cs)
    ensures TakeChunks(PutChunks(cs) + rest, |cs|) == Ok(cs, rest)
    decreases |cs|
  {
    hide TakeChunk, PutChunk, TakeChunks, PutChunks;
    if cs == [] {
      NoChunks();
      assert PutChunks(cs) + rest == rest;
      NoneToTake(rest);
    } else {
      var more := PutChunks(cs[1..]) + rest;
      PutOneChunk(cs, rest);
      ChunkAhead(cs[0], more);
      ChunksAhead(cs[1..], rest);
      TakeOneChunk(PutChunk(cs[0]) + more, |cs|, cs[0], more, cs[1..], rest);
      assert cs == [cs[0]] + cs[1..];
    }
  }

  lemma {:induction false} ChunksFromFit(start: Stamp, len: nat, anchor: Anchor, off: nat)
    requires StampFits(start) && AnchorFits(anchor) && start.lamport + len <= U64_LIMIT
    ensures ChunksFit(ChunksFrom(start, len, anchor, off))
    decreases len - off
  {
    if off < len {
      var n := if len - off <= MAX_TOMBSTONE_RUN then len - off else MAX_TOMBSTONE_RUN;
      ChunksFromFit(start, len, anchor, off + n);
    }
  }

  lemma {:induction false} AllChunksFit(dead: DeadMap, heads: seq<Stamp>)
    requires WellFormed(dead) && forall h :: h in heads ==> h in dead && StampFits(h) && AnchorFits(dead[h].anchor)
    ensures ChunksFit(AllChunks(dead, heads))
    decreases |heads|
  {
    if heads != [] {
      FirstIn(heads);
      var h := heads[0];
      ChunksFromFit(h, dead[h].len, dead[h].anchor, 0);
      AllChunksFit(dead, heads[1..]);
    }
  }

  lemma {:induction false} SortedSize(s: set<Stamp>)
    ensures |Sorted(s)| == |s|
    decreases |s|
  {
    if s != {} {
      SortedSize(s - {Least(s)});
    }
  }

  /** An encodable plain list parses back to its nodes and the chunks of its runs. */
  lemma PartsAhead(id: nat, nodes: map<Stamp, Node>, dead: DeadMap)
    requires StateValid(nodes, dead) && ValuesFit(nodes) && Encodable(id, nodes, dead)
    requires forall x :: x in nodes ==> !nodes[x].movedAway
    ensures TakeParts(Encoding(id, nodes, dead)) == Ok(Parts(id, nodes, RunChunks(dead)), [])
  {
    hide Tombs, Maximal, PutNodes, PutChunks, TakeNodes, TakeChunks, Le, Be, TakeU32, TakeUuid, RunChunks, Sorted;
    var ids, cs := Sorted(nodes.Keys), RunChunks(dead);
    var b4 := PutChunks(cs);
    var b3 := Le(|cs|, 4) + b4;
    var b2 := PutNodes(nodes, ids) + b3;
    var b1 := Le(|nodes|, 4) + b2;
    UuidAhead(id, b1);
    U32Ahead(|nodes|, b2);
    SortedSize(nodes.Keys);
    NodesAhead(nodes, ids, map[], b3);
    assert map[] + Picked(nodes, ids) == nodes;
    U32Ahead(|cs|, b4);
    RunChunksFit(nodes, dead, id);
    ChunksAhead(cs, []);
    assert PutChunks(cs) + [] == b4;
  }

  lemma RunChunksFit(nodes: map<Stamp, Node>, dead: DeadMap, id: nat)
    requires StateValid(nodes, dead) && Encodable(id, nodes, dead)
    ensures ChunksFit(RunChunks(dead))
  {
    hide Tombs, Maximal, ChunksFit;
    AllChunksFit(dead, Sorted(dead.Keys));
  }

  // ---- installing chunks ----

  /** The plain map a sequence of records stands for. */
  ghost function ChunkTombs(cs: seq<Chunk>): map<Stamp, Anchor> {
    if cs == [] then map[] else
      var c := cs[|cs| - 1];
      ChunkTombs(cs[..|cs| - 1]) + Chain(c.start, c.len, c.anchor)
  }

  ghost predicate ChunkFree(nodes: map<Stamp, Node>, tombs: map<Stamp, Anchor>, c: Chunk) {
    && c.start.lamport + c.len <= U64_LIMIT
    && forall id :: Covers(c.start, c.len, id) ==> id !in nodes && id !in tombs
  }

  /** Each record covers ids nothing before it holds. */
  ghost predicate Installable(nodes: map<Stamp, Node>, cs: seq<Chunk>) {
    forall k :: 0 <= k < |cs| ==> ChunkFree(nodes, ChunkTombs(cs[..k]), cs[k])
  }

  lemma ChunkSnoc(cs: seq<Chunk>, k: nat)
    requires k < |cs|
    ensures ChunkTombs(cs[..k + 1]) == ChunkTombs(cs[..k]) + Chain(cs[k].start, cs[k].len, cs[k].anchor)
  {
    assert cs[..k + 1][..k] == cs[..k];
  }

  /** Two stretches of one chain make the longer one. */
  lemma ChainExtends(start: Stamp, off: nat, n: nat, anchor: Anchor)
    ensures Chain(start, off, anchor) + Chain(RunId(start, off), n, ChainAnchor(start, anchor, off))
         == Chain(start, off + n, anchor)
  {
    hide Chain;
    var a, c := Chain(start, off, anchor), Chain(start, off + n, anchor);
    var b := Chain(RunId(start, off), n, ChainAnchor(start, anchor, off));
    forall id
      ensures id in a + b <==> id in c
      ensures id in c ==> (a + b)[id] == c[id]
    {
      ChainAt(start, off, anchor, id);
      ChainAt(RunId(start, off), n, ChainAnchor(start, anchor, off), id);
      ChainAt(start, off + n, anchor, id);
    }
  }

  lemma PlusAssoc(a: map<Stamp, Anchor>, b: map<Stamp, Anchor>, c: map<Stamp, Anchor>)
    ensures (a + b) + c == a + (b + c)
  {
  }

  /** A capped run laid down chunk by chunk after other records: each chunk is free, and
      together they stand for the run. */
  lemma {:induction false} RunLaid(nodes: map<Stamp, Node>, pre: seq<Chunk>, start: Stamp, len: nat, anchor: Anchor,
                                   off: nat)
    requires Installable(nodes, pre) && off <= len
    requires exists base :: ChunkTombs(pre) == base + Chain(start, off, anchor) &&
                            ChunkFree(nodes, base, Chunk(start, len, anchor))
    ensures var all := pre + ChunksFrom(start, len, anchor, off);
            && Installable(nodes, all)
            && ChunkTombs(all) == ChunkTombs(pre) + Chain(start, len, anchor)
    decreases len - off
  {
    hide Chain, ChunkTombs, Installable;
    var base :| ChunkTombs(pre) == base + Chain(start, off, anchor) &&
                ChunkFree(nodes, base, Chunk(start, len, anchor));
    if off == len {
      assert pre + ChunksFrom(start, len, anchor, off) == pre;
      PlusAssoc(base, Chain(start, off, anchor), Chain(start, len, anchor));
    } else {
      var n := if len - off <= MAX_TOMBSTONE_RUN then len - off else MAX_TOMBSTONE_RUN;
      var c := Chunk(RunId(start, off), n, ChainAnchor(start, anchor, off));
      PieceFree(nodes, base, start, len, anchor, off, n);
      InstallOne(nodes, pre, c);
      ChainExtends(start, off, n, anchor);
      PlusAssoc(base, Chain(start, off, anchor), Chain(c.start, c.len, c.anchor));
      RunLaid(nodes, pre + [c], start, len, anchor, off + n);
      assert pre + ChunksFrom(start, len, anchor, off) == pre + [c] + ChunksFrom(start, len, anchor, off + n);
      ChainAbsorbs(base, start, off, off + n, len, anchor);
    }
  }

  lemma ChainAbsorbs(base: map<Stamp, Anchor>, start: Stamp, i: nat, j: nat, len: nat, anchor: Anchor)
    requires i <= len && j <= len
    ensures base + Chain(start, i, anchor) + Chain(start, len, anchor) == base + Chain(start, len, anchor)
    ensures base + Chain(start, j, anchor) + Chain(start, len, anchor) == base + Chain(start, len, anchor)
  {
    hide Chain;
    forall id
      ensures id in Chain(start, i, anchor) || id in Chain(start, j, anchor) ==> id in Chain(start, len, anchor)
    {
      ChainAt(start, i, anchor, id);
      ChainAt(start, j, anchor, id);
      ChainAt(start, len, anchor, id);
    }
  }

  lemma PieceFree(nodes: map<Stamp, Node>, base: map<Stamp, Anchor>, start: Stamp, len: nat, anchor: Anchor, off: nat,
                  n: nat)
    requires ChunkFree(nodes, base, Chunk(start, len, anchor)) && off + n <= len
    ensures ChunkFree(nodes, base + Chain(start, off, anchor),
                      Chunk(RunId(start, off), n, ChainAnchor(start, anchor, off)))
  {
    hide Chain;
    forall id | Covers(RunId(start, off), n, id)
      ensures id !in nodes && id !in base + Chain(start, off, anchor)
    {
      assert Covers(start, len, id);
      ChainAt(start, off, anchor, id);
    }
  }

  lemma InstallOne(nodes: map<Stamp, Node>, pre: seq<Chunk>, c: Chunk)
    requires Installable(nodes, pre) && ChunkFree(nodes, ChunkTombs(pre), c)
    ensures Installable(nodes, pre + [c])
    ensures ChunkTombs(pre + [c]) == ChunkTombs(pre) + Chain(c.start, c.len, c.anchor)
  {
    hide ChunkFree, Chain;
    var all := pre + [c];
    forall k | 0 <= k < |all|
      ensures ChunkFree(nodes, ChunkTombs(all[..k]), all[k])
    {
      if k < |pre| {
        assert all[..k] == pre[..k];
      } else {
        assert all[..k] == pre;
      }
    }
    assert all[..|pre|] == pre;
  }

  // ---- all the runs ----

  ghost function Only(dead: DeadMap, heads: set<Stamp>): DeadMap {
    map h | h in dead && h in heads :: dead[h]
  }

  lemma OnlyWellFormed(dead: DeadMap, heads: set<Stamp>)
    requires WellFormed(dead)
    ensures WellFormed(Only(dead, heads))
  {
  }

  /** A run no listed run overlaps is free after them. */
  lemma RunFree(nodes: map<Stamp, Node>, dead: DeadMap, heads: set<Stamp>, h: Stamp)
    requires StateValid(nodes, dead) && h in dead && h !in heads
    ensures ChunkFree(nodes, Tombs(Only(dead, heads)), Chunk(h, dead[h].len, dead[h].anchor))
  {
    hide Tombs, Maximal;
    var sub := Only(dead, heads);
    OnlyWellFormed(dead, heads);
    forall id | Covers(h, dead[h].len, id)
      ensures id !in nodes && id !in Tombs(sub)
    {
      TombAt(dead, h, id);
      if id in Tombs(sub) {
        var g := TombFrom(sub, id);
        OneHolder(dead, id);
        assert false;
      }
    }
  }

  lemma OnlyMore(dead: DeadMap, heads: set<Stamp>, h: Stamp)
    requires WellFormed(dead) && h in dead && Unheld(Only(dead, heads), h, dead[h].len)
    ensures Tombs(Only(dead, heads + {h})) == Tombs(Only(dead, heads)) + Chain(h, dead[h].len, dead[h].anchor)
  {
    hide Tombs, Chain, Unheld;
    OnlyWellFormed(dead, heads);
    StoreRun(Only(dead, heads), h, dead[h].len, dead[h].anchor);
    assert Only(dead, heads + {h}) == Only(dead, heads)[h := DeadRun(dead[h].len, dead[h].anchor)];
  }

  lemma {:induction false} RunsLaid(nodes: map<Stamp, Node>, dead: DeadMap, pre: seq<Chunk>, done: set<Stamp>,
                                    heads: seq<Stamp>)
    requires StateValid(nodes, dead) && Installable(nodes, pre) && ChunkTombs(pre) == Tombs(Only(dead, done))
    requires Ascending(heads) && forall h :: h in heads ==> h in dead && h !in done
    ensures Installable(nodes, pre + AllChunks(dead, heads))
    ensures ChunkTombs(pre + AllChunks(dead, heads)) == Tombs(Only(dead, done + set h | h in heads))
    decreases |heads|
  {
    hide Tombs, Maximal, Installable, ChunkTombs, Chain, ChunksFrom, ChunkFree, Only;
    if heads == [] {
      assert pre + AllChunks(dead, heads) == pre;
      assert done + (set h | h in heads) == done;
    } else {
      FirstIn(heads);
      var h, tail := heads[0], heads[1..];
      RunFree(nodes, dead, done, h);
      var base := Tombs(Only(dead, done));
      StartChain(base, h, dead[h].anchor);
      RunLaid(nodes, pre, h, dead[h].len, dead[h].anchor, 0);
      FreeUnheld(nodes, dead, done, h);
      OnlyMore(dead, done, h);
      var next := pre + ChunksFrom(h, dead[h].len, dead[h].anchor, 0);
      RunsLaid(nodes, dead, next, done + {h}, tail);
      assert pre + AllChunks(dead, heads) == next + AllChunks(dead, tail);
      assert done + {h} + (set x | x in tail) == done + set x | x in heads;
    }
  }

  lemma StartChain(base: map<Stamp, Anchor>, h: Stamp, anchor: Anchor)
    ensures base == base + Chain(h, 0, anchor)
  {
  }

  lemma FreeUnheld(nodes: map<Stamp, Node>, dead: DeadMap, heads: set<Stamp>, h: Stamp)
    requires h in dead && ChunkFree(nodes, Tombs(Only(dead, heads)), Chunk(h, dead[h].len, dead[h].anchor))
    ensures Unheld(Only(dead, heads), h, dead[h].len)
  {
    hide Tombs, Only;
  }

  /** The chunks of a list's runs install one after another and stand for exactly the map
      the runs stand for. */
  lemma ChunksStand(nodes: map<Stamp, Node>, dead: DeadMap)
    requires StateValid(nodes, dead)
    ensures Installable(nodes, RunChunks(dead)) && ChunkTombs(RunChunks(dead)) == Tombs(dead)
  {
    hide StateValid, Installable, Sorted, ChunkTombs, AllChunks, Tombs, Only;
    var heads := Sorted(dead.Keys);
    OnlyNone(dead);
    NothingInstalled(nodes);
    RunsLaid(nodes, dead, [], {}, heads);
    assert [] + AllChunks(dead, heads) == AllChunks(dead, heads);
    OnlyAll(dead, {} + set h | h in heads);
  }

  lemma OnlyNone(dead: DeadMap)
    ensures Tombs(Only(dead, {})) == map[]
  {
    assert Only(dead, {}) == map[];
  }

  lemma OnlyAll(dead: DeadMap, heads: set<Stamp>)
    requires forall h :: h in dead ==> h in heads
    ensures Only(dead, heads) == dead
  {
  }

  lemma NothingInstalled(nodes: map<Stamp, Node>)
    ensures Installable(nodes, []) && ChunkTombs([]) == map[]
  {
  }

  // ---- decode ----

  /** Whether any of `len` ids from `start` is already stored. */
  method HoldsAny(nodes: map<Stamp, Node>, dead: DeadMap, start: Stamp, len: nat) returns (r: bool)
    requires Canonical(dead) && len > 0
    ensures r <==> exists id :: Covers(start, len, id) && (id in nodes || id in Tombs(dead))
  {
    hide Tombs, Maximal;
    var last := RunId(start, len - 1);
    var found := FindRun(dead, start);
    if found.Some? {
      assert Covers(start, len, start);
      return true;
    }
    var node := Ceiling(nodes.Keys, start);
    if node.Some? && KeyAtMost(node.value, last) {
      assert Covers(start, len, node.value);
      return true;
    }
    var run := Ceiling(dead.Keys, start);
    if run.Some? && KeyAtMost(run.value, last) {
      TombAt(dead, run.value, run.value);
      assert Covers(start, len, run.value);
      return true;
    }
    forall id | Covers(start, len, id)
      ensures id !in nodes && id !in Tombs(dead)
    {
      NoRunAhead(dead, start, len, id);
    }
    return false;
  }

  /** Install the records one by one, refusing one that runs off the lamport space or
      overlaps what is already there. */
  method InstallChunks(list: List, cs: seq<Chunk>) returns (ok: bool)
    requires list.dead == map[]
    requires forall i :: 0 <= i < |cs| ==> cs[i].len > 0
    modifies list`dead
    ensures ok <==> Installable(list.nodes, cs)
    ensures ok ==> Canonical(list.dead) && Tombs(list.dead) == ChunkTombs(cs)
  {
    hide Tombs, Canonical, Chain, ChunkTombs;
    var k := 0;
    EmptyDead();
    while k < |cs|
      invariant 0 <= k <= |cs| && list.nodes == old(list.nodes)
      invariant Canonical(list.dead) && Tombs(list.dead) == ChunkTombs(cs[..k])
      invariant forall j :: 0 <= j < k ==> ChunkFree(list.nodes, ChunkTombs(cs[..j]), cs[j])
    {
      var c := cs[k];
      if c.start.lamport + (c.len - 1) >= U64_LIMIT {
        assert !ChunkFree(list.nodes, ChunkTombs(cs[..k]), cs[k]);
        return false;
      }
      var taken := HoldsAny(list.nodes, list.dead, c.start, c.len);
      if taken {
        assert !ChunkFree(list.nodes, ChunkTombs(cs[..k]), cs[k]);
        return false;
      }
      assert Unheld(list.dead, c.start, c.len);
      list.AddDead(c.start, c.len, c.anchor);
      ChunkSnoc(cs, k);
      k := k + 1;
    }
    assert cs[..k] == cs;
    return true;
  }

  lemma EmptyDead()
    ensures Canonical(map[]) && Tombs(map[]) == ChunkTombs([])
  {
  }

  ghost predicate AllLeaves(nodes: map<Stamp, Node>) {
    forall id :: id in nodes ==> nodes[id].value.Leaf?
  }

  /** Read `n` node records off the cursor. */
  method ReadNodes(cur: Cursor, n: nat) returns (r: Read<map<Stamp, Node>>)
    requires cur.Valid()
    modifies cur
    ensures cur.Valid() && Agrees(TakeNodes(old(cur.Rest()), n, map[]), r, cur.Rest())
  {
    hide TakeStamp, TakeElement, TakeAnchor;
    var nodes: map<Stamp, Node> := map[];
    var left: nat := n;
    ghost var want := TakeNodes(cur.Rest(), n, map[]);
    while left > 0
      invariant cur.Valid() && 0 <= left <= n
      invariant TakeNodes(cur.Rest(), left, nodes) == want
      decreases left
    {
      var id :- cur.ReadStamp();
      var value :- cur.ReadElement();
      var anchor :- cur.ReadAnchor();
      if id in nodes {
        return Failed(BadTag(0));
      }
      nodes := nodes[id := Node(value, anchor, false)];
      left := left - 1;
    }
    return Got(nodes);
  }

  /** Read `n` run records off the cursor, refusing a length the encoder never writes. */
  method ReadChunks(cur: Cursor, n: nat) returns (r: Read<seq<Chunk>>)
    requires cur.Valid()
    modifies cur
    ensures cur.Valid() && Agrees(TakeChunks(old(cur.Rest()), n), r, cur.Rest())
  {
    hide TakeStamp, TakeAnchor, TakeU32;
    var cs: seq<Chunk> := [];
    var left: nat := n;
    ghost var want := TakeChunks(cur.Rest(), n);
    PrefixNone(want);
    while left > 0
      invariant cur.Valid() && 0 <= left <= n
      invariant Prefixed(cs, TakeChunks(cur.Rest(), left)) == want
      decreases left
    {
      ghost var b := cur.Rest();
      var start :- cur.ReadStamp();
      var len :- cur.U32();
      var anchor :- cur.ReadAnchor();
      if len == 0 || len > MAX_TOMBSTONE_RUN {
        return Failed(BadTag(0));
      }
      PrefixStep(cs, b, left, Chunk(start, len, anchor), cur.Rest());
      cs := cs + [Chunk(start, len, anchor)];
      left := left - 1;
    }
    assert cs + [] == cs;
    return Got(cs);
  }

  lemma PrefixNone(p: Parsed<seq<Chunk>>)
    ensures Prefixed([], p) == p
  {
    if p.Ok? {
      assert [] + p.value == p.value;
    }
  }

  ghost function Prefixed(cs: seq<Chunk>, p: Parsed<seq<Chunk>>): Parsed<seq<Chunk>> {
    match p case Ok(ds, rest) => Ok(cs + ds, rest) case Err(e) => Err(e)
  }

  lemma PrefixStep(cs: seq<Chunk>, b: seq<Byte>, n: nat, c: Chunk, rest: seq<Byte>)
    requires n > 0 && TakeChunk(b) == Ok(c, rest)
    ensures Prefixed(cs, TakeChunks(b, n)) == Prefixed(cs + [c], TakeChunks(rest, n - 1))
  {
    hide TakeChunk;
    var p := TakeChunks(rest, n - 1);
    if p.Ok? {
      assert cs + ([c] + p.value) == cs + [c] + p.value;
    }
  }

  /** What the bytes of a plain list must be to load. */
  ghost predicate Loads(p: Parsed<Parts>) {
    p.Ok? && Installable(p.value.nodes, p.value.chunks) && AllLeaves(p.value.nodes) && p.rest == []
  }

  /** Read a plain list from a complete byte string. It loads exactly when the bytes parse
      whole, hold no composite and name no id twice, and what it then holds is valid. */
  method DecodeState(bytes: seq<Byte>) returns (r: Read<nat>, list: List)
    ensures fresh(list)
    ensures r.Got? <==> Loads(TakeParts(bytes))
    ensures r.Got? ==> list.Valid() && TakeParts(bytes).value.id == r.value
                       && list.nodes == TakeParts(bytes).value.nodes
                       && Tombs(list.dead) == ChunkTombs(TakeParts(bytes).value.chunks)
  {
    hide TakeParts, Tombs, Installable, ChunkTombs, StateValid, Abs, NodesFit, AllLeaves;
    var cur := new Cursor(bytes);
    var parts := ReadParts(cur);
    if parts.Failed? {
      list := new List();
      return Failed(parts.error), list;
    }
    PartsDecoded(bytes);
    var ok;
    ok, list := Build(parts.value);
    if !ok {
      return Failed(BadTag(0)), list;
    }
    if cur.pos != |cur.buf| {
      return Failed(TrailingBytes), list;
    }
    return Got(parts.value.id), list;
  }

  /** Build the list the records describe, refusing an overlap or a composite. */
  method Build(p: Parts) returns (ok: bool, list: List)
    requires NodesFit(p.nodes) && forall i :: 0 <= i < |p.chunks| ==> p.chunks[i].len > 0
    ensures fresh(list)
    ensures ok <==> Installable(p.nodes, p.chunks) && AllLeaves(p.nodes)
    ensures ok ==> list.Valid() && list.nodes == p.nodes && Tombs(list.dead) == ChunkTombs(p.chunks)
  {
    hide Tombs, Installable, Canonical, ChunkTombs, StateValid, Abs, NodesFit;
    list := new List();
    list.nodes, list.dead := p.nodes, map[];
    ok := InstallChunks(list, p.chunks);
    if ok {
      LoadedValid(p.nodes, p.chunks, list.dead);
      ok := forall x :: x in p.nodes ==> p.nodes[x].value.Leaf?;
    }
  }

  lemma LoadedValid(nodes: map<Stamp, Node>, cs: seq<Chunk>, dead: DeadMap)
    requires NodesFit(nodes) && Installable(nodes, cs) && Canonical(dead) && Tombs(dead) == ChunkTombs(cs)
    ensures StateValid(nodes, dead)
  {
    hide Tombs, Canonical, ChunkTombs;
    InstalledApart(nodes, cs, |cs|);
    assert cs[..|cs|] == cs;
  }

  lemma PartsDecoded(b: seq<Byte>)
    ensures TakeParts(b).Ok? ==> NodesFit(TakeParts(b).value.nodes)
    ensures TakeParts(b).Ok? ==>
              forall i :: 0 <= i < |TakeParts(b).value.chunks| ==> TakeParts(b).value.chunks[i].len > 0
  {
    hide TakeUuid, TakeU32, TakeNodes, TakeChunks, NodesFit;
    if TakeParts(b).Ok? {
      var (id, b1) := TakeUuid(b).Extract();
      var (n, b2) := TakeU32(b1).Extract();
      NoNodesFit();
      NodesDecoded(b2, n, map[]);
      var (nodes, b3) := TakeNodes(b2, n, map[]).Extract();
      var (k, b4) := TakeU32(b3).Extract();
      ChunksPositive(b4, k);
    }
  }

  lemma NoNodesFit()
    ensures NodesFit(map[])
  {
  }

  method ReadParts(cur: Cursor) returns (r: Read<Parts>)
    requires cur.Valid()
    modifies cur
    ensures cur.Valid() && Agrees(TakeParts(old(cur.Rest())), r, cur.Rest())
  {
    hide TakeUuid, TakeU32, TakeNodes, TakeChunks;
    var id :- cur.Uuid();
    var n :- cur.U32();
    var nodes :- ReadNodes(cur, n);
    var k :- cur.U32();
    var chunks :- ReadChunks(cur, k);
    return Got(Parts(id, nodes, chunks));
  }

  lemma {:induction false} ChunksPositive(b: seq<Byte>, n: nat)
    ensures TakeChunks(b, n).Ok? ==> forall i :: 0 <= i < |TakeChunks(b, n).value| ==> TakeChunks(b, n).value[i].len > 0
    decreases n
  {
    hide TakeStamp, TakeAnchor, TakeU32;
    if n > 0 && TakeChunk(b).Ok? {
      ChunksPositive(TakeChunk(b).rest, n - 1);
    }
  }

  /** Installed records never cover a node. */
  lemma {:induction false} InstalledApart(nodes: map<Stamp, Node>, cs: seq<Chunk>, k: nat)
    requires Installable(nodes, cs) && k <= |cs|
    ensures forall id :: id in nodes ==> id !in ChunkTombs(cs[..k])
  {
    hide Chain, ChunkTombs;
    if k == 0 {
      NothingInstalled(nodes);
    } else {
      InstalledApart(nodes, cs, k - 1);
      ChunkSnoc(cs, k - 1);
      assert ChunkFree(nodes, ChunkTombs(cs[..k - 1]), cs[k - 1]);
      forall id | id in nodes ensures id !in Chain(cs[k - 1].start, cs[k - 1].len, cs[k - 1].anchor) {
        ChainAt(cs[k - 1].start, cs[k - 1].len, cs[k - 1].anchor, id);
      }
    }
  }

  // ---- what a decode yields fits what a state may hold ----

  lemma LeFits(b: seq<Byte>, k: nat)
    ensures TakeLe(b, k).Ok? ==> TakeLe(b, k).value < Pow256(k)
  {
    if |b| >= k {
      FromLeBound(b[..k]);
    }
  }

  lemma WordsFit(b: seq<Byte>)
    ensures TakeU32(b).Ok? ==> TakeU32(b).value < U32_LIMIT
    ensures TakeU64(b).Ok? ==> TakeU64(b).value < U64_LIMIT
    ensures TakeUuid(b).Ok? ==> TakeUuid(b).value < U128_LIMIT
  {
    Widths();
    LeFits(b, 4);
    LeFits(b, 8);
    if |b| >= 16 {
      FromBeBound(b[..16]);
    }
  }

  lemma StampDecoded(b: seq<Byte>)
    ensures TakeStamp(b).Ok? ==> TakeStamp(b).value.lamport < U64_LIMIT
  {
    hide TakeUuid, TakeU8, TakeU64;
    WordsFit(b);
  }

  lemma BytesDecoded(b: seq<Byte>)
    ensures TakeBytes(b).Ok? ==> BytesFit(TakeBytes(b).value)
  {
    hide TakeU32;
    WordsFit(b);
  }

  lemma BlobRefDecoded(b: seq<Byte>)
    ensures TakeBlobRef(b).Ok? ==> ScalarFits(TakeBlobRef(b).value)
  {
    hide TakeU64, TakeUuid, TakeBytes, TakeInline;
    WordsFit(b);
    if TakeUuid(b).Ok? {
      var b1 := TakeUuid(b).rest;
      BytesDecoded(b1);
      if TakeBytes(b1).Ok? {
        var b2 := TakeBytes(b1).rest;
        WordsFit(b2);
        if TakeU64(b2).Ok? {
          InlineDecoded(TakeU64(b2).rest);
        }
      }
    }
  }

  lemma InlineDecoded(b: seq<Byte>)
    ensures TakeInline(b).Ok? && TakeInline(b).value.Some? ==> BytesFit(TakeInline(b).value.value)
  {
    hide TakeBytes, BytesFit;
    if b != [] {
      BytesDecoded(b[1..]);
    }
  }

  lemma ScalarDecoded(b: seq<Byte>)
    ensures TakeScalar(b).Ok? ==> ScalarFits(TakeScalar(b).value)
  {
    hide TakeU64, TakeUuid, TakeBytes, TakeBlobRef;
    if b != [] {
      WordsFit(b[1..]);
      BytesDecoded(b[1..]);
      BlobRefDecoded(b[1..]);
    }
  }

  lemma ElementDecoded(b: seq<Byte>)
    ensures TakeElement(b).Ok? ==> ElementFits(TakeElement(b).value)
  {
    hide TakeUuid, TakeScalar, ScalarFits;
    if b != [] {
      WordsFit(b[1..]);
      ScalarDecoded(b[1..]);
    }
  }

  ghost predicate NodesFit(nodes: map<Stamp, Node>) {
    forall id :: id in nodes ==> id.lamport < U64_LIMIT && ElementFits(nodes[id].value)
  }

  lemma {:induction false} NodesDecoded(b: seq<Byte>, n: nat, acc: map<Stamp, Node>)
    requires NodesFit(acc)
    ensures TakeNodes(b, n, acc).Ok? ==> NodesFit(TakeNodes(b, n, acc).value)
    decreases n
  {
    hide TakeStamp, TakeElement, TakeAnchor, ElementFits;
    if n > 0 && TakeNode(b).Ok? {
      var (id, node) := TakeNode(b).value;
      StampDecoded(b);
      ElementDecoded(TakeStamp(b).rest);
      if id !in acc {
        NodesDecoded(TakeNode(b).rest, n - 1, acc[id := node]);
      }
    }
  }

  // ---- encode ----

  /** The members of a set in stamp order. */
  method SortStamps(s: set<Stamp>) returns (r: seq<Stamp>)
    ensures r == Sorted(s)
  {
    hide Sorted;
    r := [];
    var rest := s;
    while rest != {}
      invariant rest <= s && Ascending(r) && (forall x :: x in r <==> x in s - rest)
      invariant forall x, y :: x in r && y in rest ==> Less(x, y)
      decreases |rest|
    {
      var least :| least in rest;
      var look := rest - {least};
      while look != {}
        invariant look <= rest && least in rest && least !in look
        invariant forall y :: y in rest && y !in look ==> AtMost(least, y)
        decreases |look|
      {
        var y :| y in look;
        look := look - {y};
        if Less(y, least) {
          least := y;
        }
      }
      AscendingSnoc(r, least);
      r, rest := r + [least], rest - {least};
    }
    AscendingUnique(r, Sorted(s));
  }

  lemma AscendingSnoc(r: seq<Stamp>, x: Stamp)
    requires Ascending(r) && forall y :: y in r ==> Less(y, x)
    ensures Ascending(r + [x])
  {
  }

  lemma {:induction false} PutNodesSnoc(nodes: map<Stamp, Node>, ids: seq<Stamp>, id: Stamp)
    requires forall x :: x in ids + [id] ==> x in nodes && ElementFits(nodes[x].value)
    ensures forall x :: x in ids ==> x in nodes && ElementFits(nodes[x].value)
    ensures id in nodes && ElementFits(nodes[id].value)
    ensures PutNodes(nodes, ids + [id]) == PutNodes(nodes, ids) + PutNode(id, nodes[id])
    decreases |ids|
  {
    hide PutNode, ElementFits;
    assert id in ids + [id];
    if ids == [] {
      assert ids + [id] == [id];
      assert [id][1..] == [];
    } else {
      assert (ids + [id])[1..] == ids[1..] + [id];
      PutNodesSnoc(nodes, ids[1..], id);
    }
  }

  lemma {:induction false} PutChunksConcat(a: seq<Chunk>, b: seq<Chunk>)
    ensures PutChunks(a + b) == PutChunks(a) + PutChunks(b)
    decreases |a|
  {
    hide PutChunk;
    if a == [] {
      assert a + b == b;
    } else {
      PutChunksConcat(a[1..], b);
      assert (a + b)[1..] == a[1..] + b;
    }
  }

  lemma PutChunksOne(c: Chunk)
    ensures PutChunks([c]) == PutChunk(c)
  {
    hide PutChunk;
    assert [c][1..] == [];
  }

  /** The node section. */
  method EncodeNodes(nodes: map<Stamp, Node>) returns (out: seq<Byte>)
    requires ValuesFit(nodes)
    ensures out == PutNodes(nodes, Sorted(nodes.Keys))
  {
    hide PutNode, ElementFits, Sorted;
    var ids := SortStamps(nodes.Keys);
    out := [];
    var k := 0;
    while k < |ids|
      invariant 0 <= k <= |ids| && forall x :: x in ids ==> x in nodes
      invariant out == PutNodes(nodes, ids[..k])
    {
      assert ids[..k + 1] == ids[..k] + [ids[k]];
      PutNodesSnoc(nodes, ids[..k], ids[k]);
      out := out + PutNode(ids[k], nodes[ids[k]]);
      k := k + 1;
    }
    assert ids[..k] == ids;
  }

  /** One run's records, split at the cap. */
  method EncodeRun(start: Stamp, run: DeadRun) returns (out: seq<Byte>, count: nat)
    ensures var cs := ChunksFrom(start, run.len, run.anchor, 0); out == PutChunks(cs) && count == |cs|
  {
    hide PutChunk, PutChunks, ChunksFrom, ChainAnchor;
    out, count := [], 0;
    NoChunks();
    var off := 0;
    ghost var cs: seq<Chunk> := [];
    ghost var all := ChunksFrom(start, run.len, run.anchor, 0);
    while off < run.len
      invariant out == PutChunks(cs) && count == |cs|
      invariant cs + ChunksFrom(start, run.len, run.anchor, off) == all
      decreases run.len - off
    {
      var n := if run.len - off <= MAX_TOMBSTONE_RUN then run.len - off else MAX_TOMBSTONE_RUN;
      var c := Chunk(RunId(start, off), n, ChainAnchor(start, run.anchor, off));
      ChunksStep(start, run.len, run.anchor, off);
      PutChunksConcat(cs, [c]);
      PutChunksOne(c);
      assert cs + ([c] + ChunksFrom(start, run.len, run.anchor, off + n)) ==
             cs + [c] + ChunksFrom(start, run.len, run.anchor, off + n);
      out, count := out + PutChunk(c), count + 1;
      cs := cs + [c];
      off := off + n;
    }
    ChunksEnd(start, run.len, run.anchor, off);
    assert cs == all;
  }

  lemma ChunksStep(start: Stamp, len: nat, anchor: Anchor, off: nat)
    requires off < len
    ensures var n := if len - off <= MAX_TOMBSTONE_RUN then len - off else MAX_TOMBSTONE_RUN;
            ChunksFrom(start, len, anchor, off) ==
            [Chunk(RunId(start, off), n, ChainAnchor(start, anchor, off))] + ChunksFrom(start, len, anchor, off + n)
  {
  }

  lemma ChunksEnd(start: Stamp, len: nat, anchor: Anchor, off: nat)
    requires off >= len
    ensures ChunksFrom(start, len, anchor, off) == []
  {
  }

  lemma {:induction false} AllChunksSnoc(dead: DeadMap, heads: seq<Stamp>, h: Stamp)
    requires forall x :: x in heads + [h] ==> x in dead
    ensures h in dead && forall x :: x in heads ==> x in dead
    ensures AllChunks(dead, heads + [h]) == AllChunks(dead, heads) + ChunksFrom(h, dead[h].len, dead[h].anchor, 0)
    decreases |heads|
  {
    hide ChunksFrom;
    assert h in heads + [h];
    if heads == [] {
      assert heads + [h] == [h];
      assert [h][1..] == [];
    } else {
      assert (heads + [h])[1..] == heads[1..] + [h];
      AllChunksSnoc(dead, heads[1..], h);
    }
  }

  /** The run section, and how many records it holds. */
  method EncodeRuns(dead: DeadMap) returns (out: seq<Byte>, count: nat)
    ensures out == PutChunks(RunChunks(dead)) && count == |RunChunks(dead)|
  {
    hide ChunksFrom, PutChunks, Sorted;
    var heads := SortStamps(dead.Keys);
    out, count := [], 0;
    var k := 0;
    NoChunks();
    while k < |heads|
      invariant 0 <= k <= |heads| && forall x :: x in heads ==> x in dead
      invariant out == PutChunks(AllChunks(dead, heads[..k])) && count == |AllChunks(dead, heads[..k])|
    {
      var h := heads[k];
      assert heads[..k + 1] == heads[..k] + [h];
      AllChunksSnoc(dead, heads[..k], h);
      PutChunksConcat(AllChunks(dead, heads[..k]), ChunksFrom(h, dead[h].len, dead[h].anchor, 0));
      var bytes, n := EncodeRun(h, dead[h]);
      out, count := out + bytes, count + n;
      k := k + 1;
    }
    assert heads[..k] == heads;
  }

  lemma NoChunks()
    ensures PutChunks([]) == []
  {
  }

  /** Append a list's state: the nodes that carry a value, then the deleted ids as runs. */
  method EncodeState(id: nat, nodes: map<Stamp, Node>, dead: DeadMap) returns (out: seq<Byte>)
    requires ValuesFit(nodes) && Encodable(id, nodes, dead)
    ensures out == Encoding(id, nodes, dead)
  {
    hide PutNodes, PutChunks, Sorted, RunChunks, Le, Be, ElementFits;
    var a := EncodeNodes(nodes);
    var b, count := EncodeRuns(dead);
    out := Be(id, 16) + (Le(|nodes|, 4) + (a + (Le(count, 4) + b)));
  }

  // ---- round trip ----

  /** A plain list's own bytes load, to the same nodes and the same run records, though
      long runs were split on the way out and welded on the way in. */
  lemma DecodedSame(id: nat, nodes: map<Stamp, Node>, dead: DeadMap, nodes': map<Stamp, Node>, dead': DeadMap)
    requires StateValid(nodes, dead) && ValuesFit(nodes) && Encodable(id, nodes, dead) && AllLeaves(nodes)
    requires forall x :: x in nodes ==> !nodes[x].movedAway
    ensures Loads(TakeParts(Encoding(id, nodes, dead)))
    ensures var p := TakeParts(Encoding(id, nodes, dead)).value;
            (StateValid(nodes', dead') && nodes' == p.nodes && Tombs(dead') == ChunkTombs(p.chunks)) ==>
              nodes' == nodes && dead' == dead && p.id == id
  {
    hide Encoding, TakeParts, Tombs, ChunkTombs, Canonical, Installable, Encodable, RunChunks;
    PartsAhead(id, nodes, dead);
    ChunksStand(nodes, dead);
    if StateValid(nodes', dead') && Tombs(dead') == Tombs(dead) {
      CanonicalUnique(dead', dead);
    }
  }

  /** Save a plain list and load it back: the same id, nodes and runs, and the same bytes
      when saved again. */
  method SaveAndLoad(id: nat, list: List) returns (bytes: seq<Byte>, loaded: List, again: seq<Byte>)
    requires list.Valid() && ValuesFit(list.nodes) && Encodable(id, list.nodes, list.dead) && AllLeaves(list.nodes)
    requires forall x :: x in list.nodes ==> !list.nodes[x].movedAway
    ensures loaded.Valid() && loaded.nodes == list.nodes && loaded.dead == list.dead
    ensures bytes == Encoding(id, list.nodes, list.dead) && again == bytes
  {
    hide Encoding, TakeParts, Tombs, ChunkTombs, StateValid, Encodable, Abs;
    bytes := EncodeState(id, list.nodes, list.dead);
    var r;
    r, loaded := DecodeState(bytes);
    DecodedSame(id, list.nodes, list.dead, loaded.nodes, loaded.dead);
    again := EncodeState(r.value, loaded.nodes, loaded.dead);
  }

  /** Equal plain states encode to equal bytes. */
  lemma SameBytes(id: nat, nodes: map<Stamp, Node>, dead: DeadMap, nodes': map<Stamp, Node>, dead': DeadMap)
    requires StateValid(nodes, dead) && StateValid(nodes', dead') && Abs(nodes, dead) == Abs(nodes', dead')
    ensures ValuesFit(nodes) && ValuesFit(nodes') && Encoding(id, nodes, dead) == Encoding(id, nodes', dead')
  {
    hide Encoding, Abs, Canonical, Tombs;
    AbsUnique(nodes, dead, nodes', dead');
  }
}
