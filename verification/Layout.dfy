/** The bytes themselves: where the digits of a number go, and known encodings of a stamp, an
    anchor, each kind of value and a whole list. A reader and a writer changed together still
    have to produce these. */
module Layout {
  import opened Stamps
  import opened Bytes
  import opened Codec
  import opened Fugue
  import opened Runs
  import opened Lists
  import opened Snapshots

  /** A client or element id's sixteen bytes, most significant first. */
  lemma IdBytes()
    ensures Be(0x0a0b, 16) == [0, 0, 0, 0, 0, 0, 0, 0, 0, 0, 0, 0, 0, 0, 10, 11]
  {
    IdTail();
    HighBytes(0x0a0b, 14, 2);
  }

  lemma IdTail()
    ensures Be(0x0a0b, 2) == [10, 11]
  {
  }

  /** Bytes a small number does not reach are zero. */
  lemma {:induction false} HighBytes(n: nat, more: nat, k: nat)
    requires n < Pow256(k)
    ensures Be(n, more + k) == seq(more, i => 0) + Be(n, k)
    decreases k
  {
    if k > 0 {
      HighBytes(n / 256, more, k - 1);
    } else {
      ZeroBytes(more);
    }
  }

  lemma {:induction false} ZeroBytes(k: nat)
    ensures Be(0, k) == seq(k, i => 0)
  {
    if k > 0 {
      ZeroBytes(k - 1);
    }
  }

  /** One byte and zeros, or two: the least significant first. */
  lemma LowBytes(a: nat, b: nat, k: nat)
    requires a < 256 && b < 256 && k >= 2
    ensures Le(a + 256 * b, k) == [a, b] + seq(k - 2, i => 0)
  {
    assert (a + 256 * b) % 256 == a && (a + 256 * b) / 256 == b;
    assert Le(a + 256 * b, k) == [a] + Le(b, k - 1);
    assert Le(b, k - 1) == [b] + Le(0, k - 2);
    LowZeros(k - 2);
  }

  lemma {:induction false} LowZeros(k: nat)
    ensures Le(0, k) == seq(k, i => 0)
  {
    if k > 0 {
      LowZeros(k - 1);
    }
  }

  /** A stamp: lamport, client, and an offset behind a flag when it is not zero. */
  lemma StampBytes(client: nat)
    ensures PutStamp(Stamp(0x0203, client, 0)) == [3, 2, 0, 0, 0, 0, 0, 0] + Be(client, 16) + [0]
    ensures PutStamp(Stamp(1, client, 0x0405)) ==
            [1, 0, 0, 0, 0, 0, 0, 0] + Be(client, 16) + [1, 5, 4, 0, 0, 0, 0, 0, 0]
  {
    hide Be, Le;
    LowBytes(3, 2, 8);
    LowBytes(1, 0, 8);
    LowBytes(5, 4, 8);
  }

  lemma AnchorBytes(p: Stamp)
    ensures PutAnchor(Anchor(None, Left)) == [0, 0] && PutAnchor(Anchor(None, Right)) == [0, 1]
    ensures PutAnchor(Anchor(Some(p), Left)) == [1] + PutStamp(p) + [0]
    ensures PutAnchor(Anchor(Some(p), Right)) == [1] + PutStamp(p) + [1]
  {
    hide PutStamp;
  }

  /** A value is a tag, then its body. */
  lemma FlagBytes()
    ensures PutElement(Leaf(Null)) == [0, 0]
    ensures PutElement(Leaf(Bool(false))) == [0, 1, 0] && PutElement(Leaf(Bool(true))) == [0, 1, 1]
  {
  }

  lemma LeafBytes(s: Scalar)
    requires ScalarFits(s)
    ensures PutElement(Leaf(s)) == [0, ScalarTag(s)] + PutScalarBody(s)
  {
    hide PutScalarBody, ScalarTag, ScalarFits;
    var body := PutScalarBody(s);
    assert [0] + ([ScalarTag(s)] + body) == [0, ScalarTag(s)] + body;
  }

  lemma BlobBytes(b: seq<Byte>)
    requires BytesFit(b)
    ensures PutElement(Leaf(Blob(b))) == [0, 3] + (Le(|b|, 4) + b)
  {
    hide Le, PutElement;
    LeafBytes(Blob(b));
  }

  lemma ReferenceBytes(id: nat)
    requires id < U128_LIMIT
    ensures PutElement(Leaf(ElementRef(id))) == [0, 5] + Be(id, 16)
  {
    hide Be, PutElement;
    LeafBytes(ElementRef(id));
  }

  lemma CompositeBytes(kind: Byte, id: nat)
    requires 2 <= kind <= 7 && id < U128_LIMIT
    ensures PutElement(Composite(kind, id)) == [kind] + Be(id, 16)
  {
    hide Be;
  }

  /** An integer takes eight bytes, a negative one in two's complement. */
  lemma IntegerBytes(n: int)
    requires -0x8000_0000_0000_0000 <= n < 0x8000_0000_0000_0000
    ensures PutElement(Leaf(Int(n))) == [0, 2] + Le(if n < 0 then 0x1_0000_0000_0000_0000 + n else n, 8)
  {
    hide Le;
  }

  lemma BlobRefBytes(id: nat, mime: seq<Byte>, size: nat, inline: Option<seq<Byte>>)
    requires ScalarFits(BlobRef(id, mime, size, inline))
    ensures PutElement(Leaf(BlobRef(id, mime, size, inline))) ==
            [0, 4] + (Be(id, 16) + (Le(|mime|, 4) + mime) + Le(size, 8)
                      + match inline case None => [0] case Some(b) => [1] + (Le(|b|, 4) + b))
  {
    hide Be, Le, PutElement;
    LeafBytes(BlobRef(id, mime, size, inline));
  }

  /** A list of one node and one deleted run: its id, the count of nodes and the node (id, value,
      anchor), then the count of run records and the record (head, length, anchor). */
  lemma ListBytes(id: nat, x: Stamp, h: Stamp, n: nat)
    requires 0 < n < 256
    ensures Encoding(id, map[x := Node(Leaf(Null), Anchor(None, Right), false)],
                     map[h := DeadRun(n, Anchor(Some(x), Left))]) ==
            Be(id, 16) + ([1, 0, 0, 0] + (PutStamp(x) + [0, 0] + [0, 1]
            + ([1, 0, 0, 0] + (PutStamp(h) + [n, 0, 0, 0] + ([1] + PutStamp(x) + [0])))))
  {
    hide Be, Le, PutStamp, PutAnchor, Sorted, PutNodes, PutChunks, RunChunks;
    LowBytes(1, 0, 4);
    LowBytes(n, 0, 4);
    OneNode(x);
    OneRun(h, n, Anchor(Some(x), Left));
    AnchorBytes(x);
  }

  lemma OneNode(x: Stamp)
    ensures var nodes := map[x := Node(Leaf(Null), Anchor(None, Right), false)];
            Sorted(nodes.Keys) == [x] && PutNodes(nodes, [x]) == PutStamp(x) + [0, 0] + [0, 1]
  {
    hide PutStamp, Sorted;
    OneSorted(x);
    AnchorBytes(x);
    assert [x][1..] == [];
    assert map[x := Node(Leaf(Null), Anchor(None, Right), false)].Keys == {x};
  }

  lemma OneRun(h: Stamp, n: nat, a: Anchor)
    requires 0 < n < 256
    ensures var cs := RunChunks(map[h := DeadRun(n, a)]);
            |cs| == 1 && PutChunks(cs) == PutStamp(h) + Le(n, 4) + PutAnchor(a)
  {
    hide PutStamp, PutAnchor, Le, Sorted, ChunksFrom, PutChunks;
    var dead := map[h := DeadRun(n, a)];
    OneSorted(h);
    OneChunk(h, n, a);
    assert dead.Keys == {h} && [h][1..] == [];
    assert AllChunks(dead, [h]) == [Chunk(h, n, a)];
    OnePut(Chunk(h, n, a));
  }

  lemma OneSorted(x: Stamp)
    ensures Sorted({x}) == [x]
  {
    assert {x} - {Least({x})} == {};
  }

  lemma OnePut(c: Chunk)
    ensures PutChunks([c]) == PutStamp(c.start) + Le(c.len, 4) + PutAnchor(c.anchor)
  {
    hide PutStamp, Le, PutAnchor;
    assert [c][1..] == [];
  }

  lemma OneChunk(h: Stamp, n: nat, a: Anchor)
    requires 0 < n < 256
    ensures ChunksFrom(h, n, a, 0) == [Chunk(h, n, a)]
  {
  }

  /** A run longer than the cap is cut after every 1,048,576 ids, each later record hanging to the
      right of the id before it. */
  lemma LongRun(h: Stamp, n: nat, a: Anchor)
    requires 0x10_0000 < n <= 0x20_0000
    ensures ChunksFrom(h, n, a, 0) ==
            [Chunk(h, 0x10_0000, a),
             Chunk(Stamp(h.lamport + 0x10_0000, h.client, h.offset), n - 0x10_0000,
                   Anchor(Some(Stamp(h.lamport + 0xf_ffff, h.client, h.offset)), Right))]
  {
    assert ChunksFrom(h, n, a, n) == [];
    assert ChunksFrom(h, n, a, 0x10_0000) ==
           [Chunk(RunId(h, 0x10_0000), n - 0x10_0000, ChainAnchor(h, a, 0x10_0000))] + ChunksFrom(h, n, a, n);
  }
}
