/** What the readers accept: for numbers, byte strings, values and run records, exactly what the
    writers write, so every other string is refused; for anchors, the same but for the loose flag
    of the stamp inside. */
module Accepted {
  import opened Stamps
  import opened Bytes
  import opened Codec
  import opened Snapshots

  lemma LeParts(b: seq<Byte>, k: nat)
    requires TakeLe(b, k).Ok?
    ensures var p := TakeLe(b, k); Le(p.value, k) + p.rest == b && p.value < Pow256(k)
  {
    FromLeRoundTrip(b[..k]);
    FromLeBound(b[..k]);
  }

  lemma UuidParts(b: seq<Byte>)
    requires TakeUuid(b).Ok?
    ensures var p := TakeUuid(b); Be(p.value, 16) + p.rest == b && p.value < U128_LIMIT
  {
    hide FromBe;
    FromBeRoundTrip(b[..16]);
    FromBeBound(b[..16]);
    Widths();
  }

  lemma BytesParts(b: seq<Byte>)
    requires TakeBytes(b).Ok?
    ensures var p := TakeBytes(b); PutBytes(p.value) + p.rest == b && BytesFit(p.value)
  {
    hide Le, FromLe, TakeLe;
    LeParts(b, 4);
    Widths();
    var n := TakeU32(b);
    assert n.rest == n.rest[..n.value] + n.rest[n.value..];
    assert Le(n.value, 4) + (n.rest[..n.value] + n.rest[n.value..])
        == (Le(n.value, 4) + n.rest[..n.value]) + n.rest[n.value..];
  }

  lemma InlineParts(b: seq<Byte>)
    requires TakeInline(b).Ok?
    ensures var p := TakeInline(b); PutInline(p.value) + p.rest == b && (p.value.Some? ==> BytesFit(p.value.value))
  {
    hide TakeBytes, PutBytes;
    assert b == [b[0]] + b[1..];
    if b[0] == 1 {
      BytesParts(b[1..]);
      var p := TakeBytes(b[1..]);
      assert [1] + (PutBytes(p.value) + p.rest) == ([1] + PutBytes(p.value)) + p.rest;
    }
  }

  lemma BlobRefParts(b: seq<Byte>)
    requires TakeBlobRef(b).Ok?
    ensures var p := TakeBlobRef(b); ScalarFits(p.value) && PutScalarBody(p.value) + p.rest == b && p.value.BlobRef?
  {
    hide TakeUuid, TakeBytes, TakeU64, TakeInline, Be, Le, PutBytes, PutInline;
    var h := TakeUuid(b);
    UuidParts(b);
    var m := TakeBytes(h.rest);
    BytesParts(h.rest);
    var z := TakeU64(m.rest);
    U64Parts(m.rest);
    var i := TakeInline(z.rest);
    InlineParts(z.rest);
    Fields(Be(h.value, 16), PutBytes(m.value), Le(z.value, 8), PutInline(i.value), i.rest);
  }

  lemma U64Parts(b: seq<Byte>)
    requires TakeU64(b).Ok?
    ensures var p := TakeU64(b); Le(p.value, 8) + p.rest == b && p.value < U64_LIMIT
  {
    hide Le, TakeLe;
    LeParts(b, 8);
    Widths();
  }

  lemma Fields(a: seq<Byte>, b: seq<Byte>, c: seq<Byte>, d: seq<Byte>, rest: seq<Byte>)
    ensures a + b + c + d + rest == a + (b + (c + (d + rest)))
  {
  }

  lemma BodyParts(tag: Byte, b: seq<Byte>)
    requires TakeScalarBody(tag, b).Ok?
    ensures var p := TakeScalarBody(tag, b);
            ScalarTag(p.value) == tag && ScalarFits(p.value) && PutScalarBody(p.value) + p.rest == b
  {
    hide TakeUuid, TakeBytes, TakeU64, Be, Le, PutBytes, TakeBlobRef, PutInline;
    match tag {
      case 0 =>
      case 1 => assert b == [b[0]] + b[1..];
      case 2 => U64Parts(b);
      case 3 => BytesParts(b);
      case 4 => BlobRefParts(b);
      case 5 => UuidParts(b);
    }
  }

  /** The value reader accepts exactly a scalar's own bytes, so a tag past five, a flag or a boolean
      past one and a short string are all refused. */
  lemma ScalarAccepted(b: seq<Byte>)
    ensures TakeScalar(b).Ok? <==> exists s, rest :: IsScalar(b, s, rest)
    ensures forall s, rest :: IsScalar(b, s, rest) ==> TakeScalar(b) == Ok(s, rest)
  {
    hide ScalarFits, PutScalar, TakeScalar;
    if TakeScalar(b).Ok? {
      ScalarParts(b);
      assert IsScalar(b, TakeScalar(b).value, TakeScalar(b).rest);
    }
    forall s, rest | IsScalar(b, s, rest)
      ensures TakeScalar(b) == Ok(s, rest)
    {
      ScalarAhead(s, rest);
    }
  }

  ghost predicate IsScalar(b: seq<Byte>, s: Scalar, rest: seq<Byte>) {
    ScalarFits(s) && b == PutScalar(s) + rest
  }

  lemma ScalarParts(b: seq<Byte>)
    requires TakeScalar(b).Ok?
    ensures var p := TakeScalar(b); ScalarFits(p.value) && PutScalar(p.value) + p.rest == b
  {
    hide TakeScalarBody, PutScalarBody, ScalarTag, ScalarFits;
    BodyParts(b[0], b[1..]);
    var p := TakeScalarBody(b[0], b[1..]);
    assert b == [b[0]] + (PutScalarBody(p.value) + p.rest);
    assert [b[0]] + (PutScalarBody(p.value) + p.rest) == ([b[0]] + PutScalarBody(p.value)) + p.rest;
  }

  ghost predicate IsElement(b: seq<Byte>, e: Element, rest: seq<Byte>) {
    ElementFits(e) && b == PutElement(e) + rest
  }

  /** A node's value likewise: a scalar behind the tag zero, or a composite's kind and id. */
  lemma ElementAccepted(b: seq<Byte>)
    ensures TakeElement(b).Ok? <==> exists e, rest :: IsElement(b, e, rest)
    ensures forall e, rest :: IsElement(b, e, rest) ==> TakeElement(b) == Ok(e, rest)
  {
    hide ElementFits, PutElement, TakeElement;
    if TakeElement(b).Ok? {
      ElementParts(b);
      assert IsElement(b, TakeElement(b).value, TakeElement(b).rest);
    }
    forall e, rest | IsElement(b, e, rest)
      ensures TakeElement(b) == Ok(e, rest)
    {
      ElementAhead(e, rest);
    }
  }

  lemma ElementParts(b: seq<Byte>)
    requires TakeElement(b).Ok?
    ensures var p := TakeElement(b); ElementFits(p.value) && PutElement(p.value) + p.rest == b
  {
    hide TakeScalar, PutScalar, ScalarFits, TakeUuid, Be;
    assert b == [b[0]] + b[1..];
    if b[0] == 0 {
      ScalarParts(b[1..]);
      var p := TakeScalar(b[1..]);
      assert [b[0]] + (PutScalar(p.value) + p.rest) == ([b[0]] + PutScalar(p.value)) + p.rest;
    } else {
      UuidParts(b[1..]);
      var p := TakeUuid(b[1..]);
      assert [b[0]] + (Be(p.value, 16) + p.rest) == ([b[0]] + Be(p.value, 16)) + p.rest;
    }
  }

  /** An anchor is read off a parent flag of zero or one and a side of zero or one; its bytes are the
      writer's exactly when the stamp inside them is. */
  lemma AnchorAccepted(b: seq<Byte>)
    requires TakeAnchor(b).Ok?
    ensures var p := TakeAnchor(b); b != [] && match p.value.parent
            case None => PutAnchor(p.value) + p.rest == b
            case Some(s) =>
              && b[0] == 1 && TakeStamp(b[1..]).Ok? && TakeStamp(b[1..]).value == s
              && (PutAnchor(p.value) + p.rest == b <==> PutStamp(s) + TakeStamp(b[1..]).rest == b[1..])
  {
    hide TakeStamp, PutStamp;
    var p := TakeAnchor(b);
    var side: seq<Byte> := [if p.value.side == Left then 0 else 1];
    assert b == [b[0]] + b[1..];
    if b[0] == 0 {
      assert b[1..] == side + p.rest;
      assert PutAnchor(p.value) + p.rest == [0] + (side + p.rest);
    } else {
      var s := TakeStamp(b[1..]);
      assert s.rest == side + p.rest;
      var out := PutStamp(s.value) + s.rest;
      assert PutAnchor(p.value) + p.rest == [1] + out by {
        assert out == PutStamp(s.value) + (side + p.rest);
      }
      assert ([1] + out)[1..] == out;
    }
  }

  /** A run record of no ids, or of more than 1,048,576, is refused. */
  lemma RecordAccepted(b: seq<Byte>)
    requires TakeChunk(b).Ok?
    ensures 1 <= TakeChunk(b).value.len <= 0x10_0000
  {
    hide TakeStamp, TakeAnchor, TakeU32;
  }
}
