/** The byte codec a snapshot is written in: the primitives of the wire format,
    each with the reader that inverts it. */
module Codec {
  import opened Stamps
  import opened Bytes

  const U32_LIMIT: nat := 0x1_0000_0000
  const U128_LIMIT: nat := 0x1_0000_0000_0000_0000_0000_0000_0000_0000

  datatype DecodeError = UnexpectedEof | BadTag(tag: nat) | TrailingBytes

  /** What a reader makes of the bytes ahead of it: a value and the bytes it left. */
  datatype Parsed<+T> = Ok(value: T, rest: seq<Byte>) | Err(error: DecodeError) {
    predicate IsFailure() {
      Err?
    }

    function PropagateFailure<U>(): Parsed<U>
      requires Err?
    {
      Err(error)
    }

    function Extract(): (T, seq<Byte>)
      requires Ok?
    {
      (value, rest)
    }
  }

  // ---- fixed-width fields ----

  function Take(b: seq<Byte>, n: nat): Parsed<seq<Byte>> {
    if |b| < n then Err(UnexpectedEof) else Ok(b[..n], b[n..])
  }

  lemma TakeAhead(x: seq<Byte>, rest: seq<Byte>)
    ensures Take(x + rest, |x|) == Ok(x, rest)
  {
    assert (x + rest)[..|x|] == x && (x + rest)[|x|..] == rest;
  }

  function TakeU8(b: seq<Byte>): Parsed<Byte> {
    if b == [] then Err(UnexpectedEof) else Ok(b[0], b[1..])
  }

  function TakeLe(b: seq<Byte>, k: nat): Parsed<nat> {
    var (x, rest) :- Take(b, k);
    Ok(FromLe(x), rest)
  }

  function TakeU32(b: seq<Byte>): Parsed<nat> {
    TakeLe(b, 4)
  }

  function TakeU64(b: seq<Byte>): Parsed<nat> {
    TakeLe(b, 8)
  }

  /** A client or element id: sixteen raw bytes. */
  function TakeUuid(b: seq<Byte>): Parsed<nat> {
    var (x, rest) :- Take(b, 16);
    Ok(FromBe(x), rest)
  }

  lemma LeAhead(n: nat, k: nat, rest: seq<Byte>)
    requires n < Pow256(k)
    ensures TakeLe(Le(n, k) + rest, k) == Ok(n, rest)
  {
    TakeAhead(Le(n, k), rest);
    LeRoundTrip(n, k);
  }

  lemma U32Ahead(n: nat, rest: seq<Byte>)
    requires n < U32_LIMIT
    ensures TakeU32(Le(n, 4) + rest) == Ok(n, rest)
  {
    Widths();
    LeAhead(n, 4, rest);
  }

  lemma U64Ahead(n: nat, rest: seq<Byte>)
    requires n < U64_LIMIT
    ensures TakeU64(Le(n, 8) + rest) == Ok(n, rest)
  {
    Widths();
    LeAhead(n, 8, rest);
  }

  lemma UuidAhead(n: nat, rest: seq<Byte>)
    requires n < U128_LIMIT
    ensures TakeUuid(Be(n, 16) + rest) == Ok(n, rest)
  {
    Widths();
    TakeAhead(Be(n, 16), rest);
    BeRoundTrip(n, 16);
  }

  // ---- stamps and anchors ----

  predicate StampFits(s: Stamp) {
    s.lamport < U64_LIMIT && s.client < U128_LIMIT && s.offset < U64_LIMIT
  }

  predicate AnchorFits(a: Anchor) {
    a.parent.Some? ==> StampFits(a.parent.value)
  }

  /** The offset is flagged rather than always written: it is zero for every op. */
  function PutStamp(s: Stamp): seq<Byte> {
    Le(s.lamport, 8) + Be(s.client, 16) + if s.offset == 0 then [0] else [1] + Le(s.offset, 8)
  }

  function TakeStamp(b: seq<Byte>): Parsed<Stamp> {
    var (lamport, b1) :- TakeU64(b);
    var (client, b2) :- TakeUuid(b1);
    var (flag, b3) :- TakeU8(b2);
    if flag == 0 then
      Ok(Stamp(lamport, client, 0), b3)
    else
      var (offset, b4) :- TakeU64(b3);
      Ok(Stamp(lamport, client, offset), b4)
  }

  function PutAnchor(a: Anchor): seq<Byte> {
    (match a.parent case None => [0] case Some(p) => [1] + PutStamp(p)) + [if a.side == Left then 0 else 1]
  }

  function TakeSide(b: seq<Byte>): Parsed<Side> {
    var (tag, rest) :- TakeU8(b);
    if tag == 0 then Ok(Left, rest) else if tag == 1 then Ok(Right, rest) else Err(BadTag(tag))
  }

  function TakeAnchor(b: seq<Byte>): Parsed<Anchor> {
    var (tag, b1) :- TakeU8(b);
    if tag == 0 then
      var (side, b2) :- TakeSide(b1);
      Ok(Anchor(None, side), b2)
    else if tag == 1 then
      var (parent, b2) :- TakeStamp(b1);
      var (side, b3) :- TakeSide(b2);
      Ok(Anchor(Some(parent), side), b3)
    else
      Err(BadTag(tag))
  }

  lemma StampAhead(s: Stamp, rest: seq<Byte>)
    requires StampFits(s)
    ensures TakeStamp(PutStamp(s) + rest) == Ok(s, rest)
  {
    hide TakeLe, TakeU64, TakeUuid, Le, Be;
    var flag := if s.offset == 0 then [0] else [1] + Le(s.offset, 8);
    assert PutStamp(s) + rest == Le(s.lamport, 8) + (Be(s.client, 16) + (flag + rest));
    U64Ahead(s.lamport, Be(s.client, 16) + (flag + rest));
    UuidAhead(s.client, flag + rest);
    if s.offset != 0 {
      assert (flag + rest)[1..] == Le(s.offset, 8) + rest;
      U64Ahead(s.offset, rest);
    } else {
      assert (flag + rest)[1..] == rest;
    }
  }

  /** What a stamp read off accepted bytes is made of: two fixed-width fields, a flag, and an
      offset behind any flag but zero. */
  lemma StampParts(b: seq<Byte>)
    requires TakeStamp(b).Ok?
    ensures |b| > 24 && (b[24] != 0 ==> |b| >= 33)
    ensures var s := TakeStamp(b).value;
            && Le(s.lamport, 8) == b[..8] && Be(s.client, 16) == b[8..24]
            && (if b[24] == 0 then s.offset == 0 && TakeStamp(b).rest == b[25..]
                else Le(s.offset, 8) == b[25..33] && TakeStamp(b).rest == b[33..])
  {
    hide Le, Be, FromLe, FromBe;
    FromLeRoundTrip(b[..8]);
    var b1 := b[8..];
    FromBeRoundTrip(b1[..16]);
    assert b1[..16] == b[8..24] && b1[16..] == b[24..];
    var b3 := b[24..][1..];
    assert b3 == b[25..];
    if b[24] != 0 {
      FromLeRoundTrip(b3[..8]);
      assert b3[..8] == b[25..33] && b3[8..] == b[33..];
    }
  }

  /** Accepted bytes are the ones the stamp would be written as exactly when their flag is the
      one the writer puts: zero, or one before an offset that is not zero. */
  lemma StampCanonicalIff(b: seq<Byte>)
    requires TakeStamp(b).Ok?
    ensures |b| > 24
    ensures var s, rest := TakeStamp(b).value, TakeStamp(b).rest;
            PutStamp(s) + rest == b <==> b[24] == 0 || (b[24] == 1 && s.offset != 0)
  {
    hide TakeStamp, Le, Be;
    StampParts(b);
    var s, rest := TakeStamp(b).value, TakeStamp(b).rest;
    var head := b[..8] + b[8..24];
    assert |head| == 24 && b == head + b[24..];
    if b[24] == 0 {
      assert PutStamp(s) + rest == head + ([0] + b[25..]);
      assert [0] + b[25..] == b[24..];
    } else {
      var out := PutStamp(s) + rest;
      assert out[24] == if s.offset == 0 then 0 else 1;
      if b[24] == 1 && s.offset != 0 {
        assert out == head + ([1] + b[25..33] + b[33..]);
        assert [1] + b[25..33] + b[33..] == b[24..];
      }
    }
  }

  /** Every other flag is accepted all the same: any stamp also reads back from any non-zero
      flag before its offset, so two byte strings name one stamp. */
  lemma LooseStamp(s: Stamp, flag: Byte, rest: seq<Byte>)
    requires StampFits(s) && flag != 0 && (flag == 1 ==> s.offset == 0)
    ensures var b := Le(s.lamport, 8) + Be(s.client, 16) + [flag] + Le(s.offset, 8) + rest;
            TakeStamp(b) == Ok(s, rest) && PutStamp(s) + rest != b
  {
    hide TakeLe, TakeU64, TakeUuid, Le, Be;
    var tail := [flag] + Le(s.offset, 8) + rest;
    var b := Le(s.lamport, 8) + Be(s.client, 16) + [flag] + Le(s.offset, 8) + rest;
    assert b == Le(s.lamport, 8) + (Be(s.client, 16) + tail);
    U64Ahead(s.lamport, Be(s.client, 16) + tail);
    UuidAhead(s.client, tail);
    assert tail[1..] == Le(s.offset, 8) + rest;
    U64Ahead(s.offset, rest);
    assert b[24] == flag && (PutStamp(s) + rest)[24] == if s.offset == 0 then 0 else 1;
  }

  /** At one concrete string: twenty-four zero bytes, the flag one and a zero offset read as
      the zero stamp, which is written in twenty-five. */
  lemma LooseStampInput()
    ensures var zeros: seq<Byte> := seq(24, i => 0); var b := zeros + [1, 0, 0, 0, 0, 0, 0, 0, 0];
            && TakeStamp(b) == Ok(Stamp(0, 0, 0), [])
            && PutStamp(Stamp(0, 0, 0)) == zeros + [0] && PutStamp(Stamp(0, 0, 0)) != b
  {
    hide TakeStamp;
    var zeros: seq<Byte> := seq(24, i => 0);
    ZeroBytes(8);
    ZeroBytes(16);
    assert zeros == Le(0, 8) + Be(0, 16);
    LooseStamp(Stamp(0, 0, 0), 1, []);
    assert Le(0, 8) + Be(0, 16) + [1] + Le(0, 8) + [] == zeros + [1, 0, 0, 0, 0, 0, 0, 0, 0];
    assert PutStamp(Stamp(0, 0, 0)) + [] == PutStamp(Stamp(0, 0, 0));
  }

  lemma {:induction false} ZeroBytes(k: nat)
    ensures Le(0, k) == seq(k, i => 0) && Be(0, k) == seq(k, i => 0)
  {
    if k > 0 {
      ZeroBytes(k - 1);
    }
  }

  lemma AnchorAhead(a: Anchor, rest: seq<Byte>)
    requires AnchorFits(a)
    ensures TakeAnchor(PutAnchor(a) + rest) == Ok(a, rest)
  {
    hide TakeStamp, PutStamp;
    var side: seq<Byte> := [if a.side == Left then 0 else 1];
    assert (side + rest)[1..] == rest;
    match a.parent {
      case None =>
        assert PutAnchor(a) + rest == [0] + (side + rest);
      case Some(p) =>
        assert PutAnchor(a) + rest == [1] + (PutStamp(p) + (side + rest));
        StampAhead(p, side + rest);
    }
  }

  // ---- values ----

  datatype Scalar =
    | Null
    | Bool(b: bool)
    | Int(n: int)
    | Blob(bytes: seq<Byte>)
    | BlobRef(handle: nat, mime: seq<Byte>, size: nat, inline: Option<seq<Byte>>)
    | ElementRef(element: nat)

  /** The composite kinds a sequence node may refer to, by their tags. */
  datatype Element =
    | Leaf(scalar: Scalar)
    | Composite(kind: nat, id: nat)

  predicate BytesFit(b: seq<Byte>) {
    |b| < U32_LIMIT
  }

  predicate ScalarFits(s: Scalar) {
    match s
    case Int(n) => -0x8000_0000_0000_0000 <= n < 0x8000_0000_0000_0000
    case Blob(b) => BytesFit(b)
    case BlobRef(h, m, size, inline) =>
      h < U128_LIMIT && BytesFit(m) && size < U64_LIMIT && (inline.Some? ==> BytesFit(inline.value))
    case ElementRef(e) => e < U128_LIMIT
    case _ => true
  }

  predicate ElementFits(e: Element) {
    match e
    case Leaf(s) => ScalarFits(s)
    case Composite(kind, id) => 2 <= kind <= 7 && id < U128_LIMIT
  }

  function PutBytes(b: seq<Byte>): seq<Byte> {
    Le(|b|, 4) + b
  }

  function TakeBytes(b: seq<Byte>): Parsed<seq<Byte>> {
    var (n, b1) :- TakeU32(b);
    Take(b1, n)
  }

  /** Two's complement. */
  function Unsigned(n: int): nat
    requires -0x8000_0000_0000_0000 <= n
  {
    if n < 0 then n + U64_LIMIT else n
  }

  function Signed(u: nat): int {
    if u < 0x8000_0000_0000_0000 then u else u - U64_LIMIT
  }

  function PutInline(inline: Option<seq<Byte>>): seq<Byte> {
    match inline case None => [0] case Some(b) => [1] + PutBytes(b)
  }

  function TakeInline(b: seq<Byte>): Parsed<Option<seq<Byte>>> {
    var (tag, b1) :- TakeU8(b);
    if tag == 0 then
      Ok(None, b1)
    else if tag == 1 then
      var (x, b2) :- TakeBytes(b1);
      Ok(Some(x), b2)
    else
      Err(BadTag(tag))
  }

  function ScalarTag(s: Scalar): Byte {
    match s
    case Null => 0
    case Bool(_) => 1
    case Int(_) => 2
    case Blob(_) => 3
    case BlobRef(_, _, _, _) => 4
    case ElementRef(_) => 5
  }

  function PutScalarBody(s: Scalar): seq<Byte>
    requires ScalarFits(s)
  {
    match s
    case Null => []
    case Bool(b) => [if b then 1 else 0]
    case Int(n) => Le(Unsigned(n), 8)
    case Blob(b) => PutBytes(b)
    case BlobRef(h, m, size, inline) => Be(h, 16) + PutBytes(m) + Le(size, 8) + PutInline(inline)
    case ElementRef(e) => Be(e, 16)
  }

  function PutScalar(s: Scalar): seq<Byte>
    requires ScalarFits(s)
  {
    [ScalarTag(s)] + PutScalarBody(s)
  }

  function TakeBool(b: seq<Byte>): Parsed<Scalar> {
    var (tag, rest) :- TakeU8(b);
    if tag > 1 then Err(BadTag(tag)) else Ok(Bool(tag == 1), rest)
  }

  function TakeBlobRef(b: seq<Byte>): Parsed<Scalar> {
    var (h, b1) :- TakeUuid(b);
    var (m, b2) :- TakeBytes(b1);
    var (size, b3) :- TakeU64(b2);
    var (inline, b4) :- TakeInline(b3);
    Ok(BlobRef(h, m, size, inline), b4)
  }

  function TakeScalarBody(tag: Byte, b: seq<Byte>): Parsed<Scalar> {
    match tag
    case 0 => Ok(Null, b)
    case 1 => TakeBool(b)
    case 2 => var (u, rest) :- TakeU64(b); Ok(Int(Signed(u)), rest)
    case 3 => var (x, rest) :- TakeBytes(b); Ok(Blob(x), rest)
    case 4 => TakeBlobRef(b)
    case 5 => var (e, rest) :- TakeUuid(b); Ok(ElementRef(e), rest)
    case _ => Err(BadTag(tag))
  }

  function TakeScalar(b: seq<Byte>): Parsed<Scalar> {
    var (tag, rest) :- TakeU8(b);
    TakeScalarBody(tag, rest)
  }

  lemma BytesAhead(x: seq<Byte>, rest: seq<Byte>)
    requires BytesFit(x)
    ensures TakeBytes(PutBytes(x) + rest) == Ok(x, rest)
  {
    assert PutBytes(x) + rest == Le(|x|, 4) + (x + rest);
    U32Ahead(|x|, x + rest);
    TakeAhead(x, rest);
  }

  lemma InlineAhead(inline: Option<seq<Byte>>, rest: seq<Byte>)
    requires inline.Some? ==> BytesFit(inline.value)
    ensures TakeInline(PutInline(inline) + rest) == Ok(inline, rest)
  {
    hide PutBytes, TakeBytes;
    match inline {
      case None =>
        assert (PutInline(inline) + rest)[1..] == rest;
      case Some(b) =>
        assert (PutInline(inline) + rest)[1..] == PutBytes(b) + rest;
        BytesAhead(b, rest);
    }
  }

  lemma BlobRefAhead(h: nat, m: seq<Byte>, size: nat, inline: Option<seq<Byte>>, rest: seq<Byte>)
    requires ScalarFits(BlobRef(h, m, size, inline))
    ensures TakeBlobRef(Be(h, 16) + PutBytes(m) + Le(size, 8) + PutInline(inline) + rest)
         == Ok(BlobRef(h, m, size, inline), rest)
  {
    hide PutBytes, TakeBytes, PutInline, TakeInline, TakeU64, TakeUuid, Le, Be;
    var i := PutInline(inline) + rest;
    assert Be(h, 16) + PutBytes(m) + Le(size, 8) + PutInline(inline) + rest
        == Be(h, 16) + (PutBytes(m) + (Le(size, 8) + i));
    UuidAhead(h, PutBytes(m) + (Le(size, 8) + i));
    BytesAhead(m, Le(size, 8) + i);
    U64Ahead(size, i);
    InlineAhead(inline, rest);
  }

  lemma ScalarBodyAhead(s: Scalar, rest: seq<Byte>)
    requires ScalarFits(s)
    ensures TakeScalarBody(ScalarTag(s), PutScalarBody(s) + rest) == Ok(s, rest)
  {
    hide PutBytes, TakeBytes, TakeBlobRef, PutInline, TakeU64, TakeUuid, Le, Be;
    match s {
      case Null =>
        assert PutScalarBody(s) + rest == rest;
      case Bool(v) =>
        assert (PutScalarBody(s) + rest)[1..] == rest;
      case Int(n) =>
        U64Ahead(Unsigned(n), rest);
      case Blob(x) =>
        BytesAhead(x, rest);
      case BlobRef(h, m, size, inline) =>
        BlobRefAhead(h, m, size, inline, rest);
      case ElementRef(e) =>
        UuidAhead(e, rest);
    }
  }

  lemma ScalarAhead(s: Scalar, rest: seq<Byte>)
    requires ScalarFits(s)
    ensures TakeScalar(PutScalar(s) + rest) == Ok(s, rest)
  {
    hide PutScalarBody, TakeScalarBody, ScalarTag;
    assert (PutScalar(s) + rest)[1..] == PutScalarBody(s) + rest;
    ScalarBodyAhead(s, rest);
  }

  /** A sequence node's value: a scalar inline, a composite by kind and id. The kind
      tag leads, so the two are told apart by their first byte. */
  function PutElement(e: Element): seq<Byte>
    requires ElementFits(e)
  {
    match e
    case Leaf(s) => [0] + PutScalar(s)
    case Composite(kind, id) => [kind] + Be(id, 16)
  }

  function TakeElement(b: seq<Byte>): Parsed<Element> {
    var (tag, b1) :- TakeU8(b);
    if tag == 0 then
      var (s, b2) :- TakeScalar(b1);
      Ok(Leaf(s), b2)
    else if 2 <= tag <= 7 then
      var (id, b2) :- TakeUuid(b1);
      Ok(Composite(tag, id), b2)
    else
      Err(BadTag(tag))
  }

  lemma ElementAhead(e: Element, rest: seq<Byte>)
    requires ElementFits(e)
    ensures TakeElement(PutElement(e) + rest) == Ok(e, rest)
  {
    hide PutScalar, TakeScalar, TakeUuid, Be;
    var b := PutElement(e) + rest;
    match e {
      case Leaf(s) =>
        assert b[1..] == PutScalar(s) + rest;
        ScalarAhead(s, rest);
      case Composite(kind, id) =>
        assert b[1..] == Be(id, 16) + rest;
        UuidAhead(id, rest);
    }
  }

  /** The value encoding is injective, so the rank it ends separates every two values. */
  lemma ElementInjective(e: Element, f: Element)
    requires ElementFits(e) && ElementFits(f) && PutElement(e) == PutElement(f)
    ensures e == f
  {
    hide PutElement, TakeElement;
    ElementAhead(e, []);
    ElementAhead(f, []);
  }

  /** The kind tag a value leads with: `0` for a scalar. */
  function KindTag(e: Element): nat {
    match e case Leaf(_) => 0 case Composite(kind, _) => kind
  }
}
