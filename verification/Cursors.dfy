/** The cursor a decode reads through: a fixed buffer and a position every read advances.
    Each read is held to the parser of the same field over the bytes still ahead. */
module Cursors {
  import opened Stamps
  import opened Bytes
  import opened Codec

  datatype Read<+T> = Got(value: T) | Failed(error: DecodeError) {
    predicate IsFailure() {
      Failed?
    }

    function PropagateFailure<U>(): Read<U>
      requires Failed?
    {
      Failed(error)
    }

    function Extract(): T
      requires Got?
    {
      value
    }
  }

  /** A read agrees with a parse: the same value and the same bytes left, or the same
      error. */
  predicate Agrees<T(==)>(p: Parsed<T>, r: Read<T>, rest: seq<Byte>) {
    match p
    case Ok(v, left) => r == Got(v) && rest == left
    case Err(e) => r == Failed(e)
  }

  class Cursor {
    const buf: seq<Byte>
    var pos: nat

    ghost predicate Valid()
      reads this
    {
      pos <= |buf|
    }

    /** The bytes not yet consumed. */
    function Rest(): seq<Byte>
      requires Valid()
      reads this
    {
      buf[pos..]
    }

    constructor (bytes: seq<Byte>)
      ensures Valid() && buf == bytes && Rest() == bytes
    {
      buf := bytes;
      pos := 0;
    }

    method TakeN(n: nat) returns (r: Read<seq<Byte>>)
      requires Valid()
      modifies this
      ensures Valid() && Agrees(Take(old(Rest()), n), r, Rest())
      ensures r.Failed? ==> Rest() == old(Rest())
    {
      if |buf| - pos < n {
        return Failed(UnexpectedEof);
      }
      var x := buf[pos..pos + n];
      assert x == Rest()[..n] && buf[pos + n..] == Rest()[n..];
      pos := pos + n;
      return Got(x);
    }

    method U8() returns (r: Read<Byte>)
      requires Valid()
      modifies this
      ensures Valid() && Agrees(TakeU8(old(Rest())), r, Rest())
    {
      var x :- TakeN(1);
      return Got(x[0]);
    }

    method U32() returns (r: Read<nat>)
      requires Valid()
      modifies this
      ensures Valid() && Agrees(TakeU32(old(Rest())), r, Rest())
    {
      var x :- TakeN(4);
      return Got(FromLe(x));
    }

    method U64() returns (r: Read<nat>)
      requires Valid()
      modifies this
      ensures Valid() && Agrees(TakeU64(old(Rest())), r, Rest())
    {
      var x :- TakeN(8);
      return Got(FromLe(x));
    }

    method Uuid() returns (r: Read<nat>)
      requires Valid()
      modifies this
      ensures Valid() && Agrees(TakeUuid(old(Rest())), r, Rest())
    {
      var x :- TakeN(16);
      return Got(FromBe(x));
    }

    method ReadStamp() returns (r: Read<Stamp>)
      requires Valid()
      modifies this
      ensures Valid() && Agrees(TakeStamp(old(Rest())), r, Rest())
    {
      hide TakeU64, TakeUuid, TakeU8;
      var lamport :- U64();
      var client :- Uuid();
      var flag :- U8();
      if flag == 0 {
        return Got(Stamp(lamport, client, 0));
      }
      var offset :- U64();
      return Got(Stamp(lamport, client, offset));
    }

    method ReadSide() returns (r: Read<Side>)
      requires Valid()
      modifies this
      ensures Valid() && Agrees(TakeSide(old(Rest())), r, Rest())
    {
      hide TakeU8;
      var tag :- U8();
      return if tag == 0 then Got(Left) else if tag == 1 then Got(Right) else Failed(BadTag(tag));
    }

    method ReadAnchor() returns (r: Read<Anchor>)
      requires Valid()
      modifies this
      ensures Valid() && Agrees(TakeAnchor(old(Rest())), r, Rest())
    {
      hide TakeU8, TakeStamp, TakeSide;
      var tag :- U8();
      if tag == 0 {
        var side :- ReadSide();
        return Got(Anchor(None, side));
      } else if tag == 1 {
        var parent :- ReadStamp();
        var side :- ReadSide();
        return Got(Anchor(Some(parent), side));
      }
      return Failed(BadTag(tag));
    }

    method ReadBytes() returns (r: Read<seq<Byte>>)
      requires Valid()
      modifies this
      ensures Valid() && Agrees(TakeBytes(old(Rest())), r, Rest())
    {
      hide TakeU32, Take;
      var n :- U32();
      var x :- TakeN(n);
      return Got(x);
    }

    method ReadInline() returns (r: Read<Option<seq<Byte>>>)
      requires Valid()
      modifies this
      ensures Valid() && Agrees(TakeInline(old(Rest())), r, Rest())
    {
      hide TakeU8, TakeBytes;
      var tag :- U8();
      if tag == 0 {
        return Got(None);
      } else if tag == 1 {
        var x :- ReadBytes();
        return Got(Some(x));
      }
      return Failed(BadTag(tag));
    }

    method ReadBlobRef() returns (r: Read<Scalar>)
      requires Valid()
      modifies this
      ensures Valid() && Agrees(TakeBlobRef(old(Rest())), r, Rest())
    {
      hide TakeUuid, TakeBytes, TakeU64, TakeInline;
      var h :- Uuid();
      var m :- ReadBytes();
      var size :- U64();
      var inline :- ReadInline();
      return Got(BlobRef(h, m, size, inline));
    }

    method ReadScalar() returns (r: Read<Scalar>)
      requires Valid()
      modifies this
      ensures Valid() && Agrees(TakeScalar(old(Rest())), r, Rest())
    {
      hide TakeUuid, TakeBytes, TakeU64, TakeBlobRef, TakeU8, Take;
      var tag :- U8();
      match tag
      case 0 =>
        return Got(Null);
      case 1 =>
        var b :- U8();
        return if b > 1 then Failed(BadTag(b)) else Got(Bool(b == 1));
      case 2 =>
        var u :- U64();
        return Got(Int(Signed(u)));
      case 3 =>
        var x :- ReadBytes();
        return Got(Blob(x));
      case 4 =>
        var s :- ReadBlobRef();
        return Got(s);
      case 5 =>
        var e :- Uuid();
        return Got(ElementRef(e));
      case _ =>
        return Failed(BadTag(tag));
    }

    method ReadElement() returns (r: Read<Element>)
      requires Valid()
      modifies this
      ensures Valid() && Agrees(TakeElement(old(Rest())), r, Rest())
    {
      hide TakeU8, TakeScalar, TakeUuid;
      var tag :- U8();
      if tag == 0 {
        var s :- ReadScalar();
        return Got(Leaf(s));
      } else if 2 <= tag <= 7 {
        var id :- Uuid();
        return Got(Composite(tag, id));
      }
      return Failed(BadTag(tag));
    }
  }
}
