/** camera/ImageUtil.java: the NV21 byte layout of a YUV_420_888 image and the format dispatch
    of imageToJpeg, over a model of java.nio.ByteBuffer. */
module ImageUtil {
  import opened Wrappers
  import opened JavaInt

  /** A Java `byte`. */
  type Byte = x: int | -128 <= x < 128

  /** Values of android.graphics.ImageFormat. */
  const JPEG: Int32 := 0x100
  const YUV_420_888: Int32 := 0x23

  /** A heap byte buffer: a backing array of `capacity` bytes with a read position and a limit. */
  class ByteBuffer {
    const content: array<Byte>
    var position: nat
    var limit: nat

    ghost predicate Valid()
      reads this
    {
      position <= limit <= content.Length
    }

    function Capacity(): nat
    {
      content.Length
    }

    function Remaining(): nat
      reads this
      requires Valid()
    {
      limit - position
    }

    /** The bytes between position and limit, which relative gets consume. */
    ghost function RemainingBytes(): seq<Byte>
      reads this, content
      requires Valid()
    {
      content[position..limit]
    }

    /** ByteBuffer.wrap: all of the bytes are remaining. */
    constructor Wrap(bytes: seq<Byte>)
      ensures Valid() && fresh(content)
      ensures content[..] == bytes && position == 0 && limit == |bytes|
    {
      content := new Byte[|bytes|] (i requires 0 <= i < |bytes| => bytes[i]);
      position := 0;
      limit := |bytes|;
    }

    /** get(dst, offset, length): bounds are checked first, then the remaining count; on success
        the next `length` bytes land at `dst[offset..]` and the position moves past them. */
    method Get(dst: array<Byte>, offset: int, length: int) returns (r: Result<()>)
      requires Valid() && dst != content
      modifies this, dst
      ensures Valid() && limit == old(limit)
      ensures r == (if offset < 0 || length < 0 || offset + length > dst.Length then Throws(IndexOutOfBounds)
                    else if length > old(Remaining()) then Throws(BufferUnderflow)
                    else Ok(()))
      ensures r.Throws? ==> position == old(position) && dst[..] == old(dst[..])
      ensures r.Ok? ==> position == old(position) + length &&
                        dst[..] == old(dst[..offset]) + old(content[position..position + length]) + old(dst[offset + length..])
    {
      if offset < 0 || length < 0 || offset + length > dst.Length {
        return Throws(IndexOutOfBounds);
      }
      if length > limit - position {
        return Throws(BufferUnderflow);
      }
      var start := position;
      var k := 0;
      while k < length
        invariant 0 <= k <= length
        invariant position == start && limit == old(limit)
        invariant forall i :: 0 <= i < offset ==> dst[i] == old(dst[i])
        invariant forall j :: offset <= j < offset + k ==> dst[j] == content[start + (j - offset)]
        invariant forall i :: offset + k <= i < dst.Length ==> dst[i] == old(dst[i])
      {
        dst[offset + k] := content[start + k];
        k := k + 1;
      }
      position := start + length;
      assert dst[..] == old(dst[..offset]) + content[start..start + length] + old(dst[offset + length..]);
      r := Ok(());
    }
  }

  /** YUV420888toNV21: the remaining bytes of the Y plane, then of the V plane, then of the U
      plane, each plane consumed to its limit. */
  method YUV420888toNV21(yBuffer: ByteBuffer, uBuffer: ByteBuffer, vBuffer: ByteBuffer) returns (nv21: array<Byte>)
    requires yBuffer.Valid() && uBuffer.Valid() && vBuffer.Valid()
    requires yBuffer != uBuffer && yBuffer != vBuffer && uBuffer != vBuffer
    requires yBuffer.Remaining() + uBuffer.Remaining() + vBuffer.Remaining() <= INT_MAX
    modifies yBuffer, uBuffer, vBuffer
    ensures fresh(nv21)
    ensures nv21.Length == old(yBuffer.Remaining() + uBuffer.Remaining() + vBuffer.Remaining())
    ensures nv21[..] == old(yBuffer.RemainingBytes()) + old(vBuffer.RemainingBytes()) + old(uBuffer.RemainingBytes())
    ensures yBuffer.Valid() && uBuffer.Valid() && vBuffer.Valid()
    ensures yBuffer.Remaining() == 0 && uBuffer.Remaining() == 0 && vBuffer.Remaining() == 0
    ensures yBuffer.limit == old(yBuffer.limit) && uBuffer.limit == old(uBuffer.limit) && vBuffer.limit == old(vBuffer.limit)
  {
    var ySize := yBuffer.Remaining();
    var uSize := uBuffer.Remaining();
    var vSize := vBuffer.Remaining();
    ghost var y := yBuffer.RemainingBytes();
    ghost var u := uBuffer.RemainingBytes();
    ghost var v := vBuffer.RemainingBytes();

    nv21 := new Byte[ySize + uSize + vSize];

    var vstat := ySize;
    var ustat := ySize + vSize;
    ghost var n0 := nv21[..];
    DrainInto(yBuffer, nv21, 0);
    ghost var n1 := nv21[..];
    DrainInto(vBuffer, nv21, vstat);
    ghost var n2 := nv21[..];
    DrainInto(uBuffer, nv21, ustat);
    PlanesInOrder(n0, y, v, u, n1, n2, nv21[..]);
  }

  /** Three splices at offsets 0, |y| and |y| + |v| of an array sized for all three parts leave
      exactly the parts, in order. */
  lemma PlanesInOrder<T>(n0: seq<T>, y: seq<T>, v: seq<T>, u: seq<T>, n1: seq<T>, n2: seq<T>, n3: seq<T>)
    requires |n0| == |y| + |u| + |v|
    requires n1 == n0[..0] + y + n0[|y|..]
    requires n2 == n1[..|y|] + v + n1[|y| + |v|..]
    requires n3 == n2[..|y| + |v|] + u + n2[|y| + |v| + |u|..]
    ensures n3 == y + v + u
  {
    Spliced(n0, 0, y, n1);
    Spliced(n1, |y|, v, n2);
    Spliced(n2, |y| + |v|, u, n3);
    SamePrefix(n3, n2, |y| + |v|, |y|);
    assert n1[0..|y|] == n1[..|y|];
    Concatenated(n3, y, v, u);
  }

  /** A bulk get of all remaining bytes of `buffer` into `dst` at `offset`, which has room. */
  method DrainInto(buffer: ByteBuffer, dst: array<Byte>, offset: nat)
    requires buffer.Valid() && dst != buffer.content && offset + buffer.Remaining() <= dst.Length
    modifies buffer, dst
    ensures buffer.Valid() && buffer.Remaining() == 0 && buffer.limit == old(buffer.limit)
    ensures dst[..] == old(dst[..offset]) + old(buffer.RemainingBytes()) + old(dst[offset + buffer.Remaining()..])
  {
    var ok := buffer.Get(dst, offset, buffer.Remaining());
  }

  /** After copying `part` to `offset`, the bytes before it are unchanged and the part sits
      right after them. */
  lemma Spliced<T>(before: seq<T>, offset: nat, part: seq<T>, after: seq<T>)
    requires offset + |part| <= |before|
    requires after == before[..offset] + part + before[offset + |part|..]
    ensures |after| == |before| && after[..offset] == before[..offset] && after[offset..offset + |part|] == part
  {
    assert after[..offset] == before[..offset];
    assert after[offset..offset + |part|] == part;
  }

  lemma SamePrefix<T>(a: seq<T>, b: seq<T>, k: nat, m: nat)
    requires m <= k <= |a| && k <= |b| && a[..k] == b[..k]
    ensures a[..m] == b[..m] && a[m..k] == b[m..k]
  {
    assert a[..m] == a[..k][..m] && b[..m] == b[..k][..m];
    assert a[m..k] == a[..k][m..] && b[m..k] == b[..k][m..];
  }

  lemma Concatenated<T>(all: seq<T>, x: seq<T>, y: seq<T>, z: seq<T>)
    requires |all| == |x| + |y| + |z|
    requires all[..|x|] == x && all[|x|..|x| + |y|] == y && all[|x| + |y|..] == z
    ensures all == x + y + z
  {
    assert all == all[..|x|] + all[|x|..|x| + |y|] + all[|x| + |y|..];
  }

  /** The NV21-to-JPEG codec, which is not part of this model. */
  type Nv21Encoder = (seq<Byte>, Int32, Int32) -> seq<Byte>

  /** imageToJpeg: a JPEG image yields a capacity-sized copy of its only plane (underflowing when
      fewer bytes remain), a YUV_420_888 image goes through NV21, any other format yields null. */
  method ImageToJpeg(format: Int32, width: Int32, height: Int32, planes: seq<ByteBuffer>, nv21ToJpeg: Nv21Encoder)
    returns (r: Result<Option<seq<Byte>>>)
    requires forall p :: p in planes ==> p.Valid()
    requires format == JPEG ==> |planes| >= 1
    requires format == YUV_420_888 ==>
               |planes| >= 3 && planes[0] != planes[1] && planes[0] != planes[2] && planes[1] != planes[2] &&
               planes[0].Remaining() + planes[1].Remaining() + planes[2].Remaining() <= INT_MAX
    modifies planes
    ensures format == JPEG ==>
              r == if old(planes[0].Remaining()) < planes[0].Capacity() then Throws(BufferUnderflow)
                   else Ok(Some(planes[0].content[..]))
    ensures format == JPEG ==> planes[0].Valid() && planes[0].limit == old(planes[0].limit)
    ensures format == JPEG && r.Ok? ==> planes[0].position == planes[0].limit
    ensures format == JPEG && r.Throws? ==> planes[0].position == old(planes[0].position)
    ensures format == JPEG ==> forall p :: p in planes && p != planes[0] ==> p.position == old(p.position)
    ensures format == YUV_420_888 ==>
              r == Ok(Some(nv21ToJpeg(old(planes[0].RemainingBytes()) + old(planes[2].RemainingBytes()) +
                                      old(planes[1].RemainingBytes()), width, height)))
    ensures format == YUV_420_888 ==>
              forall i :: 0 <= i < 3 ==> planes[i].Valid() && planes[i].limit == old(planes[i].limit) && planes[i].position == planes[i].limit
    ensures format != JPEG && format != YUV_420_888 ==> r == Ok(None)
    ensures format != JPEG && format != YUV_420_888 ==> forall p :: p in planes ==> p.position == old(p.position)
  {
    if format == JPEG {
      var buffer := planes[0];
      var data := new Byte[buffer.Capacity()];
      var got := buffer.Get(data, 0, data.Length);
      if got.Throws? {
        return Throws(got.error);
      }
      assert old(buffer.position) == 0;
      assert data[..] == buffer.content[..];
      assert !(old(planes[0].Remaining()) < planes[0].Capacity());
      return Ok(Some(data[..]));
    } else if format == YUV_420_888 {
      var nv21 := YUV420888toNV21(planes[0], planes[1], planes[2]);
      return Ok(Some(nv21ToJpeg(nv21[..], width, height)));
    }
    return Ok(None);
  }

  /** A JPEG copy succeeds exactly on a buffer that has not been read from and whose limit is
      its capacity, and then holds its whole backing array. */
  lemma JpegCopyNeedsFullBuffer(buffer: ByteBuffer)
    requires buffer.Valid()
    ensures buffer.Remaining() >= buffer.Capacity() <==> buffer.position == 0 && buffer.limit == buffer.Capacity()
    ensures buffer.Remaining() >= buffer.Capacity() ==> buffer.RemainingBytes() == buffer.content[..]
  {
  }
}
