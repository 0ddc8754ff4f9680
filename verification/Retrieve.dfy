/** The 24-bit branch of VideoMMALObject::retrieve: taking out the padding at the end of each row
    of an image, where the padded row length comes from the mask in VCOS_ALIGN_UP. */
module Retrieve {
  import opened Bits
  import opened Limits

  type Bytes = seq<bv8>

  datatype Encoding = Rgb24 | Bgr24 | Other
  datatype Shape = Shape(width: nat, height: nat, encoding: Encoding)

  // ------------------------------------------------------------ the row lengths

  /** VCOS_ALIGN_UP(p, 32) where pointers have the given number of bits: ~31 has all of them set
      but the low five. */
  function AlignUp(p: nat, bits: nat): nat
    requires bits >= 5
  {
    AllButLowFive(bits);
    And(p + 31, Pow2(bits) - 32)
  }

  lemma AllButLowFive(bits: nat)
    requires bits >= 5
    ensures Pow2(5) == 32 && Pow2(bits) - 32 == Shifted(5, Pow2(bits - 5) - 1) >= 0
  {
    var m := Pow2(bits - 5) - 1;
    ShiftedScales(5, m);
    Pow2Sum(bits - 5, 5);
    assert Pow2(5) == 32;
  }

  /** The mask expression is the least multiple of 32 that is not below p. */
  lemma AlignUpIsLeast(p: nat, bits: nat)
    requires bits >= 5 && p + 31 < Pow2(bits)
    ensures AlignUp(p, bits) % 32 == 0 && p <= AlignUp(p, bits)
    ensures forall m: nat :: m % 32 == 0 && p <= m ==> AlignUp(p, bits) <= m
  {
    AlignUpRounds(p, bits);
    RoundDown(p + 31);
  }

  lemma AlignUpRounds(p: nat, bits: nat)
    requires bits >= 5 && p + 31 < Pow2(bits)
    ensures AlignUp(p, bits) == p + 31 - (p + 31) % 32
  {
    AllButLowFive(bits);
    ClearLowFive(p + 31, Pow2(bits - 5) - 1, bits);
  }

  lemma ClearLowFive(x: nat, m: nat, bits: nat)
    requires bits >= 5 && x < Pow2(bits) && m == Pow2(bits - 5) - 1
    ensures And(x, Shifted(5, m)) == x - x % 32
  {
    AndClear(x, 5, bits - 5);
    assert Pow2(5) == 32;
  }

  lemma RoundDown(x: nat)
    ensures (x - x % 32) % 32 == 0
    ensures forall m: nat :: m % 32 == 0 && m + 31 >= x ==> x - x % 32 <= m
  {
    forall m: nat | m % 32 == 0 && m + 31 >= x ensures x - x % 32 <= m {
      assert m == 32 * (m / 32) && x == 32 * (x / 32) + x % 32;
    }
  }

  /** The least multiple of 32 not below w. */
  function Aligned(w: nat): (a: nat)
    ensures w <= a < w + 32 && a % 32 == 0
  {
    (w + 31) / 32 * 32
  }

  /** The length given to memcpy: unsigned int arithmetic. */
  function RowBytes(width: nat): nat { width * 3 % WRAP }

  /** The step of imagePtr: the mask expression is a ptrdiff_t. */
  function Stride(width: nat, bits: nat): nat
    requires bits >= 5
  {
    AlignUp(width, bits) * 3
  }

  /** An image of len bytes the callback can have copied: its length is an unsigned int, and an object's
      size fits ptrdiff_t. */
  predicate Receivable(len: nat, bits: nat) {
    bits >= 32 && len < WRAP && len < Pow2(bits - 1)
  }

  /** If a received image holds one padded row of the width, nothing the code computes for the row
      overflows, whichever pointer size it is built for. */
  lemma NoOverflow(width: nat, len: nat, bits: nat)
    requires Receivable(len, bits) && Aligned(width) * 3 <= len
    ensures RowBytes(width) == width * 3
    ensures Stride(width, bits) == Aligned(width) * 3 < Pow2(bits - 1)
  {
    assert width + 31 < Pow2(bits - 1) by { HalfRange(bits); }
    assert Pow2(bits) == 2 * Pow2(bits - 1);
    AlignUpRounds(width, bits);
  }

  lemma HalfRange(bits: nat)
    requires bits >= 32
    ensures Pow2(bits - 1) >= 0x8000_0000
  {
    Pow2Values();
    Pow2Divides(31, bits - 1);
  }

  // ------------------------------------------------------------ padding and its removal

  /** The tight image, with gaps[r] put after row r. */
  function Padded(tight: Bytes, row: nat, gaps: seq<Bytes>): Bytes
    requires |tight| == row * |gaps|
  {
    if gaps == [] then []
    else
      var last := |gaps| - 1;
      LastRow(row, last);
      Padded(tight[..row * last], row, gaps[..last]) + tight[row * last..] + gaps[last]
  }

  /** What the loop copies out: the first row bytes of each stride. */
  function Unstride(image: Bytes, row: nat, stride: nat, height: nat): Bytes
    requires row <= stride && stride * height <= |image|
  {
    if height == 0 then []
    else
      LastRow(stride, height - 1);
      Unstride(image, row, stride, height - 1) + image[stride * (height - 1)..][..row]
  }

  lemma LastRow(row: nat, n: nat)
    ensures row * (n + 1) == row * n + row
  {
  }

  lemma {:induction false} UnstrideLength(image: Bytes, row: nat, stride: nat, height: nat)
    requires row <= stride && stride * height <= |image|
    ensures |Unstride(image, row, stride, height)| == row * height
  {
    if height > 0 {
      LastRow(stride, height - 1);
      UnstrideLength(image, row, stride, height - 1);
      LastRow(row, height - 1);
    }
  }

  lemma {:induction false} PaddedLength(tight: Bytes, row: nat, stride: nat, gaps: seq<Bytes>)
    requires |tight| == row * |gaps| && row <= stride
    requires forall r :: 0 <= r < |gaps| ==> |gaps[r]| == stride - row
    ensures |Padded(tight, row, gaps)| == stride * |gaps|
  {
    if gaps != [] {
      var last := |gaps| - 1;
      LastRow(row, last);
      PaddedLength(tight[..row * last], row, stride, gaps[..last]);
      LastRow(stride, last);
    }
  }

  /** Only the rows counted matter. */
  lemma {:induction false} UnstridePrefix(image: Bytes, rest: Bytes, row: nat, stride: nat, height: nat)
    requires row <= stride && stride * height <= |image|
    ensures Unstride(image + rest, row, stride, height) == Unstride(image, row, stride, height)
  {
    if height > 0 {
      LastRow(stride, height - 1);
      UnstridePrefix(image, rest, row, stride, height - 1);
      assert (image + rest)[stride * (height - 1)..][..row] == image[stride * (height - 1)..][..row];
    }
  }

  /** Whatever the padding holds, taking it out gives the tight image back. */
  lemma {:induction false} UnstrideUndoesPadding(tight: Bytes, row: nat, stride: nat, gaps: seq<Bytes>)
    requires |tight| == row * |gaps| && row <= stride
    requires forall r :: 0 <= r < |gaps| ==> |gaps[r]| == stride - row
    ensures |Padded(tight, row, gaps)| == stride * |gaps|
    ensures Unstride(Padded(tight, row, gaps), row, stride, |gaps|) == tight
  {
    PaddedLength(tight, row, stride, gaps);
    if gaps != [] {
      var last := |gaps| - 1;
      LastRow(row, last);
      LastRow(stride, last);
      var above := Padded(tight[..row * last], row, gaps[..last]);
      UnstrideUndoesPadding(tight[..row * last], row, stride, gaps[..last]);
      var below := tight[row * last..] + gaps[last];
      assert Padded(tight, row, gaps) == above + below;
      UnstridePrefix(above, below, row, stride, last);
      assert (above + below)[stride * last..] == below;
      assert below[..row] == tight[row * last..];
      assert tight == tight[..row * last] + tight[row * last..];
    }
  }

  /** For every image a callback can have copied, of any width, height and content, with any padding
      and anything after the last row: the lengths the code computes are the exact ones, and with them
      retrieve gives back the tight image. */
  lemma RetrieveUndoesPadding(tight: Bytes, width: nat, bits: nat, gaps: seq<Bytes>, rest: Bytes)
    requires |tight| == width * 3 * |gaps|
    requires forall r :: 0 <= r < |gaps| ==> |gaps[r]| == Aligned(width) * 3 - width * 3
    requires Receivable(|Padded(tight, width * 3, gaps) + rest|, bits)
    ensures |Padded(tight, width * 3, gaps)| == Aligned(width) * 3 * |gaps|
    ensures gaps != [] ==> RowBytes(width) == width * 3 && Stride(width, bits) == Aligned(width) * 3 < Pow2(bits - 1)
    ensures Unstride(Padded(tight, width * 3, gaps) + rest, width * 3, Aligned(width) * 3, |gaps|) == tight
  {
    var image, row, stride := Padded(tight, width * 3, gaps), width * 3, Aligned(width) * 3;
    UnstrideUndoesPadding(tight, row, stride, gaps);
    UnstridePrefix(image, rest, row, stride, |gaps|);
    if gaps != [] {
      MulMonotone(stride, 1, |gaps|);
      NoOverflow(width, |image + rest|, bits);
    }
  }

  // ------------------------------------------------------------ the loops

  /** memcpy(data + to, image + from, n) */
  method Copy(data: array<bv8>, to: nat, image: array<bv8>, from: nat, n: nat)
    requires data != image && to + n <= data.Length && from + n <= image.Length
    modifies data
    ensures data[..] == old(data[..to]) + image[from..from + n] + old(data[to + n..])
  {
    var k := 0;
    while k < n
      invariant 0 <= k <= n && image[..] == old(image[..])
      invariant data[..] == old(data[..to]) + image[from..from + k] + old(data[to + k..])
    {
      data[to + k] := image[from + k];
      k := k + 1;
    }
  }

  /** The 24-bit branch. The image and the caller's array have to be large enough for the rows
      they hold; given that, every access is in bounds and no length overflows. */
  method RetrieveRows(image: array<bv8>, width: nat, height: nat, bits: nat, data: array<bv8>)
    requires Receivable(image.Length, bits) && data != image
    requires Aligned(width) * 3 * height <= image.Length && width * 3 * height <= data.Length
    modifies data
    ensures data[..] == Unstride(image[..], width * 3, Aligned(width) * 3, height) + old(data[..])[width * 3 * height..]
  {
    if height > 0 {
      MulMonotone(Aligned(width) * 3, 1, height);
      NoOverflow(width, image.Length, bits);
    }
    CopyRows(image, RowBytes(width), Stride(width, bits), height, data);
    assert Unstride(image[..], width * 3, Aligned(width) * 3, 0) == [];
  }

  /** now is was with i rows copied to its front. */
  ghost predicate Copied(now: Bytes, was: Bytes, image: Bytes, row: nat, stride: nat, i: nat) {
    if i == 0 then now == was
    else
      && row <= stride && stride * i <= |image| && row * i <= |was|
      && now == Unstride(image, row, stride, i) + was[row * i..]
  }

  lemma CopiedNext(now: Bytes, next: Bytes, was: Bytes, image: Bytes, row: nat, stride: nat, i: nat)
    requires Copied(now, was, image, row, stride, i)
    requires row <= stride && stride * i + stride <= |image| && row * i + row <= |was| == |now|
    requires next == now[..row * i] + image[stride * i..stride * i + row] + now[row * i + row..]
    ensures Copied(next, was, image, row, stride, i + 1)
  {
    var done, r := Unstride(image, row, stride, i), image[stride * i..stride * i + row];
    UnstrideLength(image, row, stride, i);
    assert now == done + was[row * i..];
    LastRow(stride, i);
    LastRow(row, i);
    assert image[stride * i..][..row] == r;
    assert next == done + r + was[row * i + row..];
  }

  /** The loop over the rows, for the lengths computed from the width. */
  method CopyRows(image: array<bv8>, row: nat, stride: nat, height: nat, data: array<bv8>)
    requires data != image
    requires height > 0 ==> row <= stride && stride * height <= image.Length && row * height <= data.Length
    modifies data
    ensures Copied(data[..], old(data[..]), image[..], row, stride, height)
  {
    var to, from := 0, 0;
    var i := 0;
    while i < height
      invariant 0 <= i <= height && to == row * i && from == stride * i
      invariant image[..] == old(image[..])
      invariant Copied(data[..], old(data[..]), image[..], row, stride, i)
    {
      RowInside(row, i, height);
      RowInside(stride, i, height);
      ghost var before := data[..];
      Copy(data, to, image, from, row);
      CopiedNext(before, data[..], old(data[..]), image[..], row, stride, i);
      to, from := to + row, from + stride;
      i := i + 1;
    }
  }

  lemma RowInside(row: nat, i: nat, height: nat)
    requires i < height
    ensures row * i + row == row * (i + 1) <= row * height
  {
    MulMonotone(row, i + 1, height);
  }

  /** retrieve: nothing is copied for a length of 0, and the shape is that of whichever preview is open,
      the still one first. */
  method RetrieveFrame(image: array<bv8>, bufferLength: nat, stillOpened: bool, still: Shape, video: Shape, bits: nat,
                       data: array<bv8>)
    requires data != image && (bufferLength != 0 ==> image.Length == bufferLength && Receivable(bufferLength, bits))
    requires var shape := if stillOpened then still else video;
             bufferLength != 0 && (shape.encoding == Rgb24 || shape.encoding == Bgr24) ==>
               Aligned(shape.width) * 3 * shape.height <= bufferLength && shape.width * 3 * shape.height <= data.Length
    modifies data
    ensures var shape := if stillOpened then still else video;
            if bufferLength == 0 || (shape.encoding != Rgb24 && shape.encoding != Bgr24) then data[..] == old(data[..])
            else data[..] == Unstride(image[..], shape.width * 3, Aligned(shape.width) * 3, shape.height)
                           + old(data[..])[shape.width * 3 * shape.height..]
  {
    if bufferLength == 0 { return; }
    var shape := if stillOpened then still else video;
    if shape.encoding == Bgr24 || shape.encoding == Rgb24 {
      RetrieveRows(image, shape.width, shape.height, bits, data);
    }
  }
}
