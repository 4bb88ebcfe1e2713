/**
 * The frame splitter of the camera stream server: the byte buffer accumulated from the MJPEG
 * encoder's output is cut into JPEG images at the start-of-image (FF D8) and end-of-image (FF D9)
 * markers, and each image is wrapped as one part of a multipart HTTP response.
 */
module MjpegStream {
  import opened Bytes

  const Marker: byte := 0xFF
  const StartOfImage: byte := 0xD8
  const EndOfImage: byte := 0xD9

  /** `b'--frame\r\nContent-Type: image/jpeg\r\n\r\n'` */
  const PartHeader: seq<byte> := [
    0x2D, 0x2D, 0x66, 0x72, 0x61, 0x6D, 0x65, 0x0D, 0x0A, 0x43, 0x6F, 0x6E, 0x74, 0x65, 0x6E, 0x74,
    0x2D, 0x54, 0x79, 0x70, 0x65, 0x3A, 0x20, 0x69, 0x6D, 0x61, 0x67, 0x65, 0x2F, 0x6A, 0x70, 0x65,
    0x67, 0x0D, 0x0A, 0x0D, 0x0A]
  /** `b'\r\n'` */
  const PartTrailer: seq<byte> := [0x0D, 0x0A]

  /** The two-byte marker `a b` sits at position `k` of `buf`. */
  predicate MarkerAt(buf: seq<byte>, k: int, a: byte, b: byte)
  {
    0 <= k && k + 1 < |buf| && buf[k] == a && buf[k + 1] == b
  }

  /** `buf.find(bytes([a, b]), from)`: the first position at or after `from` of the marker, or -1. */
  function FindFrom(buf: seq<byte>, a: byte, b: byte, from: nat): (r: int)
    decreases |buf| - from
    ensures r == -1 || (from <= r && MarkerAt(buf, r, a, b))
    ensures forall k :: from <= k && (r == -1 || k < r) ==> !MarkerAt(buf, k, a, b)
  {
    if from + 1 >= |buf| then -1
    else if buf[from] == a && buf[from + 1] == b then from
    else FindFrom(buf, a, b, from + 1)
  }

  /** `buf.find(bytes([a, b]))` */
  function Find(buf: seq<byte>, a: byte, b: byte): int
  {
    FindFrom(buf, a, b, 0)
  }

  /**
   * One pass of the inner loop: the first image of `buf` and the buffer after it, when both
   * markers are present and the first end marker follows the first start marker.
   */
  predicate HasImage(buf: seq<byte>)
  {
    var start, end := Find(buf, Marker, StartOfImage), Find(buf, Marker, EndOfImage);
    start != -1 && end != -1 && end > start
  }

  /** The images cut from `buf` by repeated passes, and what remains of the buffer. */
  function Extract(buf: seq<byte>): (seq<seq<byte>>, seq<byte>)
    decreases |buf|
  {
    if HasImage(buf) then
      var start, end := Find(buf, Marker, StartOfImage), Find(buf, Marker, EndOfImage);
      var (images, rest) := Extract(buf[end + 2..]);
      ([buf[start..end + 2]] + images, rest)
    else ([], buf)
  }

  /** One multipart part: the header, the image, CR LF. */
  function Part(image: seq<byte>): seq<byte>
  {
    PartHeader + image + PartTrailer
  }

  /**
   * The inner `while True` loop of `generate_frames`: it cuts every complete image off the front
   * of the buffer and yields it as a part, stopping when no image is left; bytes before an
   * image's start marker are dropped with it.
   */
  method SplitFrames(input: seq<byte>) returns (parts: seq<seq<byte>>, buffer: seq<byte>)
    ensures buffer == Extract(input).1
    ensures |parts| == |Extract(input).0| && forall i :: 0 <= i < |parts| ==> parts[i] == Part(Extract(input).0[i])
  {
    buffer := input;
    parts := [];
    ghost var images: seq<seq<byte>> := [];
    assert images + Extract(buffer).0 == Extract(input).0;
    while true
      invariant Extract(input).0 == images + Extract(buffer).0 && Extract(input).1 == Extract(buffer).1
      invariant |parts| == |images| && forall i :: 0 <= i < |parts| ==> parts[i] == Part(images[i])
      decreases |buffer|
    {
      var start := Find(buffer, Marker, StartOfImage);
      var end := Find(buffer, Marker, EndOfImage);
      if start != -1 && end != -1 && end > start {
        var frame := buffer[start..end + 2];
        assert Extract(buffer).0 == [frame] + Extract(buffer[end + 2..]).0;
        assert images + Extract(buffer).0 == (images + [frame]) + Extract(buffer[end + 2..]).0;
        images := images + [frame];
        buffer := buffer[end + 2..];
        parts := parts + [Part(frame)];
      } else {
        break;
      }
    }
  }

  /** The image one pass cuts: FF D8 first, FF D9 last, and no other FF D9 in between. */
  predicate WellFormedImage(image: seq<byte>)
  {
    |image| >= 4 && MarkerAt(image, 0, Marker, StartOfImage) &&
    MarkerAt(image, |image| - 2, Marker, EndOfImage) &&
    forall k :: 0 <= k < |image| - 2 ==> !MarkerAt(image, k, Marker, EndOfImage)
  }

  /** The first image of a buffer is well formed. */
  lemma FirstImageShape(buf: seq<byte>)
    requires HasImage(buf)
    ensures WellFormedImage(buf[Find(buf, Marker, StartOfImage)..Find(buf, Marker, EndOfImage) + 2])
  {
    var start, end := Find(buf, Marker, StartOfImage), Find(buf, Marker, EndOfImage);
    var image := buf[start..end + 2];
    assert end != start + 1;
    forall k | 0 <= k < |image| - 2
      ensures !MarkerAt(image, k, Marker, EndOfImage)
    {
      assert !MarkerAt(buf, start + k, Marker, EndOfImage);
    }
  }

  /** Every image cut out is well formed, and what is left is a suffix of the buffer. */
  lemma {:induction false} ExtractShape(buf: seq<byte>)
    ensures forall i :: 0 <= i < |Extract(buf).0| ==> WellFormedImage(Extract(buf).0[i])
    ensures |Extract(buf).1| <= |buf| && Extract(buf).1 == buf[|buf| - |Extract(buf).1|..]
    decreases |buf|
  {
    if HasImage(buf) {
      var start, end := Find(buf, Marker, StartOfImage), Find(buf, Marker, EndOfImage);
      var tail := buf[end + 2..];
      ExtractShape(tail);
      FirstImageShape(buf);
      var (images, rest) := Extract(tail);
      assert Extract(buf) == ([buf[start..end + 2]] + images, rest);
      assert tail[|tail| - |rest|..] == buf[|buf| - |rest|..];
      forall i | 0 <= i < |Extract(buf).0|
        ensures WellFormedImage(Extract(buf).0[i])
      {
        if i > 0 {
          assert Extract(buf).0[i] == images[i - 1];
        }
      }
    }
  }

  /**
   * A stray end marker with no start marker before it stops the splitter for good: whatever
   * bytes arrive afterwards, no further image is cut.
   */
  lemma StrayEndBlocks(buf: seq<byte>, more: seq<byte>)
    requires Find(buf, Marker, EndOfImage) != -1
    requires forall k :: 0 <= k < Find(buf, Marker, EndOfImage) ==> !MarkerAt(buf, k, Marker, StartOfImage)
    ensures !HasImage(buf + more)
    ensures Extract(buf + more) == ([], buf + more)
  {
    var e := Find(buf, Marker, EndOfImage);
    var all := buf + more;
    assert MarkerAt(all, e, Marker, EndOfImage);
    forall k | 0 <= k < e
      ensures !MarkerAt(all, k, Marker, EndOfImage) && !MarkerAt(all, k, Marker, StartOfImage)
    {
      assert !MarkerAt(buf, k, Marker, EndOfImage) && !MarkerAt(buf, k, Marker, StartOfImage);
    }
    FindFirst(all, Marker, EndOfImage, e);
    assert Find(all, Marker, EndOfImage) == e;
    var s := Find(all, Marker, StartOfImage);
    assert s == -1 || s >= e;
  }

  /** A marker occurrence with none before it is what `Find` returns. */
  lemma FindFirst(buf: seq<byte>, a: byte, b: byte, e: nat)
    requires MarkerAt(buf, e, a, b)
    requires forall k :: 0 <= k < e ==> !MarkerAt(buf, k, a, b)
    ensures Find(buf, a, b) == e
  {
  }
}
