/**
 The JPEG marker walk that finds an image's size (src-tauri/src/bridge/inputs.rs),
 against streams built from the segments of Annex B of ITU-T T.81.
 */
module Jpeg {
  import opened Wrappers

  datatype Dimensions = Dimensions(width: nat, height: nat)

  /** RST0-7, SOI, EOI and TEM carry no length. */
  predicate Standalone(marker: Byte) {
    0xD0 <= marker <= 0xD9 || marker == 0x01
  }

  predicate IsSof(marker: Byte) {
    0xC0 <= marker <= 0xCF && marker != 0xC4 && marker != 0xC8 && marker != 0xCC
  }

  function Word(hi: Byte, lo: Byte): nat {
    hi * 256 + lo
  }

  /** The walk from `i`. */
  function Walk(b: seq<Byte>, i: nat): Option<Dimensions>
    decreases |b| - i
  {
    if i + 9 >= |b| then None
    else if b[i] != 0xFF then Walk(b, i + 1)
    else if b[i + 1] == 0xFF || Standalone(b[i + 1]) then Walk(b, i + 2)
    else if IsSof(b[i + 1]) then Some(Dimensions(Word(b[i + 7], b[i + 8]), Word(b[i + 5], b[i + 6])))
    else
      var len := Word(b[i + 2], b[i + 3]);
      if len < 2 then None else Walk(b, i + 2 + len)
  }

  method JpegDimensions(b: seq<Byte>) returns (r: Option<Dimensions>)
    ensures r == Walk(b, 2)
  {
    var i := 2;
    while i + 9 < |b|
      invariant Walk(b, i) == Walk(b, 2)
      decreases |b| - i
    {
      if b[i] != 0xFF {
        i := i + 1;
        continue;
      }
      var marker := b[i + 1];
      if marker == 0xFF || Standalone(marker) {
        i := i + 2;
        continue;
      }
      var len := Word(b[i + 2], b[i + 3]);
      if IsSof(marker) {
        return Some(Dimensions(Word(b[i + 7], b[i + 8]), Word(b[i + 5], b[i + 6])));
      }
      if len < 2 {
        return None;
      }
      i := i + 2 + len;
    }
    return None;
  }

  // --------------------------------------------------------------- real streams

  /** What may stand between SOI and the frame header. `Noise` is a byte between
      segments that begins no marker, which the walk steps over; fill bytes come in pairs (see
      `FillBytes` for an odd one). */
  datatype Segment = Marker(code: Byte) | Sized(code: Byte, payload: seq<Byte>) | Noise(value: Byte) | FillPair

  predicate WellFormed(s: Segment) {
    match s
    case Marker(code) => Standalone(code)
    case Sized(code, payload) => code != 0xFF && !Standalone(code) && !IsSof(code) && |payload| <= 65533
    case Noise(value) => value != 0xFF
    case FillPair => true
  }

  function SegmentBytes(s: Segment): seq<Byte>
    requires WellFormed(s)
  {
    match s
    case Marker(code) => [0xFF, code]
    case Sized(code, payload) => [0xFF, code, (|payload| + 2) / 256, (|payload| + 2) % 256] + payload
    case Noise(value) => [value]
    case FillPair => [0xFF, 0xFF]
  }

  predicate AllWellFormed(segments: seq<Segment>) {
    forall i :: 0 <= i < |segments| ==> WellFormed(segments[i])
  }

  function Serialize(segments: seq<Segment>): seq<Byte>
    requires AllWellFormed(segments)
  {
    if segments == [] then [] else SegmentBytes(segments[0]) + Serialize(segments[1..])
  }

  /** A frame header: SOF marker, length, precision, height, width, component
      count and what follows. */
  datatype Frame = Frame(code: Byte, lengthHi: Byte, lengthLo: Byte, precision: Byte,
                         heightHi: Byte, heightLo: Byte, widthHi: Byte, widthLo: Byte,
                         components: Byte, rest: seq<Byte>)

  function FrameBytes(f: Frame): seq<Byte> {
    [0xFF, f.code, f.lengthHi, f.lengthLo, f.precision, f.heightHi, f.heightLo, f.widthHi, f.widthLo, f.components]
    + f.rest
  }

  /** The walk looks only at what lies ahead. */
  lemma {:induction false} WalkShifts(prefix: seq<Byte>, b: seq<Byte>, i: nat)
    ensures Walk(prefix + b, |prefix| + i) == Walk(b, i)
    decreases |b| - i
  {
    var all := prefix + b;
    if i + 9 < |b| {
      var p := |prefix| + i;
      assert b[i] == all[p] && b[i + 1] == all[p + 1] && b[i + 2] == all[p + 2] && b[i + 3] == all[p + 3];
      assert b[i + 5] == all[p + 5] && b[i + 6] == all[p + 6] && b[i + 7] == all[p + 7] && b[i + 8] == all[p + 8];
      if b[i] != 0xFF {
        WalkShifts(prefix, b, i + 1);
      } else if b[i + 1] == 0xFF || Standalone(b[i + 1]) {
        WalkShifts(prefix, b, i + 2);
      } else if !IsSof(b[i + 1]) && Word(b[i + 2], b[i + 3]) >= 2 {
        WalkShifts(prefix, b, i + 2 + Word(b[i + 2], b[i + 3]));
      }
    }
  }

  /** One segment is stepped over whole, whatever its payload looks like. */
  lemma SegmentIsSkipped(s: Segment, rest: seq<Byte>)
    requires WellFormed(s) && |rest| >= 10
    ensures Walk(SegmentBytes(s) + rest, 0) == Walk(rest, 0)
  {
    var head := SegmentBytes(s);
    var all := head + rest;
    WalkShifts(head, rest, 0);
    assert all[0] == head[0];
    if !s.Noise? {
      assert all[1] == head[1];
    }
    if s.Sized? {
      assert all[2] == head[2] && all[3] == head[3];
      assert Word(all[2], all[3]) == |s.payload| + 2;
    }
  }

  lemma {:induction false} SegmentsAreSkipped(segments: seq<Segment>, rest: seq<Byte>)
    requires AllWellFormed(segments) && |rest| >= 10
    ensures Walk(Serialize(segments) + rest, 0) == Walk(rest, 0)
  {
    if segments == [] {
      assert Serialize(segments) + rest == rest;
    } else {
      var tail := Serialize(segments[1..]) + rest;
      assert Serialize(segments) + rest == SegmentBytes(segments[0]) + tail;
      SegmentIsSkipped(segments[0], tail);
      SegmentsAreSkipped(segments[1..], rest);
    }
  }

  /** For SOI, any segments (SOF-looking payloads included) and a complete frame
      header, the walk answers that frame's width and height. */
  lemma FrameSizeIsFound(segments: seq<Segment>, f: Frame)
    requires AllWellFormed(segments) && IsSof(f.code)
    ensures Walk([0xFF, 0xD8] + Serialize(segments) + FrameBytes(f), 2)
         == Some(Dimensions(Word(f.widthHi, f.widthLo), Word(f.heightHi, f.heightLo)))
  {
    var body := Serialize(segments) + FrameBytes(f);
    assert [0xFF, 0xD8] + Serialize(segments) + FrameBytes(f) == [0xFF, 0xD8] + body;
    WalkShifts([0xFF, 0xD8], body, 0);
    SegmentsAreSkipped(segments, FrameBytes(f));
  }

  function Fill(n: nat): seq<Byte> {
    seq(n, i => 0xFF)
  }

  /** Fill bytes before a marker (section B.1.1.2 of T.81): the walk takes them
      two at a time, so it meets the marker behind an even number of them and
      lands one byte into it behind an odd number. */
  lemma {:induction false} FillBytes(n: nat, rest: seq<Byte>)
    requires |rest| >= 10 && rest[0] == 0xFF
    ensures Walk(Fill(n) + rest, 0) == Walk(rest, n % 2)
    decreases n
  {
    if n == 0 {
      assert Fill(0) + rest == rest;
    } else if n == 1 {
      var all := Fill(1) + rest;
      assert all[0] == 0xFF && all[1] == 0xFF;
      WalkShifts(Fill(1), rest, 1);
    } else {
      FillBytes(n - 2, rest);
      var tail := Fill(n - 2) + rest;
      assert Fill(n) + rest == [0xFF, 0xFF] + tail;
      WalkShifts([0xFF, 0xFF], tail, 0);
    }
  }

  /** As the code walks a stream: behind any segments and an even number of fill
      bytes the frame is found; behind an odd number the walk goes on one byte
      into its marker. */
  lemma FrameBehindFill(segments: seq<Segment>, n: nat, f: Frame)
    requires AllWellFormed(segments) && IsSof(f.code)
    ensures Walk([0xFF, 0xD8] + Serialize(segments) + Fill(n) + FrameBytes(f), 2)
         == if n % 2 == 0 then Some(Dimensions(Word(f.widthHi, f.widthLo), Word(f.heightHi, f.heightLo)))
            else Walk(FrameBytes(f), 1)
  {
    BehindSegments(segments, Fill(n), FrameBytes(f));
    FillBytes(n, FrameBytes(f));
    FrameAtTheStart(f);
  }

  lemma FrameAtTheStart(f: Frame)
    requires IsSof(f.code)
    ensures Walk(FrameBytes(f), 0) == Some(Dimensions(Word(f.widthHi, f.widthLo), Word(f.heightHi, f.heightLo)))
  {
  }

  /** Nothing is found where no marker begins. */
  lemma {:induction false} NoMarkerNoSize(b: seq<Byte>, i: nat)
    requires forall j :: i <= j < |b| ==> b[j] != 0xFF
    ensures Walk(b, i) == None
    decreases |b| - i
  {
    if i + 9 < |b| {
      NoMarkerNoSize(b, i + 1);
    }
  }

  /** So an odd number of fill bytes hides every frame with no 0xFF after its
      code, whatever it says and whatever segments stand before it. */
  lemma OddFillHidesTheFrame(segments: seq<Segment>, n: nat, f: Frame)
    requires AllWellFormed(segments) && IsSof(f.code) && n % 2 == 1
    requires 0xFF !in FrameBytes(f)[2..]
    ensures Walk([0xFF, 0xD8] + Serialize(segments) + Fill(n) + FrameBytes(f), 2) == None
  {
    FrameBehindFill(segments, n, f);
    var b := FrameBytes(f);
    assert forall j :: 2 <= j < |b| ==> b[j] == b[2..][j - 2];
    NoMarkerNoSize(b, 1);
  }

  lemma BehindSegments(segments: seq<Segment>, fill: seq<Byte>, rest: seq<Byte>)
    requires AllWellFormed(segments) && |rest| >= 10
    ensures Walk([0xFF, 0xD8] + Serialize(segments) + fill + rest, 2) == Walk(fill + rest, 0)
  {
    var body := Serialize(segments) + (fill + rest);
    assert [0xFF, 0xD8] + Serialize(segments) + fill + rest == [0xFF, 0xD8] + body;
    WalkShifts([0xFF, 0xD8], body, 0);
    SegmentsAreSkipped(segments, fill + rest);
  }

  /** So a frame header behind one fill byte is missed: here nothing is found at
      all, while the same stream without it, or with two, is read. */
  lemma AnOddFillByteHidesTheFrame()
    ensures var f := Frame(0xC0, 0, 17, 8, 1, 2, 3, 4, 3, []);
      && Walk([0xFF, 0xD8] + Fill(1) + FrameBytes(f), 2) == None
      && Walk([0xFF, 0xD8] + Fill(0) + FrameBytes(f), 2) == Some(Dimensions(0x304, 0x102))
      && Walk([0xFF, 0xD8] + Fill(2) + FrameBytes(f), 2) == Some(Dimensions(0x304, 0x102))
  {
    var f := Frame(0xC0, 0, 17, 8, 1, 2, 3, 4, 3, []);
    forall n: nat | n < 3
      ensures [0xFF, 0xD8] + Serialize([]) + Fill(n) + FrameBytes(f) == [0xFF, 0xD8] + Fill(n) + FrameBytes(f)
    {
      assert [0xFF, 0xD8] + Serialize([]) == [0xFF, 0xD8];
    }
    FrameBehindFill([], 0, f);
    FrameBehindFill([], 1, f);
    FrameBehindFill([], 2, f);
  }
}
