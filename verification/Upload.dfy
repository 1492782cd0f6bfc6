/** `upload.ts`: whether the bytes of an upload may be stored. */
module Upload {
  import opened Text

  type Byte = b: int | 0 <= b < 256

  const MAX_UPLOAD_BYTES: nat := 5 * 1024 * 1024
  const MAX_DIMENSION: nat := 4096

  datatype Format = Jpeg | Png | Webp

  datatype Rejection = Empty | TooLarge | UnknownFormat | SvgRejected | Polyglot | DimensionsTooLarge

  datatype Verdict = Accepted(format: Format) | Rejected(reason: Rejection)

  datatype Size = Size(width: nat, height: nat)

  // ---------------------------------------------------------------------------------------
  // Reading bytes as text.

  function CharOf(b: Byte): char {
    b as char
  }

  function Ascii(bytes: seq<Byte>): string {
    seq(|bytes|, i requires 0 <= i < |bytes| => CharOf(bytes[i]))
  }

  method DecodeAscii(bytes: seq<Byte>) returns (out: string)
    ensures out == Ascii(bytes)
  {
    out := "";
    for i := 0 to |bytes|
      invariant out == Ascii(bytes[..i])
    {
      assert bytes[..i + 1] == bytes[..i] + [bytes[i]];
      out := out + [CharOf(bytes[i])];
    }
    assert bytes[..|bytes|] == bytes;
  }

  /** `toLowerCase` on a character of Latin-1. */
  function LowerLatin1Char(c: char): char {
    if 'A' <= c <= 'Z' || ('\U{C0}' <= c <= '\U{DE}' && c != '\U{D7}') then (c as int + 32) as char else c
  }

  function LowerLatin1(s: string): string
    requires forall i | 0 <= i < |s| :: s[i] < '\U{100}'
  {
    seq(|s|, i requires 0 <= i < |s| => LowerLatin1Char(s[i]))
  }

  method Contains(text: string, part: string) returns (found: bool)
    ensures found <==> Includes(text, part)
  {
    var i := 0;
    while i + |part| <= |text|
      invariant forall j | 0 <= j < i :: !At(text, part, j)
      decreases |text| - i
    {
      if text[i..i + |part|] == part {
        assert At(text, part, i);
        return true;
      }
      i := i + 1;
    }
    return false;
  }

  // ---------------------------------------------------------------------------------------
  // Sniffing.

  predicate HasMagic(bytes: seq<Byte>, magic: seq<Byte>) {
    |magic| <= |bytes| && bytes[..|magic|] == magic
  }

  const JPEG_MAGIC: seq<Byte> := [0xff, 0xd8, 0xff]
  const PNG_MAGIC: seq<Byte> := [0x89, 0x50, 0x4e, 0x47, 0x0d, 0x0a, 0x1a, 0x0a]
  const RIFF_MAGIC: seq<Byte> := [0x52, 0x49, 0x46, 0x46]
  const WEBP_MAGIC: seq<Byte> := [0x57, 0x45, 0x42, 0x50]

  function Sniff(bytes: seq<Byte>): Option<Format> {
    if HasMagic(bytes, JPEG_MAGIC) then Some(Jpeg)
    else if HasMagic(bytes, PNG_MAGIC) then Some(Png)
    else if HasMagic(bytes, RIFF_MAGIC) && |bytes| >= 12 && bytes[8..12] == WEBP_MAGIC then Some(Webp)
    else None
  }

  // ---------------------------------------------------------------------------------------
  // Dimensions.

  function Uint16(bytes: seq<Byte>, at: nat): nat
    requires at + 2 <= |bytes|
  {
    (bytes[at] as int) * 256 + bytes[at + 1]
  }

  function Uint32(bytes: seq<Byte>, at: nat): nat
    requires at + 4 <= |bytes|
  {
    Uint16(bytes, at) * 65536 + Uint16(bytes, at + 2)
  }

  /** SOF0 to SOF3 and SOF5 to SOF7. */
  predicate IsFrameMarker(marker: Byte) {
    0xc0 <= marker <= 0xc7 && marker != 0xc4
  }

  /** The walk over the segments of a JPEG, from `offset` on. */
  function Walk(bytes: seq<Byte>, offset: nat): Option<Size>
    decreases |bytes| - offset
  {
    if offset + 9 >= |bytes| then None
    else if bytes[offset] != 0xff then Walk(bytes, offset + 1)
    else if IsFrameMarker(bytes[offset + 1]) then Some(Size(Uint16(bytes, offset + 7), Uint16(bytes, offset + 5)))
    else if Uint16(bytes, offset + 2) == 0 then None
    else Walk(bytes, offset + 2 + Uint16(bytes, offset + 2))
  }

  function DimensionsOf(bytes: seq<Byte>, format: Format): Option<Size> {
    if format == Png && |bytes| >= 24 then Some(Size(Uint32(bytes, 16), Uint32(bytes, 20)))
    else if format == Jpeg then Walk(bytes, 2)
    else None
  }

  /** Every read is in bounds and the walk ends, on any bytes whatsoever. */
  method ReadDimensions(bytes: seq<Byte>, format: Format) returns (size: Option<Size>)
    ensures size == DimensionsOf(bytes, format)
  {
    if format == Png && |bytes| >= 24 {
      return Some(Size(Uint32(bytes, 16), Uint32(bytes, 20)));
    }
    if format == Jpeg {
      var offset := 2;
      while offset + 9 < |bytes|
        invariant 2 <= offset
        invariant Walk(bytes, 2) == Walk(bytes, offset)
        decreases |bytes| - offset
      {
        if bytes[offset] != 0xff {
          offset := offset + 1;
          continue;
        }
        var marker := bytes[offset + 1];
        if marker >= 0xc0 && marker <= 0xc7 && marker != 0xc4 {
          return Some(Size(Uint16(bytes, offset + 7), Uint16(bytes, offset + 5)));
        }
        var length := Uint16(bytes, offset + 2);
        if length <= 0 {
          break;
        }
        offset := offset + 2 + length;
      }
    }
    return None;
  }

  /** A segment of a JPEG stream that carries a length (section B.1.1.4 of ITU-T T.81): a marker other
      than a frame header's, and at most 65533 bytes of parameters after the two that count them. */
  datatype Segment = Segment(marker: Byte, parameters: seq<Byte>)

  predicate IsSegment(s: Segment) {
    !IsFrameMarker(s.marker) && |s.parameters| <= 65533
  }

  function SegmentBytes(s: Segment): seq<Byte>
    requires IsSegment(s)
  {
    var length := |s.parameters| + 2;
    [0xff, s.marker, length / 256, length % 256] + s.parameters
  }

  predicate AreSegments(segments: seq<Segment>) {
    forall i | 0 <= i < |segments| :: IsSegment(segments[i])
  }

  function StreamBytes(segments: seq<Segment>): seq<Byte>
    requires AreSegments(segments)
  {
    if segments == [] then [] else SegmentBytes(segments[0]) + StreamBytes(segments[1..])
  }

  /** A frame header (section B.2.2 of ITU-T T.81): marker, length, precision, lines, samples per line,
      and then the components. */
  datatype Frame = Frame(marker: Byte, length: nat, precision: Byte, height: nat, width: nat, components: seq<Byte>)

  predicate IsFrame(f: Frame) {
    IsFrameMarker(f.marker) && f.length < 65536 && f.height < 65536 && f.width < 65536 && f.components != []
  }

  function FrameBytes(f: Frame): seq<Byte>
    requires IsFrame(f)
  {
    [0xff, f.marker, f.length / 256, f.length % 256, f.precision,
     f.height / 256, f.height % 256, f.width / 256, f.width % 256] + f.components
  }

  lemma SegmentIs(s: Segment)
    requires IsSegment(s)
    ensures var b := SegmentBytes(s);
            |b| >= 4 && b[0] == 0xff && b[1] == s.marker && Uint16(b, 2) == |b| - 2
  {
  }

  lemma SegmentIsSkipped(before: seq<Byte>, s: Segment, rest: seq<Byte>)
    requires IsSegment(s) && |rest| >= 10
    ensures Walk(before + SegmentBytes(s) + rest, |before|)
         == Walk(before + SegmentBytes(s) + rest, |before + SegmentBytes(s)|)
  {
    hide SegmentBytes, Walk, IsFrameMarker;
    var b := SegmentBytes(s);
    SegmentIs(s);
    var bytes, at := before + b + rest, |before|;
    assert bytes[at] == b[0] && bytes[at + 1] == b[1] && bytes[at + 2] == b[2] && bytes[at + 3] == b[3];
    assert Uint16(bytes, at + 2) == Uint16(b, 2);
    WalkUnfolds(bytes, at);
  }

  lemma WalkUnfolds(bytes: seq<Byte>, at: nat)
    requires at + 9 < |bytes| && bytes[at] == 0xff && !IsFrameMarker(bytes[at + 1]) && Uint16(bytes, at + 2) != 0
    ensures Walk(bytes, at) == Walk(bytes, at + 2 + Uint16(bytes, at + 2))
  {
    hide IsFrameMarker;
  }

  /** The walk passes over segments to whatever follows them. */
  lemma {:induction false} SegmentsAreSkipped(before: seq<Byte>, segments: seq<Segment>, tail: seq<Byte>)
    requires AreSegments(segments) && |tail| >= 10
    ensures var bytes := before + StreamBytes(segments) + tail;
            Walk(bytes, |before|) == Walk(bytes, |before + StreamBytes(segments)|)
    decreases |segments|
  {
    hide Walk, IsSegment;
    if segments != [] {
      var s, later := SegmentBytes(segments[0]), StreamBytes(segments[1..]);
      SegmentIsSkipped(before, segments[0], later + tail);
      SegmentsAreSkipped(before + s, segments[1..], tail);
      assert before + StreamBytes(segments) + tail == before + s + (later + tail) == (before + s) + later + tail;
      assert |before + StreamBytes(segments)| == |(before + s) + later|;
    }
  }

  lemma FrameIsRead(before: seq<Byte>, frame: Frame, rest: seq<Byte>)
    requires IsFrame(frame)
    ensures Walk(before + FrameBytes(frame) + rest, |before|) == Some(Size(frame.width, frame.height))
  {
    var bytes, f := before + FrameBytes(frame) + rest, FrameBytes(frame);
    assert forall k | 0 <= k < |f| :: bytes[|before| + k] == f[k];
  }

  /** A whole stream: the start marker, segments, fill bytes, a frame header and anything after it. */
  function Stream(segments: seq<Segment>, fill: nat, frame: Frame, rest: seq<Byte>): seq<Byte>
    requires AreSegments(segments) && IsFrame(frame)
  {
    [0xff, 0xd8] + StreamBytes(segments) + (Fill(fill) + FrameBytes(frame) + rest)
  }

  function Fill(n: nat): (bytes: seq<Byte>) {
    seq(n, i => 0xff)
  }

  /** For a start marker, any segments, a frame header and anything after it, the walk returns exactly
      the width and height of that header. */
  lemma FrameHeaderIsFound(segments: seq<Segment>, frame: Frame, rest: seq<Byte>)
    requires AreSegments(segments) && IsFrame(frame)
    ensures DimensionsOf(Stream(segments, 0, frame, rest), Jpeg) == Some(Size(frame.width, frame.height))
  {
    hide Walk, IsSegment, FrameBytes, IsFrame;
    var before := [0xff, 0xd8] + StreamBytes(segments);
    var tail := Fill(0) + FrameBytes(frame) + rest;
    FrameIsLong(frame);
    SegmentsAreSkipped([0xff, 0xd8], segments, tail);
    FrameIsRead(before, frame, rest);
    assert before + tail == before + FrameBytes(frame) + rest;
  }

  lemma FrameIsLong(frame: Frame)
    requires IsFrame(frame)
    ensures |FrameBytes(frame)| >= 10 && FrameBytes(frame)[0] == 0xff && IsFrameMarker(FrameBytes(frame)[1])
  {
  }

  /** The walk takes a run of four 0xff for a segment of 65535 bytes. */
  const FILL_JUMP := 65537

  /** Where the walk gets to from fill bytes that start at `at`. */
  function Landing(bytes: seq<Byte>, at: nat, fill: nat): nat
    requires at + fill + 10 <= |bytes|
    decreases fill
  {
    if fill == 0 then at
    else if fill >= FILL_JUMP then Landing(bytes, at + FILL_JUMP, fill - FILL_JUMP)
    else at + 2 + Uint16(bytes, at + 2)
  }

  /** Fill bytes up to a frame header that starts at `start`. */
  predicate IsFilled(bytes: seq<Byte>, at: nat, start: nat) {
    && at <= start
    && start + 10 <= |bytes|
    && (forall k | at <= k <= start :: bytes[k] == 0xff)
    && IsFrameMarker(bytes[start + 1])
  }

  /** The walk gets past the fill bytes: onto the header if they are a multiple of a jump, else beyond
      its start, and almost always beyond its size. */
  lemma {:induction false} FillIsJumped(bytes: seq<Byte>, at: nat, start: nat)
    requires IsFilled(bytes, at, start)
    ensures var fill := start - at;
            && Walk(bytes, at) == Walk(bytes, Landing(bytes, at, fill))
            && (fill % FILL_JUMP == 0 ==> Landing(bytes, at, fill) == start)
            && (fill % FILL_JUMP != 0 ==> Landing(bytes, at, fill) > start)
            && (1 <= fill % FILL_JUMP <= FILL_JUMP - 9 ==> Landing(bytes, at, fill) >= start + 9)
    decreases start - at
  {
    hide Walk;
    if at < start {
      FillIsASegment(bytes, at, start);
      if start - at >= FILL_JUMP {
        FillIsJumped(bytes, at + FILL_JUMP, start);
        assert (start - at - FILL_JUMP) % FILL_JUMP == (start - at) % FILL_JUMP;
      }
    }
  }

  lemma FillIsASegment(bytes: seq<Byte>, at: nat, start: nat)
    requires IsFilled(bytes, at, start) && at < start
    ensures Walk(bytes, at) == Walk(bytes, at + 2 + Uint16(bytes, at + 2))
    ensures Uint16(bytes, at + 2) >= 0xc000 && (start - at >= 3 ==> Uint16(bytes, at + 2) == 0xffff)
  {
    hide Walk;
    assert bytes[at] == 0xff && bytes[at + 1] == 0xff;
    WalkUnfolds(bytes, at);
  }

  /** Where two streams agree on all that follows, so do their walks. */
  lemma {:induction false} SameEndSameWalk(a: seq<Byte>, b: seq<Byte>, at: nat)
    requires |a| == |b| && forall k | at <= k < |a| :: a[k] == b[k]
    ensures Walk(a, at) == Walk(b, at)
    decreases |a| - at
  {
    if at + 9 < |a| {
      if a[at] != 0xff {
        SameEndSameWalk(a, b, at + 1);
      } else if !IsFrameMarker(a[at + 1]) && Uint16(a, at + 2) != 0 {
        SameEndSameWalk(a, b, at + 2 + Uint16(a, at + 2));
      }
    }
  }

  /** The bytes of a filled stream but those of the header's size, which are at `start + 5` and on. */
  predicate DifferInSize(a: seq<Byte>, b: seq<Byte>, start: nat) {
    |a| == |b| && forall k | 0 <= k < |a| && !(start + 5 <= k < start + 9) :: a[k] == b[k]
  }

  lemma {:induction false} SameLanding(a: seq<Byte>, b: seq<Byte>, at: nat, start: nat)
    requires IsFilled(a, at, start) && DifferInSize(a, b, start)
    ensures IsFilled(b, at, start) && Landing(a, at, start - at) == Landing(b, at, start - at)
    decreases start - at
  {
    if start - at >= FILL_JUMP {
      SameLanding(a, b, at + FILL_JUMP, start);
    } else if at < start {
      assert Uint16(a, at + 2) == Uint16(b, at + 2);
    }
  }

  /** Two sizes that no walk from behind a header's start returns both: 257 by 257 and 258 by 257. */
  lemma {:induction false} NeverBothSizes(a: seq<Byte>, b: seq<Byte>, start: nat, at: nat)
    requires start + 10 <= |a| && DifferInSize(a, b, start) && at > start && IsFrameMarker(a[start + 1])
    requires a[start + 5] == 1 && a[start + 6] == 1 && a[start + 7] == 1 && a[start + 8] == 1
    requires b[start + 5] == 1 && b[start + 6] == 1 && b[start + 7] == 1 && b[start + 8] == 2
    ensures !(Walk(a, at) == Some(Size(257, 257)) && Walk(b, at) == Some(Size(258, 257)))
    decreases |a| - at
  {
    hide Walk;
    if at >= start + 9 {
      SameEndSameWalk(a, b, at);
    } else if at + 9 < |a| {
      if a[at] != 0xff || b[at] != 0xff {
        WalkSteps(a, at);
        WalkSteps(b, at);
        NeverBothSizes(a, b, start, at + 1);
      } else if IsFrameMarker(a[at + 1]) {
        WalkReads(b, at);
      } else {
        assert Uint16(a, at + 2) == Uint16(b, at + 2) && Uint16(a, at + 2) != 0;
        WalkUnfolds(a, at);
        WalkUnfolds(b, at);
        NeverBothSizes(a, b, start, at + 2 + Uint16(a, at + 2));
      }
    } else {
      WalkEnds(a, at);
    }
  }

  lemma WalkEnds(bytes: seq<Byte>, at: nat)
    requires at + 9 >= |bytes|
    ensures Walk(bytes, at) == None
  {
  }

  lemma WalkSteps(bytes: seq<Byte>, at: nat)
    requires at + 9 < |bytes| && bytes[at] != 0xff
    ensures Walk(bytes, at) == Walk(bytes, at + 1)
  {
  }

  lemma WalkReads(bytes: seq<Byte>, at: nat)
    requires at + 9 < |bytes| && bytes[at] == 0xff && IsFrameMarker(bytes[at + 1])
    ensures Walk(bytes, at) == Some(Size(Uint16(bytes, at + 7), Uint16(bytes, at + 5)))
  {
  }

  function Sized(frame: Frame, width: nat, height: nat): Frame {
    frame.(width := width, height := height)
  }

  lemma FilledTail(bytes: seq<Byte>, before: seq<Byte>, fill: nat, header: seq<Byte>, rest: seq<Byte>)
    requires bytes == before + (Fill(fill) + header + rest)
    ensures var start := |before| + fill;
            && |bytes| == start + |header| + |rest|
            && (forall k | |before| <= k < start :: bytes[k] == 0xff)
            && (forall k | 0 <= k < |header| :: bytes[start + k] == header[k])
  {
    var start := |before| + fill;
    assert bytes == before + Fill(fill) + header + rest;
    forall k | |before| <= k < start
      ensures bytes[k] == 0xff
    {
      assert bytes[k] == Fill(fill)[k - |before|];
    }
  }

  /** Where the header of a stream starts, and what lies between the segments and it. */
  lemma StreamIsFilled(segments: seq<Segment>, fill: nat, frame: Frame, rest: seq<Byte>)
    requires AreSegments(segments) && IsFrame(frame)
    ensures var bytes, at := Stream(segments, fill, frame, rest), 2 + |StreamBytes(segments)|;
            && |bytes| == at + fill + |FrameBytes(frame)| + |rest|
            && IsFilled(bytes, at, at + fill)
            && forall k | 0 <= k < |FrameBytes(frame)| :: bytes[at + fill + k] == FrameBytes(frame)[k]
  {
    FrameIsLong(frame);
    hide Walk, Stream, DimensionsOf, StreamBytes, IsSegment, IsFrameMarker, AreSegments, Fill, FrameBytes, IsFilled;
    var before, header := [0xff, 0xd8] + StreamBytes(segments), FrameBytes(frame);
    StreamIs(segments, fill, frame, rest);
    FilledBefore(Stream(segments, fill, frame, rest), before, fill, header, rest);
  }

  lemma FilledBefore(bytes: seq<Byte>, before: seq<Byte>, fill: nat, header: seq<Byte>, rest: seq<Byte>)
    requires bytes == before + (Fill(fill) + header + rest)
    requires |header| >= 10 && header[0] == 0xff && IsFrameMarker(header[1])
    ensures |bytes| == |before| + fill + |header| + |rest|
    ensures IsFilled(bytes, |before|, |before| + fill)
    ensures forall k | 0 <= k < |header| :: bytes[|before| + fill + k] == header[k]
  {
    FilledTail(bytes, before, fill, header, rest);
    hide Fill, IsFilled, IsFrameMarker;
    FilledUpTo(bytes, |before|, |before| + fill, header);
  }

  /** The walk over a stream gets past its segments. */
  lemma StreamIsWalked(segments: seq<Segment>, fill: nat, frame: Frame, rest: seq<Byte>)
    requires AreSegments(segments) && IsFrame(frame)
    ensures var bytes := Stream(segments, fill, frame, rest);
            DimensionsOf(bytes, Jpeg) == Walk(bytes, 2 + |StreamBytes(segments)|)
  {
    FrameIsLong(frame);
    hide Walk, Stream, DimensionsOf, StreamBytes, IsSegment, IsFrameMarker, AreSegments, Fill, FrameBytes;
    StreamIs(segments, fill, frame, rest);
    SegmentsAreSkipped([0xff, 0xd8], segments, Fill(fill) + FrameBytes(frame) + rest);
  }

  lemma StreamIs(segments: seq<Segment>, fill: nat, frame: Frame, rest: seq<Byte>)
    requires AreSegments(segments) && IsFrame(frame)
    ensures var bytes := Stream(segments, fill, frame, rest);
            && bytes == [0xff, 0xd8] + StreamBytes(segments) + (Fill(fill) + FrameBytes(frame) + rest)
            && DimensionsOf(bytes, Jpeg) == Walk(bytes, 2)
  {
    hide Walk, StreamBytes, IsSegment, AreSegments, Fill, FrameBytes;
  }

  lemma FilledUpTo(bytes: seq<Byte>, at: nat, start: nat, header: seq<Byte>)
    requires at <= start && start + |header| <= |bytes| && |header| >= 10
    requires forall k | at <= k < start :: bytes[k] == 0xff
    requires forall k | 0 <= k < |header| :: bytes[start + k] == header[k]
    requires header[0] == 0xff && IsFrameMarker(header[1])
    ensures IsFilled(bytes, at, start)
  {
    hide IsFrameMarker;
    assert bytes[start + 0] == header[0] && bytes[start + 1] == header[1];
  }

  lemma SizeBytes(bytes: seq<Byte>, start: nat, frame: Frame)
    requires IsFrame(frame) && start + |FrameBytes(frame)| <= |bytes|
    requires forall k | 0 <= k < |FrameBytes(frame)| :: bytes[start + k] == FrameBytes(frame)[k]
    ensures bytes[start + 5] == frame.height / 256 && bytes[start + 6] == frame.height % 256
    ensures bytes[start + 7] == frame.width / 256 && bytes[start + 8] == frame.width % 256
  {
    var f := FrameBytes(frame);
    assert bytes[start + 5] == f[5] && bytes[start + 6] == f[6] && bytes[start + 7] == f[7] && bytes[start + 8] == f[8];
  }

  lemma SizesDiffer(segments: seq<Segment>, fill: nat, f: Frame, g: Frame, rest: seq<Byte>)
    requires AreSegments(segments) && IsFrame(f) && IsFrame(g) && g == Sized(f, g.width, g.height)
    ensures DifferInSize(Stream(segments, fill, f, rest), Stream(segments, fill, g, rest),
                         2 + |StreamBytes(segments)| + fill)
  {
    hide StreamBytes, IsSegment, IsFrameMarker, AreSegments;
    var before := [0xff, 0xd8] + StreamBytes(segments) + Fill(fill);
    assert Stream(segments, fill, f, rest) == before + FrameBytes(f) + rest;
    assert Stream(segments, fill, g, rest) == before + FrameBytes(g) + rest;
  }

  /** T.81 also allows fill bytes 0xff before a marker (section B.1.1.2). Whatever the segments, the rest
      of the header and what follows it: the walk returns the header's size, whichever it is, if and only
      if the fill bytes are a multiple of 65537. */
  lemma SizeIsFoundIffFillIsJumped(segments: seq<Segment>, fill: nat, frame: Frame, rest: seq<Byte>)
    requires AreSegments(segments) && IsFrame(frame)
    ensures (forall width, height | 0 <= width < 65536 && 0 <= height < 65536 ::
               DimensionsOf(Stream(segments, fill, Sized(frame, width, height), rest), Jpeg)
               == Some(Size(width, height)))
            <==> fill % FILL_JUMP == 0
  {
    hide Walk, Stream, IsSegment, StreamBytes, AreSegments, DimensionsOf, Landing, IsFilled;
    if fill % FILL_JUMP == 0 {
      forall width, height | 0 <= width < 65536 && 0 <= height < 65536
        ensures DimensionsOf(Stream(segments, fill, Sized(frame, width, height), rest), Jpeg)
                == Some(Size(width, height))
      {
        JumpedHeaderIsRead(segments, fill, Sized(frame, width, height), rest);
      }
    } else {
      var f, g := Sized(frame, 257, 257), Sized(frame, 258, 257);
      OneSizeIsMissed(segments, fill, f, g, rest);
    }
  }

  lemma JumpedHeaderIsRead(segments: seq<Segment>, fill: nat, frame: Frame, rest: seq<Byte>)
    requires AreSegments(segments) && IsFrame(frame) && fill % FILL_JUMP == 0
    ensures DimensionsOf(Stream(segments, fill, frame, rest), Jpeg) == Some(Size(frame.width, frame.height))
  {
    hide Walk, Stream, IsSegment, StreamBytes, AreSegments, DimensionsOf, Landing;
    var bytes, at := Stream(segments, fill, frame, rest), 2 + |StreamBytes(segments)|;
    StreamIsFilled(segments, fill, frame, rest);
    StreamIsWalked(segments, fill, frame, rest);
    FillIsJumped(bytes, at, at + fill);
    WalkReads(bytes, at + fill);
    SizeBytes(bytes, at + fill, frame);
  }

  lemma OneSizeIsMissed(segments: seq<Segment>, fill: nat, f: Frame, g: Frame, rest: seq<Byte>)
    requires AreSegments(segments) && IsFrame(f) && fill % FILL_JUMP != 0
    requires f == Sized(f, 257, 257) && g == Sized(f, 258, 257)
    ensures !(DimensionsOf(Stream(segments, fill, f, rest), Jpeg) == Some(Size(257, 257))
              && DimensionsOf(Stream(segments, fill, g, rest), Jpeg) == Some(Size(258, 257)))
  {
    hide Walk, Stream, IsSegment, StreamBytes, AreSegments, DimensionsOf, Landing, DifferInSize, IsFrameMarker;
    var a, b, at := Stream(segments, fill, f, rest), Stream(segments, fill, g, rest), 2 + |StreamBytes(segments)|;
    StreamIsFilled(segments, fill, f, rest);
    StreamIsFilled(segments, fill, g, rest);
    StreamIsWalked(segments, fill, f, rest);
    StreamIsWalked(segments, fill, g, rest);
    SizesDiffer(segments, fill, f, g, rest);
    FillIsJumped(a, at, at + fill);
    FillIsJumped(b, at, at + fill);
    SameLanding(a, b, at, at + fill);
    SizeBytes(a, at + fill, f);
    SizeBytes(b, at + fill, g);
    NeverBothSizes(a, b, at + fill, Landing(a, at, fill));
  }

  /** Otherwise, all but eight in 65537 times, the header's size does not even matter. */
  lemma FilledSizeIsIgnored(segments: seq<Segment>, fill: nat, f: Frame, g: Frame, rest: seq<Byte>)
    requires AreSegments(segments) && IsFrame(f) && IsFrame(g) && g == Sized(f, g.width, g.height)
    requires 1 <= fill % FILL_JUMP <= FILL_JUMP - 9
    ensures DimensionsOf(Stream(segments, fill, f, rest), Jpeg) == DimensionsOf(Stream(segments, fill, g, rest), Jpeg)
  {
    hide Walk, Stream, IsSegment, StreamBytes, AreSegments, DimensionsOf, Landing, IsFrameMarker;
    var a, b, at := Stream(segments, fill, f, rest), Stream(segments, fill, g, rest), 2 + |StreamBytes(segments)|;
    StreamIsFilled(segments, fill, f, rest);
    StreamIsFilled(segments, fill, g, rest);
    StreamIsWalked(segments, fill, f, rest);
    StreamIsWalked(segments, fill, g, rest);
    SizesDiffer(segments, fill, f, g, rest);
    FillIsJumped(a, at, at + fill);
    FillIsJumped(b, at, at + fill);
    SameLanding(a, b, at, at + fill);
    SameEndSameWalk(a, b, Landing(a, at, fill));
  }

  /** In a single stream: the header is found behind a multiple of 65537 fill bytes; and what is found
      behind any other number of them, if it should be the same size, lies more than 48 KB further on. */
  lemma FrameIsFoundIffNoFill(segments: seq<Segment>, fill: nat, frame: Frame, rest: seq<Byte>)
    requires AreSegments(segments) && IsFrame(frame)
    ensures var size := DimensionsOf(Stream(segments, fill, frame, rest), Jpeg);
            var found := size == Some(Size(frame.width, frame.height));
            && (fill % FILL_JUMP == 0 ==> found)
            && (fill + |FrameBytes(frame)| + |rest| <= 0xc000 ==> (found <==> fill == 0))
  {
    hide Walk, Stream, IsSegment, StreamBytes, AreSegments, DimensionsOf, FrameBytes, IsFrameMarker;
    if fill % FILL_JUMP == 0 {
      JumpedHeaderIsRead(segments, fill, frame, rest);
    } else if fill + |FrameBytes(frame)| + |rest| <= 0xc000 {
      var bytes, at := Stream(segments, fill, frame, rest), 2 + |StreamBytes(segments)|;
      StreamIsFilled(segments, fill, frame, rest);
      StreamIsWalked(segments, fill, frame, rest);
      FillIsASegment(bytes, at, at + fill);
      WalkEnds(bytes, at + 2 + Uint16(bytes, at + 2));
    }
  }

  // ---------------------------------------------------------------------------------------
  // The whole check.

  const MARKERS: seq<string> := ["<?xml", "<svg", "<!doctype html", "<html", "<script", "<?php"]

  ghost predicate HasMarker(bytes: seq<Byte>) {
    exists k | 0 <= k < |MARKERS| :: Includes(LowerLatin1(Ascii(bytes)), MARKERS[k])
  }

  method ContainsDocumentMarker(bytes: seq<Byte>) returns (found: bool)
    ensures found <==> HasMarker(bytes)
  {
    hide Includes, LowerLatin1Char;
    var text := DecodeAscii(bytes);
    var lowered := LowerLatin1(text);
    for k := 0 to |MARKERS|
      invariant forall j | 0 <= j < k :: !Includes(lowered, MARKERS[j])
    {
      var here := Contains(lowered, MARKERS[k]);
      if here {
        return true;
      }
    }
    return false;
  }

  function Head(bytes: seq<Byte>): string {
    TrimStart(LowerLatin1(Ascii(if |bytes| <= 1024 then bytes else bytes[..1024])))
  }

  ghost predicate LooksLikeSvg(bytes: seq<Byte>) {
    StartsWith(Head(bytes), "<svg") || (StartsWith(Head(bytes), "<?xml") && Includes(Head(bytes), "<svg"))
  }

  predicate TooBig(size: Option<Size>) {
    size.Some? && (size.value.width > MAX_DIMENSION || size.value.height > MAX_DIMENSION)
  }

  /** Cheap checks first; SVG is told apart before the formats are. */
  ghost function VerdictOf(bytes: seq<Byte>): Verdict {
    if bytes == [] then Rejected(Empty)
    else if |bytes| > MAX_UPLOAD_BYTES then Rejected(TooLarge)
    else if LooksLikeSvg(bytes) then Rejected(SvgRejected)
    else
      match Sniff(bytes)
      case None => Rejected(UnknownFormat)
      case Some(format) =>
        if HasMarker(bytes) then Rejected(Polyglot)
        else if TooBig(DimensionsOf(bytes, format)) then Rejected(DimensionsTooLarge)
        else Accepted(format)
  }

  method ValidateUpload(bytes: seq<Byte>) returns (verdict: Verdict)
    ensures verdict.Accepted? <==>
            && 0 < |bytes| <= MAX_UPLOAD_BYTES
            && !LooksLikeSvg(bytes)
            && Sniff(bytes).Some?
            && !HasMarker(bytes)
            && !TooBig(DimensionsOf(bytes, Sniff(bytes).value))
    ensures verdict.Accepted? ==> Sniff(bytes) == Some(verdict.format)
    ensures verdict == VerdictOf(bytes)
    ensures verdict == Rejected(Empty) <==> bytes == []
    ensures verdict == Rejected(TooLarge) <==> |bytes| > MAX_UPLOAD_BYTES
    ensures verdict == Rejected(SvgRejected) <==> 0 < |bytes| <= MAX_UPLOAD_BYTES && LooksLikeSvg(bytes)
    ensures verdict == Rejected(UnknownFormat) <==>
            0 < |bytes| <= MAX_UPLOAD_BYTES && !LooksLikeSvg(bytes) && Sniff(bytes) == None
    ensures verdict == Rejected(Polyglot) <==>
            0 < |bytes| <= MAX_UPLOAD_BYTES && !LooksLikeSvg(bytes) && Sniff(bytes).Some? && HasMarker(bytes)
  {
    hide HasMarker, Head, Sniff, DimensionsOf, Includes;
    if |bytes| == 0 {
      return Rejected(Empty);
    }
    if |bytes| > MAX_UPLOAD_BYTES {
      return Rejected(TooLarge);
    }
    var head := Head(bytes);
    var svg := Contains(head, "<svg");
    if StartsWith(head, "<svg") || (StartsWith(head, "<?xml") && svg) {
      return Rejected(SvgRejected);
    }
    var format := Sniff(bytes);
    if format == None {
      return Rejected(UnknownFormat);
    }
    var marked := ContainsDocumentMarker(bytes);
    if marked {
      return Rejected(Polyglot);
    }
    var size := ReadDimensions(bytes, format.value);
    if TooBig(size) {
      return Rejected(DimensionsTooLarge);
    }
    return Accepted(format.value);
  }

  /** A document marker hides nowhere: in whatever case it is written, and whatever stands before and
      after it, the bytes have one. */
  lemma MarkerIsFoundAnywhere(before: seq<Byte>, written: seq<Byte>, after: seq<Byte>, k: nat)
    requires k < |MARKERS| && LowerLatin1(Ascii(written)) == MARKERS[k]
    ensures HasMarker(before + written + after)
  {
    hide LowerLatin1Char;
    var text := LowerLatin1(Ascii(before + written + after));
    var i := |before|;
    assert text[i..i + |written|] == LowerLatin1(Ascii(written));
    assert At(text, MARKERS[k], i);
  }

  /** Without fill bytes before it, a header's size counts as too big exactly when it says more than 4096
      either way. */
  lemma OversizedFrameIsTooBig(segments: seq<Segment>, frame: Frame, rest: seq<Byte>)
    requires AreSegments(segments) && IsFrame(frame)
    ensures TooBig(DimensionsOf(Stream(segments, 0, frame, rest), Jpeg))
            <==> frame.width > MAX_DIMENSION || frame.height > MAX_DIMENSION
  {
    FrameHeaderIsFound(segments, frame, rest);
  }

  /** A JPEG without fill bytes before its header, of a size that is looked at and without a document
      marker, is refused as too large exactly when its header says more than 4096 either way, and is
      accepted otherwise. */
  lemma OversizedFrameIsRefused(segments: seq<Segment>, frame: Frame, rest: seq<Byte>)
    requires AreSegments(segments) && IsFrame(frame)
    ensures var bytes := Stream(segments, 0, frame, rest);
            |bytes| <= 5_242_880 && !HasMarker(bytes) ==>
              VerdictOf(bytes) == if frame.width > 4096 || frame.height > 4096
                                  then Rejected(DimensionsTooLarge) else Accepted(Jpeg)
  {
    hide HasMarker, Head, Stream, Sniff, DimensionsOf;
    var bytes := Stream(segments, 0, frame, rest);
    OversizedFrameIsTooBig(segments, frame, rest);
    StreamIsJpeg(segments, frame, rest);
    JpegIsNoSvg(bytes);
  }

  lemma StreamIsJpeg(segments: seq<Segment>, frame: Frame, rest: seq<Byte>)
    requires AreSegments(segments) && IsFrame(frame)
    ensures var bytes := Stream(segments, 0, frame, rest);
            Sniff(bytes) == Some(Jpeg) && |bytes| >= 3 && bytes[0] == 0xff
  {
    hide StreamBytes, IsFrameMarker, AreSegments;
    StreamStarts(segments);
    var b, f := StreamBytes(segments), FrameBytes(frame);
    var bytes := Stream(segments, 0, frame, rest);
    assert bytes == [0xff, 0xd8] + b + (f + rest);
    assert bytes[2] == if b == [] then f[0] else b[0];
  }

  lemma StreamStarts(segments: seq<Segment>)
    requires AreSegments(segments)
    ensures StreamBytes(segments) != [] ==> StreamBytes(segments)[0] == 0xff
  {
  }

  lemma JpegIsNoSvg(bytes: seq<Byte>)
    requires bytes != [] && bytes[0] == 0xff
    ensures !LooksLikeSvg(bytes)
  {
    var start := if |bytes| <= 1024 then bytes else bytes[..1024];
    var lowered := LowerLatin1(Ascii(start));
    assert lowered[0] == '\U{FF}';
    assert Head(bytes) == lowered;
  }
}
