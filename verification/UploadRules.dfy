/** The rules of `validateUpload`, spelled out in bytes: the three signatures, the size that a PNG states, the
    markers of documents, and SVG. */
module UploadRules {
  import opened Text
  import opened Upload

  // ---------------------------------------------------------------------------------------
  // Signatures.

  /** The bytes of ASCII text. */
  function BytesOf(text: string): (bytes: seq<Byte>)
    requires forall i | 0 <= i < |text| :: text[i] < '\U{80}'
    ensures |bytes| == |text|
  {
    seq(|text|, i requires 0 <= i < |text| => text[i] as int)
  }

  function PngSignature(): seq<Byte> {
    [0x89] + BytesOf("PNG\r\n") + [0x1a] + BytesOf("\n")
  }

  /** What the bytes are: from their first bytes alone, and RIFF only as WebP. */
  lemma SniffIff(bytes: seq<Byte>)
    ensures Sniff(bytes) == Some(Jpeg) <==> [0xff, 0xd8, 0xff] <= bytes
    ensures Sniff(bytes) == Some(Png) <==> PngSignature() <= bytes
    ensures Sniff(bytes) == Some(Webp) <==>
            |bytes| >= 12 && bytes[..4] == BytesOf("RIFF") && bytes[8..12] == BytesOf("WEBP")
  {
    SignatureBytes();
    hide BytesOf;
    MagicIsPrefix(bytes, JPEG_MAGIC);
    MagicIsPrefix(bytes, PNG_MAGIC);
    MagicIsPrefix(bytes, RIFF_MAGIC);
    assert |bytes| >= 4 ==> (RIFF_MAGIC <= bytes <==> bytes[..4] == RIFF_MAGIC);
    if JPEG_MAGIC <= bytes {
      assert bytes[0] == JPEG_MAGIC[0];
    } else if PNG_MAGIC <= bytes {
      assert bytes[0] == PNG_MAGIC[0];
    }
    if |bytes| >= 4 && bytes[..4] == RIFF_MAGIC {
      assert bytes[0] == bytes[..4][0] == 0x52;
    }
  }

  lemma SignatureBytes()
    ensures PngSignature() == PNG_MAGIC && BytesOf("RIFF") == RIFF_MAGIC && BytesOf("WEBP") == WEBP_MAGIC
  {
  }

  lemma MagicIsPrefix(bytes: seq<Byte>, magic: seq<Byte>)
    ensures HasMagic(bytes, magic) <==> magic <= bytes
  {
  }

  // ---------------------------------------------------------------------------------------
  // Dimensions of the other formats.

  /** A number in four bytes, the highest first. */
  function BigEndian(n: nat): seq<Byte>
    requires n < 0x1_0000_0000
  {
    [n / 0x100_0000, n / 0x1_0000 % 0x100, n / 0x100 % 0x100, n % 0x100]
  }

  /** A PNG: its signature, the length and the name of its first chunk, and that chunk's width and height. */
  function PngBytes(length: seq<Byte>, width: nat, height: nat, rest: seq<Byte>): seq<Byte>
    requires |length| == 4 && width < 0x1_0000_0000 && height < 0x1_0000_0000
  {
    PngSignature() + length + BytesOf("IHDR") + BigEndian(width) + BigEndian(height) + rest
  }

  lemma BigEndianIsRead(bytes: seq<Byte>, at: nat, n: nat)
    requires n < 0x1_0000_0000 && at + 4 <= |bytes| && bytes[at..at + 4] == BigEndian(n)
    ensures Uint32(bytes, at) == n
  {
    var b := BigEndian(n);
    assert bytes[at] == bytes[at..at + 4][0] && bytes[at + 1] == bytes[at..at + 4][1];
    assert bytes[at + 2] == bytes[at..at + 4][2] && bytes[at + 3] == bytes[at..at + 4][3];
    assert n / 0x1_0000 == (n / 0x100_0000) * 0x100 + n / 0x1_0000 % 0x100;
    assert n / 0x100 == (n / 0x1_0000) * 0x100 + n / 0x100 % 0x100;
  }

  /** A PNG's width and height are the two numbers its first chunk states, and WebP states none. */
  lemma PngSizeIsRead(length: seq<Byte>, width: nat, height: nat, rest: seq<Byte>)
    requires |length| == 4 && width < 0x1_0000_0000 && height < 0x1_0000_0000
    ensures var bytes := PngBytes(length, width, height, rest);
            && Sniff(bytes) == Some(Png)
            && DimensionsOf(bytes, Png) == Some(Size(width, height))
            && DimensionsOf(bytes, Webp) == None
  {
    hide Uint32, BigEndian, Sniff;
    var bytes := PngBytes(length, width, height, rest);
    SignatureBytes();
    BigEndianIsLong(width);
    BigEndianIsLong(height);
    PngLayout(length, BytesOf("IHDR"), BigEndian(width), BigEndian(height), rest);
    BigEndianIsRead(bytes, 16, width);
    BigEndianIsRead(bytes, 20, height);
    SniffIff(bytes);
  }

  lemma BigEndianIsLong(n: nat)
    requires n < 0x1_0000_0000
    ensures |BigEndian(n)| == 4
  {
  }

  lemma PngLayout(length: seq<Byte>, name: seq<Byte>, width: seq<Byte>, height: seq<Byte>, rest: seq<Byte>)
    requires |length| == 4 && |name| == 4 && |width| == 4 && |height| == 4
    ensures var bytes := PNG_MAGIC + length + name + width + height + rest;
            |bytes| >= 24 && PNG_MAGIC <= bytes && bytes[16..20] == width && bytes[20..24] == height
  {
  }

  // ---------------------------------------------------------------------------------------
  // Text in any case.

  /** The bytes write the text, its letters in lower or in upper case. */
  predicate InAnyCase(bytes: seq<Byte>, text: string) {
    && |bytes| == |text|
    && forall i | 0 <= i < |text| ::
         || bytes[i] as int == text[i] as int
         || ('a' <= text[i] <= 'z' && bytes[i] as int == text[i] as int - 32)
  }

  predicate IsLowerAscii(text: string) {
    forall i | 0 <= i < |text| :: text[i] < '\U{80}' && !('A' <= text[i] <= 'Z')
  }

  lemma LowersToIff(bytes: seq<Byte>, text: string)
    requires IsLowerAscii(text)
    ensures LowerLatin1(Ascii(bytes)) == text <==> InAnyCase(bytes, text)
  {
    var lowered := LowerLatin1(Ascii(bytes));
    forall i | 0 <= i < |text| && i < |bytes|
      ensures lowered[i] == text[i] <==>
              (bytes[i] as int == text[i] as int || ('a' <= text[i] <= 'z' && bytes[i] as int == text[i] as int - 32))
    {
      LetterLowersTo(bytes[i], text[i]);
    }
    if InAnyCase(bytes, text) {
      assert lowered == text;
    }
  }

  lemma LetterLowersTo(b: Byte, c: char)
    requires c < '\U{80}' && !('A' <= c <= 'Z')
    ensures LowerLatin1Char(CharOf(b)) == c <==>
            (b as int == c as int || ('a' <= c <= 'z' && b as int == c as int - 32))
  {
  }

  lemma LowerOfSlice(bytes: seq<Byte>, i: nat, j: nat)
    requires i <= j <= |bytes|
    ensures LowerLatin1(Ascii(bytes))[i..j] == LowerLatin1(Ascii(bytes[i..j]))
  {
    hide LowerLatin1Char;
  }

  // ---------------------------------------------------------------------------------------
  // Markers.

  predicate IsMarker(text: string) {
    || text == "<?xml" || text == "<svg" || text == "<!doctype html"
    || text == "<html" || text == "<script" || text == "<?php"
  }

  predicate StandsAt(bytes: seq<Byte>, text: string, i: nat) {
    i + |text| <= |bytes| && InAnyCase(bytes[i..i + |text|], text)
  }

  lemma MarkersAre(text: string)
    ensures text in MARKERS <==> IsMarker(text)
    ensures IsMarker(text) ==> IsLowerAscii(text)
  {
    assert MARKERS[0] == "<?xml" && MARKERS[1] == "<svg" && MARKERS[2] == "<!doctype html";
    assert MARKERS[3] == "<html" && MARKERS[4] == "<script" && MARKERS[5] == "<?php";
  }

  /** The bytes are refused as a document if and only if one of the six markers stands somewhere in them, in
      whatever case. */
  lemma HasMarkerIff(bytes: seq<Byte>)
    ensures HasMarker(bytes) <==> exists text, i :: IsMarker(text) && StandsAt(bytes, text, i)
  {
    hide IsMarker, InAnyCase, LowerLatin1, IsLowerAscii;
    var lowered := LowerLatin1(Ascii(bytes));
    LoweredLength(bytes);
    if HasMarker(bytes) {
      var k :| 0 <= k < |MARKERS| && Includes(lowered, MARKERS[k]);
      var i :| At(lowered, MARKERS[k], i);
      MarkersAre(MARKERS[k]);
      StandsIff(bytes, MARKERS[k], i);
    }
    if exists text, i :: IsMarker(text) && StandsAt(bytes, text, i) {
      var text, i :| IsMarker(text) && StandsAt(bytes, text, i);
      MarkersAre(text);
      StandsIff(bytes, text, i);
      var k :| 0 <= k < |MARKERS| && MARKERS[k] == text;
      assert Includes(lowered, MARKERS[k]);
    }
  }

  lemma LoweredLength(bytes: seq<Byte>)
    ensures |LowerLatin1(Ascii(bytes))| == |bytes|
  {
  }

  lemma StandsIff(bytes: seq<Byte>, text: string, i: nat)
    requires IsLowerAscii(text)
    ensures At(LowerLatin1(Ascii(bytes)), text, i) <==> StandsAt(bytes, text, i)
  {
    hide InAnyCase, LowerLatin1, IsLowerAscii;
    LoweredLength(bytes);
    if i + |text| <= |bytes| {
      LowerOfSlice(bytes, i, i + |text|);
      LowersToIff(bytes[i..i + |text|], text);
    }
  }

  // ---------------------------------------------------------------------------------------
  // SVG, and size.

  predicate AreBlanks(bytes: seq<Byte>) {
    forall i | 0 <= i < |bytes| :: IsSpace(CharOf(bytes[i]))
  }

  lemma BlankLowers(b: Byte)
    requires IsSpace(CharOf(b))
    ensures IsSpace(LowerLatin1Char(CharOf(b)))
  {
  }

  lemma {:induction false} BlanksAreTrimmed(blanks: string, rest: string)
    requires forall i | 0 <= i < |blanks| :: IsSpace(blanks[i])
    requires rest != "" && !IsSpace(rest[0])
    ensures TrimStart(blanks + rest) == rest
  {
    hide IsSpace;
    if blanks == "" {
      assert blanks + rest == rest;
    } else {
      assert (blanks + rest)[0] == blanks[0] && (blanks + rest)[1..] == blanks[1..] + rest;
      BlanksAreTrimmed(blanks[1..], rest);
    }
  }

  /** The head of an upload that starts with blanks and some text. */
  lemma HeadIs(before: seq<Byte>, after: seq<Byte>)
    requires AreBlanks(before) && after != [] && CharOf(after[0]) == '<' && |before| < 1024
    ensures var n := if |before + after| <= 1024 then |after| else 1024 - |before|;
            Head(before + after) == LowerLatin1(Ascii(after[..n]))
  {
    hide IsSpace, LowerLatin1Char;
    var bytes := before + after;
    var n := if |bytes| <= 1024 then |after| else 1024 - |before|;
    var start := if |bytes| <= 1024 then bytes else bytes[..1024];
    assert start == before + after[..n];
    var blanks, rest := LowerLatin1(Ascii(before)), LowerLatin1(Ascii(after[..n]));
    assert LowerLatin1(Ascii(start)) == blanks + rest;
    forall i | 0 <= i < |blanks|
      ensures IsSpace(blanks[i])
    {
      BlankLowers(before[i]);
    }
    LessIsNoSpace();
    assert rest[0] == LowerLatin1Char(CharOf(after[0]));
    BlanksAreTrimmed(blanks, rest);
  }

  lemma LessIsNoSpace()
    ensures !IsSpace('<') && LowerLatin1Char('<') == '<'
  {
  }

  /** Bytes that start, blanks aside, with `<svg` in any case are refused as SVG. */
  lemma SvgIsRefused(before: seq<Byte>, written: seq<Byte>, rest: seq<Byte>)
    requires AreBlanks(before) && InAnyCase(written, "<svg") && |before| + 4 <= 1024
    requires |before + written + rest| <= 5_242_880
    ensures VerdictOf(before + written + rest) == Rejected(SvgRejected)
  {
    hide Head, LowerLatin1, Sniff, HasMarker, DimensionsOf;
    var after := written + rest;
    assert before + written + rest == before + after;
    assert written[0] == 60 && after[0] == 60;
    HeadIs(before, after);
    var n := if |before + after| <= 1024 then |after| else 1024 - |before|;
    LowerOfSlice(after[..n], 0, 4);
    assert after[..n][0..4] == written;
    LoweredLength(after[..n]);
    LowersToIff(written, "<svg");
  }

  /** And so are bytes that start with an XML declaration and have `<svg` within the first kilobyte. */
  lemma XmlSvgIsRefused(before: seq<Byte>, xml: seq<Byte>, between: seq<Byte>, svg: seq<Byte>, rest: seq<Byte>)
    requires AreBlanks(before) && InAnyCase(xml, "<?xml") && InAnyCase(svg, "<svg")
    requires |before + xml + between + svg| <= 1024
    requires |before + xml + between + svg + rest| <= 5_242_880
    ensures VerdictOf(before + xml + between + svg + rest) == Rejected(SvgRejected)
  {
    hide Head, LowerLatin1, Sniff, HasMarker, DimensionsOf;
    var after := xml + between + svg + rest;
    var bytes := before + xml + between + svg + rest;
    assert bytes == before + after;
    assert xml[0] == 60 && after[0] == 60;
    HeadIs(before, after);
    var n := if |bytes| <= 1024 then |after| else 1024 - |before|;
    var head := LowerLatin1(Ascii(after[..n]));
    LoweredLength(after[..n]);
    FirstAndThird(xml, between, svg, rest, n);
    LowerOfSlice(after[..n], 0, 5);
    LowersToIff(xml, "<?xml");
    var i := |xml| + |between|;
    LowerOfSlice(after[..n], i, i + 4);
    LowersToIff(svg, "<svg");
    assert At(head, "<svg", i);
  }

  lemma FirstAndThird(a: seq<Byte>, b: seq<Byte>, c: seq<Byte>, d: seq<Byte>, n: nat)
    requires |a| + |b| + |c| <= n <= |a + b + c + d|
    ensures (a + b + c + d)[..n][0..|a|] == a
    ensures (a + b + c + d)[..n][|a| + |b|..|a| + |b| + |c|] == c
  {
    var s := a + b + c + d;
    assert s[..n][0..|a|] == s[..|a|] == a;
    assert s[..n][|a| + |b|..|a| + |b| + |c|] == s[|a| + |b|..|a| + |b| + |c|] == c;
  }

  /** Nothing at all, and more than five megabytes, is refused before it is looked at. */
  lemma SizeRule(bytes: seq<Byte>)
    ensures VerdictOf(bytes) == Rejected(Empty) <==> bytes == []
    ensures VerdictOf(bytes) == Rejected(TooLarge) <==> |bytes| > 5_242_880
  {
    hide LooksLikeSvg, Sniff, HasMarker, DimensionsOf;
  }

  /** A PNG is refused for its size exactly when it states more than 4096 either way. */
  lemma OversizedPngIsRefused(length: seq<Byte>, width: nat, height: nat, rest: seq<Byte>)
    requires |length| == 4 && width < 0x1_0000_0000 && height < 0x1_0000_0000
    ensures var bytes := PngBytes(length, width, height, rest);
            |bytes| <= 5_242_880 && !HasMarker(bytes) ==>
              VerdictOf(bytes) ==
                if width > 4096 || height > 4096 then Rejected(DimensionsTooLarge) else Accepted(Png)
  {
    hide HasMarker, Head, Sniff, DimensionsOf, PngBytes;
    var bytes := PngBytes(length, width, height, rest);
    PngSizeIsRead(length, width, height, rest);
    PngIsNoSvg(bytes);
  }

  lemma PngIsNoSvg(bytes: seq<Byte>)
    requires Sniff(bytes) == Some(Png)
    ensures bytes != [] && !LooksLikeSvg(bytes)
  {
    hide Sniff, TrimStart, LowerLatin1;
    SniffIff(bytes);
    SignatureBytes();
    assert bytes[0] == PNG_MAGIC[0] == 0x89;
    var start := if |bytes| <= 1024 then bytes else bytes[..1024];
    FirstStays(start);
    if StartsWith(Head(bytes), "<svg") {
      FirstTells(Head(bytes), "<svg");
    } else if StartsWith(Head(bytes), "<?xml") {
      FirstTells(Head(bytes), "<?xml");
    }
  }

  lemma FirstTells(s: string, prefix: string)
    requires prefix != "" && StartsWith(s, prefix)
    ensures s[0] == prefix[0]
  {
    assert s[0] == s[..|prefix|][0];
  }

  lemma FirstStays(start: seq<Byte>)
    requires start != [] && start[0] == 0x89
    ensures var h := TrimStart(LowerLatin1(Ascii(start))); h != "" && h[0] == '\U{89}'
  {
    var lowered := LowerLatin1(Ascii(start));
    assert lowered[0] == '\U{89}';
  }

  /** The frame headers that carry a size: SOF0 to SOF3 and SOF5 to SOF7, and not the Huffman tables between. */
  lemma FrameMarkersAre(marker: Byte)
    ensures IsFrameMarker(marker) <==>
            || marker == 0xc0 || marker == 0xc1 || marker == 0xc2 || marker == 0xc3
            || marker == 0xc5 || marker == 0xc6 || marker == 0xc7
  {
  }
}
