/**
 * Preview images for uploaded problem files: recognising the format of an
 * embedded preview from its leading bytes, accepting or refusing it, putting
 * the JPEG pages a PDF rasteriser writes in page order, and the fallback chain
 * from the embedded preview to a full conversion.
 */
module GeneratePreview {
  import opened Optional
  import opened JsText
  import Sorting

  type Byte = x: int | 0 <= x < 256

  datatype ImageFormat = Png | Jpg | Webp

  /** The extension a recognised preview is saved under. */
  function FormatName(f: ImageFormat): string {
    match f
    case Png => "png"
    case Jpg => "jpg"
    case Webp => "webp"
  }

  /** The PNG file signature (section 5.2 of the PNG specification). */
  const PngSignature: seq<Byte> := [0x89, 0x50, 0x4E, 0x47, 0x0D, 0x0A, 0x1A, 0x0A]

  /** The JPEG start-of-image marker FF D8 (ITU-T T.81, Table B.1) and the 0xFF
      that opens the marker after it. */
  const JpegStart: seq<Byte> := [0xFF, 0xD8, 0xFF]

  /** `buffer.toString('ascii')`: Node decodes each byte with its high bit cleared. */
  function AsciiText(bs: seq<Byte>): (r: string)
    ensures |r| == |bs|
    ensures forall i :: 0 <= i < |bs| ==> r[i] as int == bs[i] % 128
  {
    seq(|bs|, i requires 0 <= i < |bs| => (bs[i] % 128) as char)
  }

  predicate IsPng(buf: seq<Byte>) {
    |buf| >= 8 && buf[..8] == PngSignature
  }

  predicate IsJpeg(buf: seq<Byte>) {
    |buf| >= 3 && buf[..3] == JpegStart
  }

  /** The RIFF container header of a WebP file (RFC 9649, section 2): "RIFF", four
      size bytes, "WEBP", compared after the ASCII decoding above. */
  predicate IsWebp(buf: seq<Byte>) {
    |buf| >= 12 && AsciiText(buf[0..4]) == "RIFF" && AsciiText(buf[8..12]) == "WEBP"
  }

  /** `detectImageExtension`: PNG, then JPEG, then WebP, else nothing. The three
      headers begin with different bytes, so each answer holds exactly when its
      own header is present. */
  function DetectImageExtension(buf: seq<Byte>): (r: Option<ImageFormat>)
    ensures r == Some(Png) <==> IsPng(buf)
    ensures r == Some(Jpg) <==> IsJpeg(buf)
    ensures r == Some(Webp) <==> IsWebp(buf)
  {
    HeadersDisjoint(buf);
    if IsPng(buf) then Some(Png)
    else if IsJpeg(buf) then Some(Jpg)
    else if IsWebp(buf) then Some(Webp)
    else None
  }

  /** Each header fixes the first byte, and the three first bytes differ. */
  lemma HeadersDisjoint(buf: seq<Byte>)
    ensures IsPng(buf) ==> buf[0] == 0x89
    ensures IsJpeg(buf) ==> buf[0] == 0xFF
    ensures IsWebp(buf) ==> buf[0] % 128 == 'R' as int
  {
    if IsPng(buf) {
      assert buf[..8][0] == buf[0];
    }
    if IsJpeg(buf) {
      assert buf[..3][0] == buf[0];
    }
    if IsWebp(buf) {
      assert buf[0..4][0] == buf[0];
      assert AsciiText(buf[0..4])[0] == 'R';
    }
  }

  /** A buffer carrying the exact bytes of a WebP header is recognised as WebP,
      whatever the size field and the payload hold. */
  lemma WebpHeaderDetected(size: seq<Byte>, payload: seq<Byte>)
    requires |size| == 4
    ensures DetectImageExtension([0x52, 0x49, 0x46, 0x46] + size + [0x57, 0x45, 0x42, 0x50] + payload) == Some(Webp)
  {
    var buf: seq<Byte> := [0x52, 0x49, 0x46, 0x46] + size + [0x57, 0x45, 0x42, 0x50] + payload;
    assert buf[0..4] == [0x52, 0x49, 0x46, 0x46];
    assert buf[8..12] == [0x57, 0x45, 0x42, 0x50];
    assert AsciiText(buf[0..4]) == "RIFF";
    assert AsciiText(buf[8..12]) == "WEBP";
  }

  /** Every buffer whose first bytes form the PNG signature is recognised as PNG. */
  lemma PngSignatureDetected(payload: seq<Byte>)
    ensures DetectImageExtension(PngSignature + payload) == Some(Png)
  {
    assert (PngSignature + payload)[..8] == PngSignature;
  }

  /** Because the decoding drops the high bit, a header whose bytes carry it
      (0xD2 0xC9 0xC6 0xC6 for "RIFF") is recognised as WebP as well. */
  lemma HighBitHeaderDetected(payload: seq<Byte>)
    ensures DetectImageExtension([0xD2, 0xC9, 0xC6, 0xC6, 0, 0, 0, 0, 0xD7, 0xC5, 0xC2, 0xD0] + payload) == Some(Webp)
  {
    var buf: seq<Byte> := [0xD2, 0xC9, 0xC6, 0xC6, 0, 0, 0, 0, 0xD7, 0xC5, 0xC2, 0xD0] + payload;
    assert buf[0..4] == [0xD2, 0xC9, 0xC6, 0xC6];
    assert buf[8..12] == [0xD7, 0xC5, 0xC2, 0xD0];
    assert AsciiText(buf[0..4]) == "RIFF";
    assert AsciiText(buf[8..12]) == "WEBP";
  }

  // ---------------------------------------------------------------- embedded previews

  /** The smallest extractor output taken as an image. */
  const MinPreviewBytes := 32

  /** What the extractor's output is accepted as: nothing when it is shorter than
      32 bytes or in no recognised format. */
  function AcceptEmbedded(output: seq<Byte>): (r: Option<ImageFormat>)
    ensures r.Some? <==> |output| >= MinPreviewBytes && DetectImageExtension(output).Some?
    ensures r.Some? ==> r == DetectImageExtension(output)
  {
    if |output| < MinPreviewBytes then None else DetectImageExtension(output)
  }

  /** `tryExtractHwpEmbeddedPreview` / `tryExtractHwpxEmbeddedPreview`: `output` is
      the extractor's stdout (`None` when the command failed), `id` the random name
      and `saved` whether writing the file succeeded. The preview's file name, or
      nothing. */
  function EmbeddedPreview(output: Option<seq<Byte>>, id: string, saved: bool): (r: Option<string>)
    ensures r.Some? <==> output.Some? && AcceptEmbedded(output.value).Some? && saved
    ensures r.Some? ==> r.value == id + "." + FormatName(AcceptEmbedded(output.value).value)
  {
    match output
    case None => None
    case Some(bytes) =>
      match AcceptEmbedded(bytes)
      case None => None
      case Some(format) => if saved then Some(id + "." + FormatName(format)) else None
  }

  /** A saved PNG preview of at least 32 bytes is named after its id with `.png`. */
  lemma EmbeddedPngNamed(payload: seq<Byte>, id: string)
    requires |payload| >= MinPreviewBytes - 8
    ensures EmbeddedPreview(Some(PngSignature + payload), id, true) == Some(id + ".png")
  {
    PngSignatureDetected(payload);
    assert |PngSignature + payload| >= MinPreviewBytes;
    assert AcceptEmbedded(PngSignature + payload) == Some(Png);
    assert id + "." + "png" == id + ".png";
  }

  // ---------------------------------------------------------------- JPEG pages

  /** `/\.(jpg|jpeg)$/i`: the name without its JPEG extension, if it has one. */
  function JpegStem(name: string): (r: Option<string>)
    ensures r.Some? ==> |r.value| < |name| && StartsWith(name, r.value)
  {
    if |name| >= 4 && ToLower(name[|name| - 4..]) == ".jpg" then Some(name[..|name| - 4])
    else if |name| >= 5 && ToLower(name[|name| - 5..]) == ".jpeg" then Some(name[..|name| - 5])
    else None
  }

  /** Length of the run of digits that ends `s`. */
  function TrailingDigits(s: string): (k: nat)
    ensures k <= |s| && AllDigits(s[|s| - k..])
    ensures k == |s| || !IsDigit(s[|s| - k - 1])
  {
    if s != [] && IsDigit(s[|s| - 1]) then
      var k := TrailingDigits(s[..|s| - 1]);
      assert s[|s| - (k + 1)..] == s[..|s| - 1][|s| - 1 - k..] + [s[|s| - 1]];
      k + 1
    else 0
  }

  /** The page number `-(\d+)\.jpe?g$` reads off a file name, 0 when it does not match. */
  function PageNumber(name: string): (n: int)
    ensures n >= 0
  {
    match JpegStem(name)
    case None => 0
    case Some(stem) =>
      var k := TrailingDigits(stem);
      if 0 < k < |stem| && stem[|stem| - k - 1] == '-' then DecimalValue(stem[|stem| - k..]) else 0
  }

  lemma {:induction false} TrailingDigitsAfterDash(base: string, digits: string)
    requires AllDigits(digits)
    ensures TrailingDigits(base + "-" + digits) == |digits|
    decreases |digits|
  {
    var s := base + "-" + digits;
    if digits == [] {
      assert s[|s| - 1] == '-';
    } else {
      var init := digits[..|digits| - 1];
      assert s[..|s| - 1] == base + "-" + init;
      TrailingDigitsAfterDash(base, init);
      assert s[|s| - 1] == digits[|digits| - 1];
    }
  }

  /** The page number of a name the rasteriser writes, `<base>-<digits>.jpg`, is the
      value of its digits, zero padding included. */
  lemma PageNumberOfPageFile(base: string, digits: string)
    requires digits != [] && AllDigits(digits)
    ensures PageNumber(base + "-" + digits + ".jpg") == DecimalValue(digits)
  {
    var name := base + "-" + digits + ".jpg";
    var stem := base + "-" + digits;
    assert name[|name| - 4..] == ".jpg";
    assert name[..|name| - 4] == stem;
    assert JpegStem(name) == Some(stem);
    TrailingDigitsAfterDash(base, digits);
    assert stem[|stem| - |digits|..] == digits;
    assert stem[|stem| - |digits| - 1] == '-';
  }

  /** The files the rasteriser wrote for this run: the run's prefix and a JPEG extension. */
  predicate IsPageFile(name: string, prefixBase: string) {
    StartsWith(name, prefixBase) && JpegStem(name).Some?
  }

  function PageFiles(files: seq<string>, prefixBase: string): (r: seq<string>)
    ensures forall f :: f in r <==> f in files && IsPageFile(f, prefixBase)
    ensures forall f :: IsPageFile(f, prefixBase) ==> multiset(r)[f] == multiset(files)[f]
  {
    if files == [] then []
    else
      assert files == [files[0]] + files[1..];
      (if IsPageFile(files[0], prefixBase) then [files[0]] else []) + PageFiles(files[1..], prefixBase)
  }

  /** The page files sorted by ascending page number (the sort is stable). */
  function JpegPages(files: seq<string>, prefixBase: string): (r: seq<string>)
    ensures multiset(r) == multiset(PageFiles(files, prefixBase))
  {
    Sorting.SortBy(PageFiles(files, prefixBase), PageNumber)
  }

  /** `convertPdfToJpegs` after the rasteriser ran: each page file, in page order, is
      copied under a fresh name `<id>.jpg`; `sources` records which page each preview
      holds. */
  method ConvertPdfToJpegs(files: seq<string>, prefixBase: string, ids: seq<string>)
    returns (previews: seq<string>, sources: seq<string>)
    requires |ids| >= |PageFiles(files, prefixBase)|
    ensures |previews| == |sources| == |PageFiles(files, prefixBase)|
    ensures forall i :: 0 <= i < |previews| ==> previews[i] == ids[i] + ".jpg"
    ensures multiset(sources) == multiset(PageFiles(files, prefixBase))
    ensures Sorting.SortedBy(sources, PageNumber)
  {
    var jpegs := JpegPages(files, prefixBase);
    Sorting.SortBySorted(PageFiles(files, prefixBase), PageNumber);
    previews := [];
    sources := [];
    for i := 0 to |jpegs|
      invariant |previews| == |sources| == i
      invariant forall j :: 0 <= j < i ==> previews[j] == ids[j] + ".jpg"
      invariant sources == jpegs[..i]
    {
      previews := previews + [ids[i] + ".jpg"];
      sources := sources + [jpegs[i]];
    }
    assert jpegs[..|jpegs|] == jpegs;
  }

  // ---------------------------------------------------------------- the whole chain

  /** What the external tools produce on one run. `pdfOf(path)` is the PDF the
      office converter writes for `path`, `pagesOf(pdf)` the previews rasterising
      it yields (`None` when a step throws). */
  datatype Tools = Tools(
    embedded: Option<string>,
    odtReady: bool,
    pdfOf: string -> Option<string>,
    pagesOf: string -> Option<seq<string>>)

  function PagesOrEmpty(pages: Option<seq<string>>): seq<string> {
    if pages.Some? then pages.value else []
  }

  /** `generatePreview`: a HWP or HWPX file offers its embedded preview first and is
      otherwise converted to PDF (a HWP through ODT when that step succeeds); any
      other file is rasterised directly. A thrown error gives the empty list. */
  function Generate(filePath: string, ext: string, odtPath: string, tools: Tools): (r: seq<string>)
  {
    if ext == "hwp" || ext == "hwpx" then
      if tools.embedded.Some? then [tools.embedded.value]
      else
        var source := if ext == "hwp" && tools.odtReady then odtPath else filePath;
        match tools.pdfOf(source)
        case None => []
        case Some(pdf) => PagesOrEmpty(tools.pagesOf(pdf))
    else PagesOrEmpty(tools.pagesOf(filePath))
  }

  /** An accepted embedded preview is the whole answer for HWP and HWPX, whatever
      the converters would have done. */
  lemma EmbeddedPreviewWins(filePath: string, ext: string, odtPath: string, tools: Tools, other: Tools)
    requires ext == "hwp" || ext == "hwpx"
    requires tools.embedded.Some? && other.embedded == tools.embedded
    ensures Generate(filePath, ext, odtPath, tools) == [tools.embedded.value]
    ensures Generate(filePath, ext, odtPath, other) == Generate(filePath, ext, odtPath, tools)
  {
  }

  /** Every failure along the chain ends in the empty list: no embedded preview and
      no PDF, or a rasterising step that throws. */
  lemma FailuresGiveNoPreviews(filePath: string, ext: string, odtPath: string, tools: Tools)
    requires tools.embedded.None?
    requires forall p :: tools.pdfOf(p).None? || tools.pagesOf(tools.pdfOf(p).value).None?
    requires tools.pagesOf(filePath).None?
    ensures Generate(filePath, ext, odtPath, tools) == []
  {
  }

  /** Without an embedded preview a HWP file is converted from its ODT copy when
      that copy was written, and from the original otherwise; a HWPX file always
      from the original. */
  lemma ConversionSource(filePath: string, ext: string, odtPath: string, tools: Tools)
    requires ext == "hwp" || ext == "hwpx"
    requires tools.embedded.None?
    ensures tools.pdfOf(if ext == "hwp" && tools.odtReady then odtPath else filePath).None? ==>
      Generate(filePath, ext, odtPath, tools) == []
    ensures ext == "hwpx" && tools.pdfOf(filePath).Some? ==>
      Generate(filePath, ext, odtPath, tools) == PagesOrEmpty(tools.pagesOf(tools.pdfOf(filePath).value))
  {
  }
}
