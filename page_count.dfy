/**
 * Page counts of uploaded material files: reading the count out of `pdfinfo`
 * output, the estimate for HWPX files without a converter, the choice of
 * method by extension, and the process-wide cache that remembers only
 * positive counts.
 */
module PageCount {
  import opened Optional
  import opened JsText
  import opened JsCore
  import SecurityStorage

  // ---------------------------------------------------------------- pdfinfo output

  /** The characters after which `^` matches in a multiline regular expression. */
  predicate IsLineTerminator(c: char) {
    c == '\n' || c == '\r' || c == '\U{2028}' || c == '\U{2029}'
  }

  predicate LineStart(s: string, p: int) {
    p == 0 || (0 < p <= |s| && IsLineTerminator(s[p - 1]))
  }

  /** `/^Pages:\s+(\d+)/im` matches at `p`: a line start, "pages:" in any case, at
      least one whitespace character, at least one digit. */
  predicate PagesAt(s: string, p: nat) {
    LineStart(s, p) && p + 6 <= |s| && ToLower(s[p..p + 6]) == "pages:"
    && WhitespaceRun(s[p + 6..]) > 0
    && DigitRun(s[p + 6 + WhitespaceRun(s[p + 6..])..]) > 0
  }

  /** The number the match at `p` captures. */
  function CapturedAt(s: string, p: nat): nat
    requires PagesAt(s, p)
  {
    var rest := s[p + 6 + WhitespaceRun(s[p + 6..])..];
    DecimalValue(rest[..DigitRun(rest)])
  }

  /** The leftmost position from `p` on where the pattern matches. */
  function FirstPagesAt(s: string, p: nat): (r: Option<nat>)
    requires p <= |s|
    ensures r.Some? ==> p <= r.value <= |s| && PagesAt(s, r.value)
    ensures r.Some? ==> forall q :: p <= q < r.value ==> !PagesAt(s, q)
    ensures r.None? ==> forall q :: p <= q <= |s| ==> !PagesAt(s, q)
    decreases |s| - p
  {
    if PagesAt(s, p) then Some(p)
    else if p == |s| then None
    else FirstPagesAt(s, p + 1)
  }

  /** `parsePdfPageCount`: the number on the first "Pages:" line, when positive. */
  function ParsePdfPageCount(output: string): (r: Option<int>)
    ensures r.Some? ==> r.value > 0
    ensures r.Some? <==> FirstPagesAt(output, 0).Some? && CapturedAt(output, FirstPagesAt(output, 0).value) > 0
    ensures r.Some? ==> r.value == CapturedAt(output, FirstPagesAt(output, 0).value)
  {
    match FirstPagesAt(output, 0)
    case None => None
    case Some(p) => if CapturedAt(output, p) > 0 then Some(CapturedAt(output, p)) else None
  }

  /** A line "Pages:" + spaces + digits, after lines none of which matched, is read
      as the value of those digits when it is positive, and refused when it is 0. */
  lemma ReadsPagesLine(before: string, spaces: string, digits: string, after: string)
    requires before == [] || IsLineTerminator(before[|before| - 1])
    requires spaces != [] && forall i :: 0 <= i < |spaces| ==> spaces[i] == ' '
    requires digits != [] && AllDigits(digits)
    requires after == [] || IsLineTerminator(after[0])
    requires forall q :: 0 <= q < |before| ==> !PagesAt(before + "Pages:" + spaces + digits + after, q)
    ensures DecimalValue(digits) > 0 ==>
      ParsePdfPageCount(before + "Pages:" + spaces + digits + after) == Some(DecimalValue(digits))
    ensures DecimalValue(digits) == 0 ==>
      ParsePdfPageCount(before + "Pages:" + spaces + digits + after).None?
  {
    var s := before + "Pages:" + spaces + digits + after;
    PagesLineMatches(before, spaces, digits, after);
    Regroup(before, "Pages:", spaces, digits, after);
    FirstMatchIs(s, |before|);
  }

  /** A match with none before it is the one the search finds. */
  lemma FirstMatchIs(s: string, m: nat)
    requires m <= |s| && PagesAt(s, m)
    requires forall q :: 0 <= q < m ==> !PagesAt(s, q)
    ensures FirstPagesAt(s, 0) == Some(m)
  {
  }

  /** The pattern matches at the start of such a line and captures its digits. */
  lemma PagesLineMatches(before: string, spaces: string, digits: string, after: string)
    requires before == [] || IsLineTerminator(before[|before| - 1])
    requires spaces != [] && forall i :: 0 <= i < |spaces| ==> spaces[i] == ' '
    requires digits != [] && AllDigits(digits)
    requires after == [] || IsLineTerminator(after[0])
    ensures PagesAt(before + ("Pages:" + (spaces + (digits + after))), |before|)
    ensures CapturedAt(before + ("Pages:" + (spaces + (digits + after))), |before|) == DecimalValue(digits)
  {
    var line := "Pages:" + (spaces + (digits + after));
    LineAfter(before, line);
    PagesLineHead(spaces, digits, after);
    CapturedDigits(before + line, |before|, line, |spaces|, digits, after);
  }

  lemma Regroup<T>(a: seq<T>, b: seq<T>, c: seq<T>, d: seq<T>, e: seq<T>)
    ensures a + b + c + d + e == a + (b + (c + (d + e)))
  {
  }

  /** "Pages:", the spaces and the digits as the pattern reads them. */
  lemma PagesLineHead(spaces: string, digits: string, after: string)
    requires spaces != [] && forall i :: 0 <= i < |spaces| ==> spaces[i] == ' '
    requires digits != [] && AllDigits(digits)
    ensures var line := "Pages:" + (spaces + (digits + after));
      ToLower(line[..6]) == "pages:" && WhitespaceRun(line[6..]) == |spaces|
      && line[6 + |spaces|..] == digits + after
  {
    var line := "Pages:" + (spaces + (digits + after));
    assert line[..6] == "Pages:";
    assert ToLower("Pages:") == "pages:";
    assert line[6..] == spaces + (digits + after);
    WhitespaceRunOf(spaces, digits + after);
  }

  /** A text that follows a line terminator (or nothing) starts a line. */
  lemma LineAfter(before: string, line: string)
    requires before == [] || IsLineTerminator(before[|before| - 1])
    ensures LineStart(before + line, |before|) && (before + line)[|before|..] == line
  {
    if before != [] {
      assert (before + line)[|before| - 1] == before[|before| - 1];
    }
  }

  /** Once the whitespace after "Pages:" is known, the capture is the digit run after it. */
  lemma CapturedDigits(s: string, p: nat, line: string, w: nat, digits: string, after: string)
    requires LineStart(s, p) && p <= |s| && s[p..] == line
    requires |line| >= 6 && ToLower(line[..6]) == "pages:"
    requires WhitespaceRun(line[6..]) == w > 0
    requires 6 + w <= |line| && line[6 + w..] == digits + after
    requires digits != [] && AllDigits(digits) && (after == [] || !IsDigit(after[0]))
    ensures PagesAt(s, p) && CapturedAt(s, p) == DecimalValue(digits)
  {
    SuffixSlices(s, p, 6);
    SuffixSlices(s, p, 6 + w);
    var rest := s[p + 6 + w..];
    assert s[p + 6..] == line[6..];
    DigitRunOf(digits, after);
    PrefixOfConcat(digits, after);
    assert rest[..DigitRun(rest)] == digits;
  }

  lemma SuffixSlices<T>(s: seq<T>, p: nat, k: nat)
    requires p + k <= |s|
    ensures s[p..][k..] == s[p + k..] && s[p..][..k] == s[p..p + k]
  {
  }

  lemma PrefixOfConcat<T>(a: seq<T>, b: seq<T>)
    ensures (a + b)[..|a|] == a
  {
  }

  lemma {:induction false} WhitespaceRunOf(spaces: string, rest: string)
    requires forall i :: 0 <= i < |spaces| ==> spaces[i] == ' '
    requires rest != [] && IsDigit(rest[0])
    ensures WhitespaceRun(spaces + rest) == |spaces|
  {
    if spaces != [] {
      assert (spaces + rest)[1..] == spaces[1..] + rest;
      WhitespaceRunOf(spaces[1..], rest);
    } else {
      assert spaces + rest == rest;
    }
  }

  lemma {:induction false} DigitRunOf(digits: string, rest: string)
    requires AllDigits(digits)
    requires rest == [] || !IsDigit(rest[0])
    ensures DigitRun(digits + rest) == |digits|
  {
    if digits != [] {
      assert (digits + rest)[1..] == digits[1..] + rest;
      DigitRunOf(digits[1..], rest);
    } else {
      assert digits + rest == rest;
    }
  }

  // ---------------------------------------------------------------- HWPX estimate

  /** The section parts of a HWPX package: `contents/section*.xml`, compared in lower case. */
  predicate IsSectionPart(name: string) {
    var lower := ToLower(name);
    StartsWith(lower, "contents/section") && EndsWith(lower, ".xml")
  }

  function SectionParts(names: seq<string>): (r: seq<string>)
    ensures forall n :: n in r <==> n in names && IsSectionPart(n)
  {
    if names == [] then []
    else (if IsSectionPart(names[0]) then [names[0]] else []) + SectionParts(names[1..])
  }

  /** The page breaks (`<hp:p ... pageBreak="1"`) of all section parts together. */
  function BreakTotal(sections: seq<string>, breaksIn: string -> nat): nat {
    if sections == [] then 0 else breaksIn(sections[0]) + BreakTotal(sections[1..], breaksIn)
  }

  /** The estimate the helper script prints: one page per section plus one per break,
      or one page plus one per break when there is no section; never below 1. */
  function HwpxEstimate(sections: nat, breaks: nat): (pages: nat)
    ensures pages >= 1
    ensures sections > 0 ==> pages == sections + breaks
    ensures sections == 0 ==> pages == breaks + 1
  {
    if sections > 0 then Max(1, sections + breaks) else Max(1, breaks + 1)
  }

  function Max(a: int, b: int): int {
    if a >= b then a else b
  }

  function HwpxPages(names: seq<string>, breaksIn: string -> nat): nat {
    HwpxEstimate(|SectionParts(names)|, BreakTotal(SectionParts(names), breaksIn))
  }

  /** `getHwpxEstimatedPageCount` after the script ran: its stdout (`None` when it
      failed) read with `parseInt` after trimming, kept when positive. */
  function EstimatedPageCount(stdout: Option<string>): (r: Option<int>)
    ensures r.Some? ==> r.value > 0
  {
    match stdout
    case None => None
    case Some(text) =>
      match ParseIntText(Trim(text))
      case Some(n) => if n > 0 then Some(n) else None
      case None => None
  }

  /** What the script prints, a number and a newline, is read back exactly: the
      estimate for a HWPX package is its section-and-break count. */
  lemma EstimateReadBack(names: seq<string>, breaksIn: string -> nat)
    ensures EstimatedPageCount(Some(NatToString(HwpxPages(names, breaksIn)) + "\n")) == Some(HwpxPages(names, breaksIn))
  {
    NumberLineReadBack(HwpxPages(names, breaksIn));
  }

  lemma NumberLineReadBack(n: nat)
    ensures EstimatedPageCount(Some(NatToString(n) + "\n")) == if n > 0 then Some(n) else None
  {
    var digits := NatToString(n);
    var printed := digits + "\n";
    assert printed[..|digits|] == digits;
    assert TrimStart(printed) == printed;
    assert TrimEnd(printed) == TrimEnd(digits);
    TrimPlain(digits);
    assert Trim(printed) == digits;
    ParseIntOfNatToString(n);
  }

  // ---------------------------------------------------------------- choosing the method

  /** The external steps of one count. `pdfInfo(path)` is the stdout of `pdfinfo`
      (`None` when it fails), `pdfOf(path)` the PDF the office converter writes,
      `odtReady` whether the HWP-to-ODT conversion wrote `odtPath`, and
      `estimateOutput` the stdout of the HWPX estimate script. */
  datatype Probe = Probe(
    pdfInfo: string -> Option<string>,
    pdfOf: string -> Option<string>,
    odtReady: bool,
    odtPath: string,
    estimateOutput: Option<string>)

  function PdfPageCount(probe: Probe, pdfPath: string): (r: Option<int>)
    ensures r.Some? ==> r.value > 0
  {
    match probe.pdfInfo(pdfPath)
    case None => None
    case Some(output) => ParsePdfPageCount(output)
  }

  /** `getConvertedPageCount`: convert the file itself; for a HWP file that did not
      convert, convert its ODT copy instead when that was written; count the PDF. */
  function ConvertedPageCount(filePath: string, ext: string, probe: Probe): (r: Option<int>)
    ensures r.Some? ==> r.value > 0
  {
    var first := probe.pdfOf(filePath);
    var pdf := if first.None? && ext == ".hwp" && probe.odtReady then probe.pdfOf(probe.odtPath) else first;
    match pdf
    case None => None
    case Some(path) => PdfPageCount(probe, path)
  }

  /** The count by extension: `pdfinfo` for .pdf, conversion for .hwp and .hwpx with the
      estimate as a last resort for .hwpx, and nothing for any other extension. */
  function ComputePageCount(filePath: string, ext: string, probe: Probe): (r: Option<int>)
    ensures r.Some? ==> r.value > 0
    ensures ext != ".pdf" && ext != ".hwp" && ext != ".hwpx" ==> r.None?
    ensures ext == ".hwpx" && ConvertedPageCount(filePath, ext, probe).None? ==>
      r == EstimatedPageCount(probe.estimateOutput)
  {
    if ext == ".pdf" then PdfPageCount(probe, filePath)
    else if ext == ".hwp" || ext == ".hwpx" then
      var converted := ConvertedPageCount(filePath, ext, probe);
      if converted.None? && ext == ".hwpx" then EstimatedPageCount(probe.estimateOutput) else converted
    else None
  }

  /** Only a HWP file falls back to its ODT copy; a HWPX file is never read through it. */
  lemma OdtOnlyForHwp(filePath: string, probe: Probe)
    requires probe.pdfOf(filePath).None?
    ensures ComputePageCount(filePath, ".hwpx", probe) == EstimatedPageCount(probe.estimateOutput)
    ensures probe.odtReady ==>
      (ComputePageCount(filePath, ".hwp", probe) ==
       if probe.pdfOf(probe.odtPath).Some? then PdfPageCount(probe, probe.pdfOf(probe.odtPath).value) else None)
  {
  }

  // ---------------------------------------------------------------- the cache

  /** `PAGE_COUNT_CACHE`: file name to page count, holding positive counts only. */
  class PageCountCache {
    var entries: map<string, int>

    ghost predicate Valid()
      reads this
    {
      forall name :: name in entries ==> entries[name] > 0
    }

    constructor ()
      ensures entries == map[] && Valid()
    {
      entries := map[];
    }

    /** `getMaterialFilePageCount`. `fileName` is `None` for null or undefined,
        `fileExists` whether the upload is on disk, `probe` what the tools report. */
    method GetMaterialFilePageCount(fileName: Option<string>, filePath: string, fileExists: bool, probe: Probe)
      returns (count: Option<int>)
      requires Valid()
      modifies this
      ensures Valid()
      ensures count.Some? ==> count.value > 0
      ensures fileName.None? || fileName.value == "" ==> count.None? && entries == old(entries)
      ensures fileName.Some? && fileName.value != "" && fileName.value in old(entries) ==>
        count == Some(old(entries)[fileName.value]) && entries == old(entries)
      ensures fileName.Some? && fileName.value != "" && fileName.value !in old(entries) && !fileExists ==>
        count.None? && entries == old(entries)
      ensures fileName.Some? && fileName.value != "" && fileName.value !in old(entries) && fileExists ==>
        var ext := ToLower(SecurityStorage.Extname(fileName.value));
        count == ComputePageCount(filePath, ext, probe)
        && entries == (if count.Some? then old(entries)[fileName.value := count.value]
                       else old(entries) - {fileName.value})
    {
      if fileName.None? || fileName.value == "" {
        return None;
      }
      var name := fileName.value;
      if name in entries {
        return Some(entries[name]);
      }
      if !fileExists {
        return None;
      }
      var ext := ToLower(SecurityStorage.Extname(name));
      count := ComputePageCount(filePath, ext, probe);
      if count.Some? && count.value > 0 {
        entries := entries[name := count.value];
      } else {
        entries := entries - {name};
      }
    }
  }

  /** A second request for a name whose count was found returns it from the cache:
      the tools are not consulted again, whatever they would now report. */
  method CachedOnSecondRequest(name: string, filePath: string, first: Probe, second: Probe)
    returns (a: Option<int>, b: Option<int>)
    requires name != ""
    ensures a.Some? ==> b == a
  {
    var cache := new PageCountCache();
    a := cache.GetMaterialFilePageCount(Some(name), filePath, true, first);
    b := cache.GetMaterialFilePageCount(Some(name), filePath, true, second);
  }

  /** Only .pdf, .hwp and .hwpx files get a count; any other upload is answered with
      nothing and leaves no cache entry. */
  method OtherExtensionsUncounted(stem: string, e: string, filePath: string, probe: Probe)
    returns (count: Option<int>)
    requires stem != [] && e != [] && '/' !in stem && '/' !in e && '.' !in e
    requires ToLower("." + e) != ".pdf" && ToLower("." + e) != ".hwp" && ToLower("." + e) != ".hwpx"
    ensures count.None?
  {
    var cache := new PageCountCache();
    SecurityStorage.ExtnameOfName(stem, e);
    count := cache.GetMaterialFilePageCount(Some(stem + "." + e), filePath, true, probe);
    assert stem + "." + e !in cache.entries;
  }
}
