/**
 * The legacy migration: every document of the old materials collection is
 * converted to the current material schema (category, curriculum, file type,
 * audience, difficulty, prices, school fields, ebook fields, files and
 * previews) and upserted by material id in batches of 250, or only counted
 * and sampled in a dry run.
 */
module MigrateLegacy {
  import opened JsText
  import opened JsCore
  import opened Optional
  import opened MaterialCatalog
  import ApiHelpers
  import ScriptArgs
  import MaterialDisplay
  import Bulk

  const BatchSize := 250
  const MaxTocEntries := 50
  const MaxPreviews := 2
  const DefaultType := "내신기출"
  const DefaultSchoolLevel := "고등학교"
  const EbookSubject := EbookWord
  const DefaultUploader := "legacy-migration"
  const GeneratedIdPrefix := "legacy-"
  const AllowedDocExt: seq<string> := ["pdf", "hwp", "hwpx"]
  /** The rating each difficulty from 1 to 5 stands for. */
  const DifficultyRatings: seq<int> := [600, 800, 1000, 1300, 1600]

  // ---------------------------------------------------------------- files

  /** `name.split('.').pop().toLowerCase()`: the lower-cased text after the last dot. */
  function Extension(name: string): string {
    ToLower(LastPiece(name, '.'))
  }

  /** `normalizeLegacyFileName`: the trimmed name of a string whose extension is pdf,
      hwp or hwpx; nothing for a blank name, another extension or a non-string. */
  function NormalizeLegacyFileName(v: JsValue): (r: Option<string>)
    ensures r.Some? <==> ApiHelpers.NormalizeText(v) != "" && Extension(ApiHelpers.NormalizeText(v)) in AllowedDocExt
    ensures r.Some? ==> r.value == ApiHelpers.NormalizeText(v)
  {
    var name := ApiHelpers.NormalizeText(v);
    if name == "" || Extension(name) !in AllowedDocExt then None else Some(name)
  }

  /** A kept name is kept again, unchanged. */
  lemma LegacyFileNameIdempotent(v: JsValue)
    requires NormalizeLegacyFileName(v).Some?
    ensures NormalizeLegacyFileName(Str(NormalizeLegacyFileName(v).value)) == NormalizeLegacyFileName(v)
  {
    TrimIdempotent(v.s);
  }

  // ---------------------------------------------------------------- text lists

  /** The string entries of an array, in order. */
  function StringItems(items: seq<JsValue>): (r: seq<string>)
    ensures |r| <= |items|
  {
    if items == [] then []
    else (if items[0].Str? then [items[0].s] else []) + StringItems(items[1..])
  }

  /** Trimmed text that is not empty. */
  predicate Clean(s: string) {
    s != "" && !IsWhitespace(s[0]) && !IsWhitespace(s[|s| - 1])
  }

  /** One entry trimmed, or nothing when it is blank. */
  function TrimmedEntry(s: string): (r: seq<string>)
    ensures |r| <= 1 && forall i :: 0 <= i < |r| ==> Clean(r[i])
  {
    if Trim(s) != "" then [Trim(s)] else []
  }

  /** `.map((v) => v.trim()).filter(Boolean)`: the trimmed entries that are not empty. */
  function TrimmedTexts(texts: seq<string>): (r: seq<string>)
    ensures |r| <= |texts|
    ensures forall i :: 0 <= i < |r| ==> Clean(r[i])
  {
    if texts == [] then [] else TrimmedEntry(texts[0]) + TrimmedTexts(texts[1..])
  }

  /** `.slice(0, n)`. */
  function Take(texts: seq<string>, n: nat): (r: seq<string>)
    ensures |r| == if |texts| <= n then |texts| else n
    ensures r == texts[..|r|]
    ensures forall i :: 0 <= i < |r| ==> r[i] == texts[i]
  {
    if |texts| <= n then texts else texts[..n]
  }

  /** `normalizeEbookToc`: the trimmed, non-empty string entries of an array or lines of a
      string, at most 50 of them; nothing for any other value. */
  function NormalizeEbookToc(v: JsValue): (r: seq<string>)
    ensures |r| <= MaxTocEntries
    ensures forall i :: 0 <= i < |r| ==> Clean(r[i])
    ensures !v.Arr? && !v.Str? ==> r == []
  {
    match v
    case Arr(items) => Take(TrimmedTexts(StringItems(items)), MaxTocEntries)
    case Str(s) => Take(TrimmedTexts(Split(s, '\n')), MaxTocEntries)
    case _ => []
  }

  /** The array `[...]` of the given texts. */
  function TextArray(texts: seq<string>): (v: JsValue)
    ensures v.Arr? && |v.items| == |texts|
    ensures forall i :: 0 <= i < |texts| ==> v.items[i] == Str(texts[i])
  {
    Arr(seq(|texts|, i requires 0 <= i < |texts| => Str(texts[i])))
  }

  lemma {:induction false} StringItemsOfTexts(texts: seq<string>)
    ensures StringItems(TextArray(texts).items) == texts
  {
    if texts != [] {
      StringItemsOfTexts(texts[1..]);
      assert TextArray(texts).items[1..] == TextArray(texts[1..]).items;
    }
  }

  lemma {:induction false} TrimmedTextsFixed(texts: seq<string>)
    requires forall i :: 0 <= i < |texts| ==> Clean(texts[i])
    ensures TrimmedTexts(texts) == texts
  {
    if texts != [] {
      TrimPlain(texts[0]);
      TrimmedTextsFixed(texts[1..]);
      assert texts == [texts[0]] + texts[1..];
    }
  }

  /** A normalised table of contents, stored as an array and normalised again, is unchanged. */
  lemma EbookTocIdempotent(v: JsValue)
    ensures NormalizeEbookToc(TextArray(NormalizeEbookToc(v))) == NormalizeEbookToc(v)
  {
    var toc := NormalizeEbookToc(v);
    StringItemsOfTexts(toc);
    TrimmedTextsFixed(toc);
  }

  /** Some string entry is not blank exactly when trimming and dropping empties leaves something. */
  lemma {:induction false} TrimmedItemsNonEmpty(items: seq<JsValue>)
    ensures TrimmedTexts(StringItems(items)) != [] <==> exists i :: 0 <= i < |items| && items[i].Str? && Trim(items[i].s) != []
  {
    if items != [] {
      TrimmedItemsNonEmpty(items[1..]);
      var rest := items[1..];
      if exists i :: 0 <= i < |rest| && rest[i].Str? && Trim(rest[i].s) != [] {
        var i :| 0 <= i < |rest| && rest[i].Str? && Trim(rest[i].s) != [];
        assert items[i + 1] == rest[i];
      }
      if exists i :: 0 <= i < |items| && items[i].Str? && Trim(items[i].s) != [] {
        var i :| 0 <= i < |items| && items[i].Str? && Trim(items[i].s) != [];
        if i > 0 {
          assert rest[i - 1] == items[i];
        }
      }
      if items[0].Str? {
        TrimmedTextsCons(items[0].s, StringItems(rest));
      } else {
        assert StringItems(items) == StringItems(rest);
      }
    }
  }

  lemma TrimmedTextsCons(x: string, t: seq<string>)
    ensures TrimmedTexts([x] + t) == TrimmedEntry(x) + TrimmedTexts(t)
  {
    var s := [x] + t;
    assert s[0] == x && s[1..] == t;
  }

  /** A text with a non-blank character keeps a non-empty line, and a blank one keeps none. */
  lemma TrimmedLinesNonEmpty(s: string)
    ensures TrimmedTexts(Split(s, '\n')) != [] <==> !Blank(s)
  {
    if Blank(s) {
      BlankKeepsNoLine(s);
    } else {
      NonBlankKeepsLine(s);
    }
  }

  lemma {:induction false} BlankKeepsNoLine(s: string)
    requires Blank(s)
    ensures TrimmedTexts(Split(s, '\n')) == []
    decreases |s|
  {
    var i := IndexOf(s, '\n');
    SplitFirst(s, '\n');
    if i == |s| {
      assert [s] + [] == [s];
      LinesNonEmptyCons(s, []);
    } else {
      var rest := s[i + 1..];
      BlankAround(s, i);
      BlankKeepsNoLine(rest);
      LinesStep(s, i, Split(s, '\n'), Split(rest, '\n'));
    }
  }

  lemma {:induction false} NonBlankKeepsLine(s: string)
    requires !Blank(s)
    ensures TrimmedTexts(Split(s, '\n')) != []
    decreases |s|
  {
    var i := IndexOf(s, '\n');
    SplitFirst(s, '\n');
    if i == |s| {
      assert [s] + [] == [s];
      LinesNonEmptyCons(s, []);
    } else {
      var rest := s[i + 1..];
      BlankAround(s, i);
      if Blank(rest) {
        BlankKeepsNoLine(rest);
      } else {
        NonBlankKeepsLine(rest);
      }
      LinesStep(s, i, Split(s, '\n'), Split(rest, '\n'));
    }
  }

  /** The lines of a text split at its first line break keep a non-empty line exactly
      when the text is not blank, given that this holds for the rest after the break. */
  lemma LinesStep(s: string, i: nat, lines: seq<string>, later: seq<string>)
    requires i < |s| && s[i] == '\n'
    requires lines == [s[..i]] + later
    requires TrimmedTexts(later) != [] <==> !Blank(s[i + 1..])
    ensures TrimmedTexts(lines) != [] <==> !Blank(s)
  {
    LinesNonEmptyCons(s[..i], later);
    BlankAround(s, i);
  }

  /** Lines with one more in front keep a non-empty line exactly when that line is not
      blank or the others keep one. */
  lemma LinesNonEmptyCons(x: string, t: seq<string>)
    ensures TrimmedTexts([x] + t) != [] <==> !Blank(x) || TrimmedTexts(t) != []
  {
    TrimmedTextsCons(x, t);
    TrimEmptyIff(x);
  }

  /** A text is blank exactly when both sides of one of its characters are and that
      character is whitespace. */
  lemma BlankAround(s: string, i: nat)
    requires i < |s| && IsWhitespace(s[i])
    ensures Blank(s) <==> Blank(s[..i]) && Blank(s[i + 1..])
  {
    if Blank(s[..i]) && Blank(s[i + 1..]) {
      forall j | 0 <= j < |s|
        ensures IsWhitespace(s[j])
      {
        if j < i {
          assert s[j] == s[..i][j];
        } else if j > i {
          assert s[j] == s[i + 1..][j - i - 1];
        }
      }
    }
  }

  /** The stored table of contents is empty exactly when the raw value is no ebook sign:
      a material resolved as an ebook for its table of contents keeps a non-empty one. */
  lemma EbookTocNonEmptyIff(v: JsValue)
    ensures NormalizeEbookToc(v) != [] <==> HasNonEmptyEbookToc(v)
  {
    match v
    case Arr(items) =>
      TrimmedItemsNonEmpty(items);
    case Str(s) =>
      TrimmedLinesNonEmpty(s);
      TrimEmptyIff(s);
    case _ =>
  }

  // ---------------------------------------------------------------- enumerations

  /** The extensions of the files that are kept. */
  function Extensions(problemFile: Option<string>, etcFile: Option<string>): seq<string> {
    (if problemFile.Some? && problemFile.value != "" then [Extension(problemFile.value)] else [])
    + (if etcFile.Some? && etcFile.value != "" then [Extension(etcFile.value)] else [])
  }

  /** `inferFileType`: a valid stored file type (trimmed and lower-cased) is kept; otherwise
      both when the kept files include a pdf and an hwp/hwpx, hwp with only the latter,
      and pdf in every other case. */
  function InferFileType(legacy: JsValue, problemFile: Option<string>, etcFile: Option<string>): (t: FileType)
    ensures FileTypeOf(ToLower(ApiHelpers.NormalizeText(legacy))).Some? ==>
      t == FileTypeOf(ToLower(ApiHelpers.NormalizeText(legacy))).value
    ensures FileTypeOf(ToLower(ApiHelpers.NormalizeText(legacy))).None? ==>
      var exts := Extensions(problemFile, etcFile);
      (t == Both <==> "pdf" in exts && ("hwp" in exts || "hwpx" in exts))
      && (t == Hwp <==> "pdf" !in exts && ("hwp" in exts || "hwpx" in exts))
  {
    match FileTypeOf(ToLower(ApiHelpers.NormalizeText(legacy)))
    case Some(t) => t
    case None =>
      var exts := Extensions(problemFile, etcFile);
      var hasPdf := "pdf" in exts;
      var hasHwp := "hwp" in exts || "hwpx" in exts;
      if hasPdf && hasHwp then Both
      else if hasHwp then Hwp
      else Pdf
  }

  /** `normalizeTargetAudience`: a valid stored audience is kept; otherwise teacher for hwp
      material and student for the rest. */
  function NormalizeTargetAudience(legacy: JsValue, fileType: FileType): (a: TargetAudience)
    ensures AudienceOf(ToLower(ApiHelpers.NormalizeText(legacy))).Some? ==>
      a == AudienceOf(ToLower(ApiHelpers.NormalizeText(legacy))).value
    ensures AudienceOf(ToLower(ApiHelpers.NormalizeText(legacy))).None? ==>
      (a == Teacher <==> fileType == Hwp) && (a == Student <==> fileType != Hwp)
  {
    match AudienceOf(ToLower(ApiHelpers.NormalizeText(legacy)))
    case Some(a) => a
    case None => if fileType == Hwp then Teacher else Student
  }

  /** `normalizeCurriculum`: an ebook is 2022; otherwise a stored curriculum name is kept,
      and failing that the subject decides. */
  function NormalizeCurriculum(legacy: JsValue, category: SourceCategory, subject: string,
                               fromSubject: string -> Curriculum): (c: Curriculum)
    ensures category == Ebook ==> c == Revised2022
    ensures category != Ebook && CurriculumOf(ApiHelpers.NormalizeText(legacy)).Some? ==>
      c == CurriculumOf(ApiHelpers.NormalizeText(legacy)).value
    ensures category != Ebook && CurriculumOf(ApiHelpers.NormalizeText(legacy)).None? ==> c == fromSubject(subject)
  {
    if category == Ebook then Revised2022
    else
      match CurriculumOf(ApiHelpers.NormalizeText(legacy))
      case Some(c) => c
      case None => fromSubject(subject)
  }

  /** The stored curriculum survives a second conversion, so converting twice changes nothing. */
  lemma CurriculumIdempotent(legacy: JsValue, category: SourceCategory, subject: string, fromSubject: string -> Curriculum)
    ensures var c := NormalizeCurriculum(legacy, category, subject, fromSubject);
      NormalizeCurriculum(Str(CurriculumName(c)), category, subject, fromSubject) == c
  {
    var c := NormalizeCurriculum(legacy, category, subject, fromSubject);
    CurriculumNameTrimmed(c);
    assert ApiHelpers.NormalizeText(Str(CurriculumName(c))) == CurriculumName(c);
    CurriculumOfName(c);
  }

  // ---------------------------------------------------------------- configuration

  datatype Config = Config(
    apply: bool,
    limit: nat,
    sourceUri: string,
    sourceDb: string,
    sourceCollection: string,
    targetUri: string,
    targetDb: string,
    targetCollection: string,
    strictFileExists: bool,
    computePageCount: bool,
    keepPreviews: bool,
    drySample: nat)

  const DefaultSourceUri := "mongodb://localhost:27017/dreedu"
  const DefaultTargetUri := "mongodb://localhost:27017/dre-edu"

  /** `parseConfig`: each address and database name from its option, then the environment,
      then a default (the database name parsed out of the address); positive limit and
      sample size, flags by presence. */
  function ParseConfig(argv: seq<string>, env: map<string, string>): (cfg: Config)
    ensures cfg.apply <==> "--apply" in argv
    ensures cfg.strictFileExists <==> "--strict-file-exists" in argv
    ensures cfg.computePageCount <==> "--compute-page-count" in argv
    ensures cfg.keepPreviews <==> "--keep-previews" in argv
    ensures cfg.drySample > 0
    ensures cfg.sourceUri != "" && cfg.targetUri != "" && cfg.sourceCollection != "" && cfg.targetCollection != ""
    ensures ScriptArgs.GetArgValue(argv, "--source-uri").Some? && ScriptArgs.GetArgValue(argv, "--source-uri").value != "" ==>
      cfg.sourceUri == ScriptArgs.GetArgValue(argv, "--source-uri").value
    ensures ScriptArgs.GetArgValue(argv, "--target-db").Some? && ScriptArgs.GetArgValue(argv, "--target-db").value != "" ==>
      cfg.targetDb == ScriptArgs.GetArgValue(argv, "--target-db").value
  {
    var at := LocationsOf(argv, env);
    Config(
      ScriptArgs.HasFlag(argv, "--apply"),
      ScriptArgs.ParsePositiveIntArg(ScriptArgs.GetArgValue(argv, "--limit"), 0),
      at.sourceUri,
      at.sourceDb,
      ScriptArgs.FirstText([ScriptArgs.GetArgValue(argv, "--source-collection")], "materials"),
      at.targetUri,
      at.targetDb,
      ScriptArgs.FirstText([ScriptArgs.GetArgValue(argv, "--target-collection")], "materials"),
      ScriptArgs.HasFlag(argv, "--strict-file-exists"),
      ScriptArgs.HasFlag(argv, "--compute-page-count"),
      ScriptArgs.HasFlag(argv, "--keep-previews"),
      ScriptArgs.ParsePositiveIntArg(ScriptArgs.GetArgValue(argv, "--sample"), 20))
  }

  datatype Locations = Locations(sourceUri: string, sourceDb: string, targetUri: string, targetDb: string)

  /** The two addresses and database names of `parseConfig`: option, then environment,
      then default. */
  function LocationsOf(argv: seq<string>, env: map<string, string>): (at: Locations)
    ensures at.sourceUri != "" && at.targetUri != ""
    ensures ScriptArgs.GetArgValue(argv, "--source-uri").Some? && ScriptArgs.GetArgValue(argv, "--source-uri").value != "" ==>
      at.sourceUri == ScriptArgs.GetArgValue(argv, "--source-uri").value
    ensures ScriptArgs.GetArgValue(argv, "--target-db").Some? && ScriptArgs.GetArgValue(argv, "--target-db").value != "" ==>
      at.targetDb == ScriptArgs.GetArgValue(argv, "--target-db").value
  {
    var sourceUri := ScriptArgs.FirstText([ScriptArgs.GetArgValue(argv, "--source-uri"),
      ScriptArgs.EnvValue(env, "LEGACY_MONGODB_URI"), ScriptArgs.EnvValue(env, "MONGODB_URI")], DefaultSourceUri);
    var targetUri := ScriptArgs.FirstText([ScriptArgs.GetArgValue(argv, "--target-uri"),
      ScriptArgs.EnvValue(env, "MONGODB_URI")], DefaultTargetUri);
    var sourceDb := ScriptArgs.FirstText([ScriptArgs.GetArgValue(argv, "--source-db"),
      ScriptArgs.EnvValue(env, "LEGACY_DB_NAME")], ScriptArgs.ParseDbNameFromUri(sourceUri, "dreedu"));
    var targetDb := ScriptArgs.FirstText([ScriptArgs.GetArgValue(argv, "--target-db"),
      ScriptArgs.EnvValue(env, "TARGET_DB_NAME")], ScriptArgs.ParseDbNameFromUri(targetUri, "dre-edu"));
    Locations(sourceUri, sourceDb, targetUri, targetDb)
  }

  /** With no options and no environment, the run is a dry run over all of `dreedu`'s
      materials into `dre-edu`, sampling 20. */
  lemma DefaultConfig()
    ensures ParseConfig([], map[]) == Config(false, 0, DefaultSourceUri, "dreedu", "materials",
      DefaultTargetUri, "dre-edu", "materials", false, false, false, 20)
  {
    DefaultSourceDb();
    DefaultTargetDb();
  }

  /** The default source address names the `dreedu` database. */
  lemma DefaultSourceDb()
    ensures ScriptArgs.ParseDbNameFromUri(DefaultSourceUri, "dreedu") == "dreedu"
  {
    ScriptArgs.DbNameOfPlainUri("mongodb://localhost:27017", "dreedu", "dreedu");
    assert "mongodb://localhost:27017" + "/" + "dreedu" == DefaultSourceUri;
  }

  /** The default target address names the `dre-edu` database. */
  lemma DefaultTargetDb()
    ensures ScriptArgs.ParseDbNameFromUri(DefaultTargetUri, "dre-edu") == "dre-edu"
  {
    ScriptArgs.DbNameOfPlainUri("mongodb://localhost:27017", "dre-edu", "dre-edu");
    assert "mongodb://localhost:27017" + "/" + "dre-edu" == DefaultTargetUri;
  }

  // ---------------------------------------------------------------- one document

  /** The projected fields of a legacy material, each of any JSON type. */
  datatype LegacyDoc = LegacyDoc(
    materialId: JsValue,
    materialType: JsValue,
    uploaderId: JsValue,
    regionSido: JsValue,
    regionGugun: JsValue,
    year: JsValue,
    schoolName: JsValue,
    schoolLevel: JsValue,
    gradeNumber: JsValue,
    semester: JsValue,
    period: JsValue,
    subject: JsValue,
    unit: JsValue,
    topic: JsValue,
    publisher: JsValue,
    bookTitle: JsValue,
    ebookDescription: JsValue,
    ebookToc: JsValue,
    sourceCategory: JsValue,
    curriculum: JsValue,
    difficulty: JsValue,
    difficultyRating: JsValue,
    targetAudience: JsValue,
    fileType: JsValue,
    priceProblem: JsValue,
    priceEtc: JsValue,
    problemFile: JsValue,
    etcFile: JsValue,
    previewImages: JsValue,
    isFree: JsValue,
    pageCount: JsValue,
    downloadCount: JsValue,
    viewCount: JsValue,
    likeCount: JsValue,
    isActive: JsValue,
    createdAt: JsValue,
    updatedAt: JsValue)

  /** What the conversion asks of the world outside the document: the current year, the
      k-th random id `nanoid(10)`, whether a file exists under the upload directory, the
      page count of a file, and the curriculum a subject belongs to. */
  datatype Host = Host(
    nowYear: int,
    now: int,
    toDate: JsValue -> Option<int>,
    randomId: nat -> string,
    fileExists: string -> bool,
    pageCount: Option<string> -> Option<int>,
    curriculumFromSubject: string -> Curriculum)

  /** The trimmed material id, or `legacy-` and the k-th random id when it is blank. */
  function MaterialIdOf(doc: LegacyDoc, randomId: nat -> string, k: nat): (r: string)
    ensures r != ""
    ensures ApiHelpers.NormalizeText(doc.materialId) != "" ==> r == ApiHelpers.NormalizeText(doc.materialId)
    ensures ApiHelpers.NormalizeText(doc.materialId) == "" ==> r == GeneratedIdPrefix + randomId(k)
  {
    var id := ApiHelpers.NormalizeText(doc.materialId);
    if id != "" then id else GeneratedIdPrefix + randomId(k)
  }

  /** The outcome for one file field: the name kept, or why it was dropped. */
  datatype FileCheck = FileCheck(file: Option<string>, invalidExt: bool, missing: bool)

  function Flag(b: bool): nat {
    if b then 1 else 0
  }

  /** How many of the three outcomes a file check records. */
  function Outcomes(f: FileCheck): nat {
    Flag(f.file.Some?) + Flag(f.invalidExt) + Flag(f.missing)
  }

  /** A file field is kept when its name is valid and, under `--strict-file-exists`, the
      file exists; a non-blank name with another extension counts as invalid, and a valid
      name without its file as missing. Each non-blank field has exactly one outcome. */
  function CheckFile(v: JsValue, strict: bool, fileExists: string -> bool): (r: FileCheck)
    ensures r.file.Some? ==> r.file == NormalizeLegacyFileName(v) && (strict ==> fileExists(r.file.value))
    ensures r.invalidExt <==> ApiHelpers.NormalizeText(v) != "" && NormalizeLegacyFileName(v).None?
    ensures r.missing <==> strict && NormalizeLegacyFileName(v).Some? && !fileExists(NormalizeLegacyFileName(v).value)
    ensures Outcomes(r) == if ApiHelpers.NormalizeText(v) != "" then 1 else 0
  {
    var name := NormalizeLegacyFileName(v);
    var invalid := ApiHelpers.NormalizeText(v) != "" && name.None?;
    if strict && name.Some? && !fileExists(name.value) then FileCheck(None, invalid, true)
    else FileCheck(name, invalid, false)
  }

  /** The stored type, or 내신기출 when it is blank. */
  function NormalizedType(doc: LegacyDoc): (t: string)
    ensures Clean(t)
  {
    var t := ApiHelpers.NormalizeText(doc.materialType);
    if t != "" then t else DefaultType
  }

  /** The input of `resolveSourceCategory`: the trimmed category, type, subject and
      description, and the raw table of contents when it is an array or a string. */
  function CategoryData(doc: LegacyDoc): MaterialDisplay.MaterialDisplayData {
    var toc := if doc.ebookToc.Arr? || doc.ebookToc.Str? then doc.ebookToc else Null;
    MaterialDisplay.MaterialDisplayData(
      Str(ApiHelpers.NormalizeText(doc.sourceCategory)), Str(NormalizedType(doc)), Undefined, Undefined,
      Str(ApiHelpers.NormalizeText(doc.ebookDescription)), toc, Undefined, Undefined,
      Str(ApiHelpers.NormalizeText(doc.subject)), Undefined, None, None, None)
  }

  function CategoryOfDoc(doc: LegacyDoc): SourceCategory {
    MaterialDisplay.ResolveSourceCategory(CategoryData(doc))
  }

  datatype Grading = Grading(difficulty: int, difficultyRating: int)

  /** The stored difficulty read as an integer (3 when unreadable), and 3 again when it
      is outside 1 to 5. */
  function DifficultyOf(v: JsValue): (d: int)
    ensures 1 <= d <= 5
    ensures 1 <= ScriptArgs.ToInt(v, 3) <= 5 ==> d == ScriptArgs.ToInt(v, 3)
    ensures !(1 <= ScriptArgs.ToInt(v, 3) <= 5) ==> d == 3
  {
    var d := ScriptArgs.ToInt(v, 3);
    if d < 1 || d > 5 then 3 else d
  }

  /** `DIFFICULTY_RATING_MAP[difficulty] || 1000`. */
  function RatingOfDifficulty(d: int): (r: int)
    ensures 1 <= d <= 5 ==> r == DifficultyRatings[d - 1]
    ensures !(1 <= d <= 5) ==> r == 1000
  {
    if 1 <= d <= 5 then DifficultyRatings[d - 1] else 1000
  }

  /** The stored rating when it lies in 100 to 3000; otherwise the rating of the difficulty. */
  function GradingOf(doc: LegacyDoc): (g: Grading)
    ensures 1 <= g.difficulty <= 5 && 100 <= g.difficultyRating <= 3000
    ensures 100 <= ScriptArgs.ToInt(doc.difficultyRating, 0) <= 3000 ==> g.difficultyRating == ScriptArgs.ToInt(doc.difficultyRating, 0)
    ensures !(100 <= ScriptArgs.ToInt(doc.difficultyRating, 0) <= 3000) ==> g.difficultyRating == DifficultyRatings[g.difficulty - 1]
  {
    var difficulty := DifficultyOf(doc.difficulty);
    var raw := ScriptArgs.ToInt(doc.difficultyRating, 0);
    Grading(difficulty, if 100 <= raw <= 3000 then raw else RatingOfDifficulty(difficulty))
  }

  /** Harder material gets a higher default rating. */
  lemma DefaultRatingIncreases(a: int, b: int)
    requires 1 <= a < b <= 5
    ensures RatingOfDifficulty(a) < RatingOfDifficulty(b)
  {
  }

  datatype Pricing = Pricing(isFree: bool, priceProblem: int, priceEtc: int)

  /** Free when the stored flag is truthy or both prices read as 0; a free material has
      both prices 0 and a paid one keeps its prices, at least one of them positive. */
  function PricingOf(doc: LegacyDoc): (p: Pricing)
    ensures p.priceProblem >= 0 && p.priceEtc >= 0
    ensures p.isFree <==>
      Truthy(doc.isFree) || (ScriptArgs.ToNonNegativeInt(doc.priceProblem, 0) == 0 && ScriptArgs.ToNonNegativeInt(doc.priceEtc, 0) == 0)
    ensures p.isFree ==> p.priceProblem == 0 && p.priceEtc == 0
    ensures !p.isFree ==>
      p.priceProblem == ScriptArgs.ToNonNegativeInt(doc.priceProblem, 0) && p.priceEtc == ScriptArgs.ToNonNegativeInt(doc.priceEtc, 0) && p.priceProblem + p.priceEtc > 0
  {
    var problem := ScriptArgs.ToNonNegativeInt(doc.priceProblem, 0);
    var etc := ScriptArgs.ToNonNegativeInt(doc.priceEtc, 0);
    var isFree := Truthy(doc.isFree) || (problem == 0 && etc == 0);
    Pricing(isFree, if isFree then 0 else problem, if isFree then 0 else etc)
  }

  datatype SchoolFields = SchoolFields(
    schoolLevel: string,
    gradeNumber: int,
    year: int,
    semester: int,
    period: string,
    schoolName: string,
    regionSido: string,
    regionGugun: string)

  /** An ebook has no school level, grade, semester or period; anything else has a level
      (high school by default), a grade and a semester of at least 1. Only a school exam
      keeps its school and region. The year is at least 2000, the current one by default. */
  function SchoolOf(doc: LegacyDoc, category: SourceCategory, nowYear: int): (s: SchoolFields)
    ensures category == Ebook ==> s.schoolLevel == "" && s.gradeNumber == 0 && s.semester == 0 && s.period == ""
    ensures category != Ebook ==>
      s.schoolLevel != "" && s.gradeNumber >= 1 && s.semester >= 1 && s.period == ApiHelpers.NormalizeText(doc.period)
    ensures category != SchoolExam ==> s.schoolName == "" && s.regionSido == "" && s.regionGugun == ""
    ensures category == SchoolExam ==>
      s.schoolName == ApiHelpers.NormalizeText(doc.schoolName) && s.regionSido == ApiHelpers.NormalizeText(doc.regionSido) && s.regionGugun == ApiHelpers.NormalizeText(doc.regionGugun)
    ensures s.year >= 2000
    ensures ScriptArgs.ToInt(doc.year, nowYear) >= 2000 ==> s.year == ScriptArgs.ToInt(doc.year, nowYear)
  {
    var ebook := category == Ebook;
    var exam := category == SchoolExam;
    var level := ApiHelpers.NormalizeText(doc.schoolLevel);
    var grade := ScriptArgs.ToInt(doc.gradeNumber, 2);
    var semester := ScriptArgs.ToInt(doc.semester, 1);
    var year := ScriptArgs.ToInt(doc.year, nowYear);
    SchoolFields(
      if ebook then "" else if level != "" then level else DefaultSchoolLevel,
      if ebook then 0 else if grade < 1 then 1 else grade,
      if year < 2000 then 2000 else year,
      if ebook then 0 else if semester < 1 then 1 else semester,
      if ebook then "" else ApiHelpers.NormalizeText(doc.period),
      if exam then ApiHelpers.NormalizeText(doc.schoolName) else "",
      if exam then ApiHelpers.NormalizeText(doc.regionSido) else "",
      if exam then ApiHelpers.NormalizeText(doc.regionGugun) else "")
  }

  datatype ContentFields = ContentFields(
    subject: string,
    topic: string,
    publisher: string,
    bookTitle: string,
    ebookDescription: string,
    ebookToc: seq<string>)

  /** The trimmed topic, or the trimmed unit when the topic is blank. */
  function TopicOf(doc: LegacyDoc): string {
    var topic := ApiHelpers.NormalizeText(doc.topic);
    if topic != "" then topic else ApiHelpers.NormalizeText(doc.unit)
  }

  /** An ebook is filed under the subject 전자책, keeps its description and table of
      contents, and takes its topic (or unit) as title when it has none; anything else
      keeps its subject and title and has no ebook fields. */
  function ContentOf(doc: LegacyDoc, category: SourceCategory): (r: ContentFields)
    ensures r.topic == TopicOf(doc) && r.publisher == ApiHelpers.NormalizeText(doc.publisher)
    ensures category == Ebook ==>
      r.subject == EbookSubject && r.ebookDescription == ApiHelpers.NormalizeText(doc.ebookDescription)
      && r.ebookToc == NormalizeEbookToc(doc.ebookToc)
      && (r.bookTitle == "" <==> ApiHelpers.NormalizeText(doc.bookTitle) == "" && TopicOf(doc) == "")
    ensures category != Ebook ==>
      r.subject == ApiHelpers.NormalizeText(doc.subject) && r.bookTitle == ApiHelpers.NormalizeText(doc.bookTitle) && r.ebookDescription == "" && r.ebookToc == []
  {
    var ebook := category == Ebook;
    var topic := TopicOf(doc);
    var title := ApiHelpers.NormalizeText(doc.bookTitle);
    var topicFallback := if topic != "" then topic else title;
    ContentFields(
      if ebook then EbookSubject else ApiHelpers.NormalizeText(doc.subject),
      topic,
      ApiHelpers.NormalizeText(doc.publisher),
      if ebook then (if title != "" then title else topicFallback) else title,
      if ebook then ApiHelpers.NormalizeText(doc.ebookDescription) else "",
      if ebook then NormalizeEbookToc(doc.ebookToc) else [])
  }

  /** Kept previews: the trimmed, non-empty string entries of an array, at most two, and
      only under `--keep-previews`. */
  function PreviewsOf(v: JsValue, keep: bool): (r: seq<string>)
    ensures |r| <= MaxPreviews
    ensures forall i :: 0 <= i < |r| ==> Clean(r[i])
    ensures !keep || !v.Arr? ==> r == []
  {
    if keep && v.Arr? then Take(TrimmedTexts(StringItems(v.items)), MaxPreviews) else []
  }

  /** The stored page count (0 unless a non-negative integer), or under
      `--compute-page-count` the count of the problem file, else of the other file, with
      0 for a file without one. */
  function PageCountOf(doc: LegacyDoc, compute: bool, countPages: Option<string> -> Option<int>,
                       problemFile: Option<string>, etcFile: Option<string>): (n: int)
    ensures !compute ==> n == ScriptArgs.ToNonNegativeInt(doc.pageCount, 0) && n >= 0
    ensures compute && problemFile.Some? ==> n == (match countPages(problemFile) case Some(k) => k case None => 0)
    ensures compute && problemFile.None? ==> n == (match countPages(etcFile) case Some(k) => k case None => 0)
    ensures compute && countPages(if problemFile.Some? then problemFile else etcFile).None? ==> n == 0
  {
    if compute then
      match countPages(if problemFile.Some? then problemFile else etcFile)
      case Some(k) => k
      case None => 0
    else ScriptArgs.ToNonNegativeInt(doc.pageCount, 0)
  }

  datatype FileFields = FileFields(
    problemFile: Option<string>,
    etcFile: Option<string>,
    fileType: FileType,
    targetAudience: TargetAudience,
    previewImages: seq<string>,
    pageCount: int)

  /** The `$set` document of one material, its fields grouped as above. */
  datatype MaterialSet = MaterialSet(
    uploaderId: string,
    curriculum: Curriculum,
    sourceCategory: SourceCategory,
    materialType: string,
    content: ContentFields,
    school: SchoolFields,
    grading: Grading,
    files: FileFields,
    pricing: Pricing,
    teacherProductType: string,
    teacherClassPrepType: string,
    viewCount: int,
    downloadCount: int,
    likeCount: int,
    isActive: bool,
    updatedAt: int)

  /** One converted document with what the counters need. */
  datatype Conversion = Conversion(
    materialId: string,
    generatedId: bool,
    fields: MaterialSet,
    createdAt: int,
    problem: FileCheck,
    etc: FileCheck)

  /** `toDate(doc.createdAt) || new Date()`: the stored creation time when it reads
      as a date, else the time of the run. */
  function CreatedAtOf(doc: LegacyDoc, host: Host): (t: int)
    ensures host.toDate(doc.createdAt).None? ==> t == host.now
    ensures host.toDate(doc.createdAt).Some? ==> t == host.toDate(doc.createdAt).value
  {
    match host.toDate(doc.createdAt)
    case Some(t) => t
    case None => host.now
  }

  /** `toDate(doc.updatedAt) || createdAt`: the stored update time when it reads as a
      date, else the creation time. */
  function UpdatedAtOf(doc: LegacyDoc, host: Host): (t: int)
    ensures host.toDate(doc.updatedAt).None? ==> t == CreatedAtOf(doc, host)
    ensures host.toDate(doc.updatedAt).Some? ==> t == host.toDate(doc.updatedAt).value
  {
    match host.toDate(doc.updatedAt)
    case Some(t) => t
    case None => CreatedAtOf(doc, host)
  }

  /** A document with no readable dates is stamped with the time of the run on both
      fields; one with only a creation date gets it as its update time too. */
  lemma TimestampFallbacks(doc: LegacyDoc, cfg: Config, host: Host, k: nat)
    ensures var r := Convert(doc, cfg, host, k);
      host.toDate(doc.updatedAt).None? ==> r.fields.updatedAt == r.createdAt
    ensures var r := Convert(doc, cfg, host, k);
      host.toDate(doc.createdAt).None? && host.toDate(doc.updatedAt).None? ==>
        r.createdAt == host.now && r.fields.updatedAt == host.now
  {
  }

  /** The loop body's conversion of one legacy document; `k` is the number of ids
      generated before it. */
  function Convert(doc: LegacyDoc, cfg: Config, host: Host, k: nat): (r: Conversion)
    ensures r.materialId == MaterialIdOf(doc, host.randomId, k)
    ensures r.generatedId <==> ApiHelpers.NormalizeText(doc.materialId) == ""
    ensures Outcomes(r.problem) <= 1 && Outcomes(r.etc) <= 1
    ensures r.fields.sourceCategory == CategoryOfDoc(doc)
    ensures r.fields.materialType == NormalizedType(doc)
    ensures r.fields.content == ContentOf(doc, CategoryOfDoc(doc))
    ensures r.createdAt == CreatedAtOf(doc, host) && r.fields.updatedAt == UpdatedAtOf(doc, host)
  {
    var category := CategoryOfDoc(doc);
    var content := ContentOf(doc, category);
    var problem := CheckFile(doc.problemFile, cfg.strictFileExists, host.fileExists);
    var etc := CheckFile(doc.etcFile, cfg.strictFileExists, host.fileExists);
    var fileType := InferFileType(doc.fileType, problem.file, etc.file);
    var uploader := ApiHelpers.NormalizeText(doc.uploaderId);
    var files := FileFields(
      problem.file, etc.file, fileType, NormalizeTargetAudience(doc.targetAudience, fileType),
      PreviewsOf(doc.previewImages, cfg.keepPreviews),
      PageCountOf(doc, cfg.computePageCount, host.pageCount, problem.file, etc.file));
    var m := MaterialSet(
      if uploader != "" then uploader else DefaultUploader,
      NormalizeCurriculum(doc.curriculum, category, content.subject, host.curriculumFromSubject),
      category,
      NormalizedType(doc),
      content,
      SchoolOf(doc, category, host.nowYear),
      GradingOf(doc),
      files,
      PricingOf(doc),
      "", "",
      ScriptArgs.ToNonNegativeInt(doc.viewCount, 0),
      ScriptArgs.ToNonNegativeInt(doc.downloadCount, 0),
      ScriptArgs.ToNonNegativeInt(doc.likeCount, 0),
      if doc.isActive.Bool? then doc.isActive.b else true,
      UpdatedAtOf(doc, host));
    Conversion(MaterialIdOf(doc, host.randomId, k), ApiHelpers.NormalizeText(doc.materialId) == "", m,
      CreatedAtOf(doc, host), problem, etc)
  }

  /** The converted material as the display code reads it back. */
  function StoredData(m: MaterialSet): MaterialDisplay.MaterialDisplayData {
    MaterialDisplay.MaterialDisplayData(
      Str(CategoryName(m.sourceCategory)), Str(m.materialType), Str(m.content.publisher),
      Str(m.content.bookTitle), Str(m.content.ebookDescription), TextArray(m.content.ebookToc),
      Str(m.school.schoolName), Str(m.school.schoolLevel), Str(m.content.subject), Str(m.content.topic),
      Some(m.school.year), Some(m.school.gradeNumber), Some(m.school.semester))
  }

  /** The stored category is the one the display code derives from the stored document,
      so a later category repair leaves converted materials alone. `Convert` builds its
      result with exactly this category, type and content. */
  lemma ConvertedCategoryStable(doc: LegacyDoc, m: MaterialSet)
    requires m.sourceCategory == CategoryOfDoc(doc) && m.materialType == NormalizedType(doc)
    requires m.content == ContentOf(doc, CategoryOfDoc(doc))
    ensures MaterialDisplay.ResolveSourceCategory(StoredData(m)) == m.sourceCategory
  {
    var c := m.sourceCategory;
    var before := CategoryData(doc);
    var after := StoredData(m);
    StoredTypeKept(doc, m);
    if c == Ebook {
      EbookWordPlain();
      assert after.subject == Str(EbookSubject);
    } else {
      StoredNonEbookFields(doc, m);
    }
    StoredCategoryFixed(before, after, c);
  }

  /** The stored type reads back as the type the category was derived from. */
  lemma StoredTypeKept(doc: LegacyDoc, m: MaterialSet)
    requires m.materialType == NormalizedType(doc)
    ensures MaterialDisplay.TypeText(StoredData(m)) == MaterialDisplay.TypeText(CategoryData(doc))
  {
    var t := NormalizedType(doc);
    TrimPlain(t);
    assert ApiHelpers.NormalizeText(Str(t)) == t;
  }

  /** Outside the ebook category the stored subject reads back as the trimmed one and
      the ebook fields are empty. */
  lemma StoredNonEbookFields(doc: LegacyDoc, m: MaterialSet)
    requires m.sourceCategory != Ebook && m.content == ContentOf(doc, m.sourceCategory)
    ensures ApiHelpers.NormalizeText(StoredData(m).subject) == ApiHelpers.NormalizeText(CategoryData(doc).subject)
    ensures ApiHelpers.NormalizeText(StoredData(m).ebookDescription) == "" && StoredData(m).ebookToc == Arr([])
  {
    ApiHelpers.NormalizeTextIdempotent(doc.subject);
    assert ApiHelpers.NormalizeText(Str("")) == "";
  }

  /** A document that stores the name of another's category, with the same type, the
      ebook word as subject when that category is ebook, and otherwise the same subject
      and no ebook fields, resolves to the same category. */
  lemma StoredCategoryFixed(before: MaterialDisplay.MaterialDisplayData, after: MaterialDisplay.MaterialDisplayData,
                            c: SourceCategory)
    requires c == MaterialDisplay.ResolveSourceCategory(before)
    requires MaterialDisplay.TypeText(after) == MaterialDisplay.TypeText(before)
    requires after.sourceCategory == Str(CategoryName(c))
    requires c == Ebook ==> ApiHelpers.NormalizeText(after.subject) == EbookSubject
    requires c != Ebook ==>
      ApiHelpers.NormalizeText(after.subject) == ApiHelpers.NormalizeText(before.subject)
      && ApiHelpers.NormalizeText(after.ebookDescription) == "" && after.ebookToc == Arr([])
    ensures MaterialDisplay.ResolveSourceCategory(after) == c
  {
    if c == Ebook {
      EbookWordPlain();
      assert MaterialDisplay.HasEbookHint(after);
    } else {
      assert !MaterialDisplay.HasEbookHint(before);
      assert !HasNonEmptyEbookToc(after.ebookToc);
      assert !MaterialDisplay.HasEbookHint(after);
      NormalizeCategoryName(c);
    }
  }

  // ---------------------------------------------------------------- the run

  datatype Stats = Stats(
    scanned: nat,
    converted: nat,
    autoGeneratedMaterialId: nat,
    missingProblemFile: nat,
    missingEtcFile: nat,
    invalidProblemFileExt: nat,
    invalidEtcFileExt: nat,
    ebookCount: nat,
    problemFileCount: nat,
    etcFileCount: nat,
    previewResetCount: nat)

  /** The counters after one more converted document. */
  function Counted(s: Stats, r: Conversion, keepPreviews: bool): Stats {
    Stats(
      s.scanned + 1,
      s.converted + 1,
      s.autoGeneratedMaterialId + Flag(r.generatedId),
      s.missingProblemFile + Flag(r.problem.missing),
      s.missingEtcFile + Flag(r.etc.missing),
      s.invalidProblemFileExt + Flag(r.problem.invalidExt),
      s.invalidEtcFileExt + Flag(r.etc.invalidExt),
      s.ebookCount + Flag(r.fields.sourceCategory == Ebook),
      s.problemFileCount + Flag(r.problem.file.Some?),
      s.etcFileCount + Flag(r.etc.file.Some?),
      s.previewResetCount + Flag(!keepPreviews))
  }

  /** The counters after the given conversions. */
  function Tally(convs: seq<Conversion>, keepPreviews: bool): Stats {
    if convs == [] then Stats(0, 0, 0, 0, 0, 0, 0, 0, 0, 0, 0)
    else Counted(Tally(convs[..|convs| - 1], keepPreviews), convs[|convs| - 1], keepPreviews)
  }

  /** The conversions of a run, in scan order: each document gets the number of ids
      generated before it. */
  function Conversions(docs: seq<LegacyDoc>, cfg: Config, host: Host): (r: seq<Conversion>)
    ensures |r| == |docs|
  {
    if docs == [] then []
    else
      var before := Conversions(docs[..|docs| - 1], cfg, host);
      before + [Convert(docs[|docs| - 1], cfg, host, Tally(before, cfg.keepPreviews).autoGeneratedMaterialId)]
  }

  /** Every document is converted; each file field is counted at most once, as kept, as
      missing or as invalid; previews are reset for every document unless kept. */
  lemma {:induction false} TallyBounds(convs: seq<Conversion>, keepPreviews: bool)
    requires OutcomesAtMostOne(convs)
    ensures var s := Tally(convs, keepPreviews);
      s.scanned == |convs| && s.converted == |convs|
      && s.problemFileCount + s.missingProblemFile + s.invalidProblemFileExt <= |convs|
      && s.etcFileCount + s.missingEtcFile + s.invalidEtcFileExt <= |convs|
      && s.ebookCount <= |convs| && s.autoGeneratedMaterialId <= |convs|
      && s.previewResetCount == if keepPreviews then 0 else |convs|
  {
    if convs != [] {
      var init := convs[..|convs| - 1];
      assert OutcomesAtMostOne(init) by {
        forall i | 0 <= i < |init|
          ensures Outcomes(init[i].problem) <= 1 && Outcomes(init[i].etc) <= 1
        {
          assert init[i] == convs[i];
        }
      }
      TallyBounds(init, keepPreviews);
      assert Outcomes(convs[|convs| - 1].problem) <= 1;
    }
  }

  /** The last document of a run is converted with the number of ids generated before it. */
  lemma ConversionsSnoc(docs: seq<LegacyDoc>, cfg: Config, host: Host)
    requires docs != []
    ensures var before := Conversions(docs[..|docs| - 1], cfg, host);
      Conversions(docs, cfg, host) ==
      before + [Convert(docs[|docs| - 1], cfg, host, Tally(before, cfg.keepPreviews).autoGeneratedMaterialId)]
  {
  }

  predicate OutcomesAtMostOne(convs: seq<Conversion>) {
    forall i :: 0 <= i < |convs| ==> Outcomes(convs[i].problem) <= 1 && Outcomes(convs[i].etc) <= 1
  }

  lemma OutcomesSnoc(before: seq<Conversion>, r: Conversion)
    requires OutcomesAtMostOne(before) && Outcomes(r.problem) <= 1 && Outcomes(r.etc) <= 1
    ensures OutcomesAtMostOne(before + [r])
  {
    var convs := before + [r];
    forall i | 0 <= i < |convs|
      ensures Outcomes(convs[i].problem) <= 1 && Outcomes(convs[i].etc) <= 1
    {
      if i < |before| {
        assert convs[i] == before[i];
      }
    }
  }

  /** The run over the first i + 1 documents extends the run over the first i. */
  lemma ConversionsStep(docs: seq<LegacyDoc>, i: nat, cfg: Config, host: Host)
    requires i < |docs|
    ensures var before := Conversions(docs[..i], cfg, host);
      Conversions(docs[..i + 1], cfg, host) ==
      before + [Convert(docs[i], cfg, host, Tally(before, cfg.keepPreviews).autoGeneratedMaterialId)]
  {
    ScriptArgs.PrefixOfPrefix(docs, i);
    ConversionsSnoc(docs[..i + 1], cfg, host);
  }

  /** Every conversion of a run records at most one outcome per file field. */
  lemma {:induction false} ConversionsOutcomes(docs: seq<LegacyDoc>, cfg: Config, host: Host)
    ensures OutcomesAtMostOne(Conversions(docs, cfg, host))
  {
    if docs != [] {
      var init := docs[..|docs| - 1];
      ConversionsOutcomes(init, cfg, host);
      ConversionsSnoc(docs, cfg, host);
      var before := Conversions(init, cfg, host);
      OutcomesSnoc(before, Convert(docs[|docs| - 1], cfg, host, Tally(before, cfg.keepPreviews).autoGeneratedMaterialId));
    }
  }

  /** The number of documents whose material id is blank. */
  function BlankIds(docs: seq<LegacyDoc>): nat {
    if docs == [] then 0
    else BlankIds(docs[..|docs| - 1]) + Flag(ApiHelpers.NormalizeText(docs[|docs| - 1].materialId) == "")
  }

  /** Each conversion's id was generated exactly when its document's id is blank. */
  predicate GeneratedForBlank(convs: seq<Conversion>, docs: seq<LegacyDoc>) {
    |convs| == |docs| &&
    forall i :: 0 <= i < |convs| ==> (convs[i].generatedId <==> ApiHelpers.NormalizeText(docs[i].materialId) == "")
  }

  lemma GeneratedForBlankSnoc(before: seq<Conversion>, docs: seq<LegacyDoc>, r: Conversion)
    requires docs != [] && GeneratedForBlank(before, docs[..|docs| - 1])
    requires r.generatedId <==> ApiHelpers.NormalizeText(docs[|docs| - 1].materialId) == ""
    ensures GeneratedForBlank(before + [r], docs)
  {
    var convs := before + [r];
    forall i | 0 <= i < |convs|
      ensures convs[i].generatedId <==> ApiHelpers.NormalizeText(docs[i].materialId) == ""
    {
      if i < |before| {
        assert convs[i] == before[i] && docs[i] == docs[..|docs| - 1][i];
      }
    }
  }

  lemma {:induction false} ConversionsGenerated(docs: seq<LegacyDoc>, cfg: Config, host: Host)
    ensures GeneratedForBlank(Conversions(docs, cfg, host), docs)
  {
    if docs != [] {
      var init := docs[..|docs| - 1];
      ConversionsGenerated(init, cfg, host);
      ConversionsSnoc(docs, cfg, host);
      var before := Conversions(init, cfg, host);
      GeneratedForBlankSnoc(before, docs,
        Convert(docs[|docs| - 1], cfg, host, Tally(before, cfg.keepPreviews).autoGeneratedMaterialId));
    }
  }

  /** The generated-id counter counts the blank ids. */
  lemma {:induction false} TallyGenerated(convs: seq<Conversion>, docs: seq<LegacyDoc>, keepPreviews: bool)
    requires GeneratedForBlank(convs, docs)
    ensures Tally(convs, keepPreviews).autoGeneratedMaterialId == BlankIds(docs)
  {
    if convs != [] {
      var n := |convs| - 1;
      assert GeneratedForBlank(convs[..n], docs[..n]) by {
        forall i | 0 <= i < n
          ensures convs[..n][i].generatedId <==> ApiHelpers.NormalizeText(docs[..n][i].materialId) == ""
        {
          assert convs[..n][i] == convs[i] && docs[..n][i] == docs[i];
        }
      }
      TallyGenerated(convs[..n], docs[..n], keepPreviews);
      assert convs[n].generatedId <==> ApiHelpers.NormalizeText(docs[n].materialId) == "";
    }
  }

  /** Ids are generated for exactly the documents with a blank material id. */
  lemma GeneratedCount(docs: seq<LegacyDoc>, cfg: Config, host: Host)
    ensures Tally(Conversions(docs, cfg, host), cfg.keepPreviews).autoGeneratedMaterialId == BlankIds(docs)
  {
    ConversionsGenerated(docs, cfg, host);
    TallyGenerated(Conversions(docs, cfg, host), docs, cfg.keepPreviews);
  }

  /** The id generated for a document with a blank material id is `legacy-` and the
      random id numbered by how many blank ids came before it. */
  lemma GeneratedIdOfLast(docs: seq<LegacyDoc>, cfg: Config, host: Host)
    requires docs != [] && ApiHelpers.NormalizeText(docs[|docs| - 1].materialId) == ""
    ensures Conversions(docs, cfg, host)[|docs| - 1].materialId == GeneratedIdPrefix + host.randomId(BlankIds(docs[..|docs| - 1]))
  {
    var init := docs[..|docs| - 1];
    var before := Conversions(init, cfg, host);
    var k := Tally(before, cfg.keepPreviews).autoGeneratedMaterialId;
    assert k == BlankIds(init) by {
      GeneratedCount(init, cfg, host);
    }
    var r := Convert(docs[|docs| - 1], cfg, host, k);
    assert Conversions(docs, cfg, host)[|docs| - 1] == r by {
      ConversionsSnoc(docs, cfg, host);
      assert (before + [r])[|before|] == r;
    }
  }

  /** What the dry-run report shows of one converted document. */
  datatype Sample = Sample(
    materialId: string,
    sourceCategory: SourceCategory,
    fileType: FileType,
    topic: string,
    problemFile: Option<string>,
    etcFile: Option<string>)

  /** `updateOne({ filter: { materialId }, update: { $set: fields, $setOnInsert:
      { materialId, createdAt } }, upsert: true })`. */
  datatype Upsert = Upsert(materialId: string, fields: MaterialSet, createdAtOnInsert: int)

  function SampleOf(r: Conversion): Sample {
    Sample(r.materialId, r.fields.sourceCategory, r.fields.files.fileType, r.fields.content.topic,
      r.fields.files.problemFile, r.fields.files.etcFile)
  }

  /** The samples a run keeps: the first `limit` conversions. */
  function Samples(convs: seq<Conversion>, limit: nat): (r: seq<Sample>)
    ensures |r| == if |convs| < limit then |convs| else limit
    ensures forall i :: 0 <= i < |r| ==> r[i] == SampleOf(convs[i])
  {
    var n := if |convs| < limit then |convs| else limit;
    seq(n, i requires 0 <= i < n => SampleOf(convs[i]))
  }

  function Operations(convs: seq<Conversion>): (ops: seq<Upsert>)
    ensures |ops| == |convs|
    ensures forall i :: 0 <= i < |convs| ==> ops[i] == Upsert(convs[i].materialId, convs[i].fields, convs[i].createdAt)
  {
    seq(|convs|, i requires 0 <= i < |convs| => Upsert(convs[i].materialId, convs[i].fields, convs[i].createdAt))
  }

  /** One more conversion adds a sample only while fewer than `limit` are kept, and one
      more operation. */
  lemma ConversionSnoc(convs: seq<Conversion>, r: Conversion, limit: nat)
    ensures Samples(convs + [r], limit) == if |convs| < limit then Samples(convs, limit) + [SampleOf(r)] else Samples(convs, limit)
    ensures Operations(convs + [r]) == Operations(convs) + [Upsert(r.materialId, r.fields, r.createdAt)]
  {
    var a, b := Samples(convs + [r], limit), (if |convs| < limit then Samples(convs, limit) + [SampleOf(r)] else Samples(convs, limit));
    assert |a| == |b|;
    forall i | 0 <= i < |a|
      ensures a[i] == b[i]
    {
      assert (convs + [r])[i] == if i < |convs| then convs[i] else r;
    }
  }

  datatype Report = Report(stats: Stats, samples: seq<Sample>, written: seq<Upsert>, writes: nat)

  /** `main` over the documents the source query yields (at most `--limit` of them). */
  method Run(docs: seq<LegacyDoc>, cfg: Config, host: Host) returns (report: Report)
    ensures var convs := Conversions(ScriptArgs.Limited(docs, cfg.limit), cfg, host);
      report.stats == Tally(convs, cfg.keepPreviews)
      && report.samples == Samples(convs, cfg.drySample)
      && report.written == (if cfg.apply then Operations(convs) else [])
    ensures report.writes == (|report.written| + BatchSize - 1) / BatchSize
  {
    var writer := new Bulk.BulkWriter<Upsert>(BatchSize);
    var stats, samples := ScanAll(ScriptArgs.Limited(docs, cfg.limit), cfg, host, writer);
    if cfg.apply {
      writer.Close();
    }
    report := Report(stats, samples, writer.written, writer.writes);
  }

  /** The scan loop: every document converted, counted, sampled and, when applying,
      pushed to the writer. */
  method ScanAll(batch: seq<LegacyDoc>, cfg: Config, host: Host, writer: Bulk.BulkWriter<Upsert>)
    returns (stats: Stats, samples: seq<Sample>)
    requires writer.Valid() && writer.batchSize == BatchSize && writer.Pushed() == []
    modifies writer
    ensures stats == Tally(Conversions(batch, cfg, host), cfg.keepPreviews)
    ensures samples == Samples(Conversions(batch, cfg, host), cfg.drySample)
    ensures writer.Valid() && writer.batchSize == BatchSize
    ensures writer.Pushed() == if cfg.apply then Operations(Conversions(batch, cfg, host)) else []
  {
    stats := Stats(0, 0, 0, 0, 0, 0, 0, 0, 0, 0, 0);
    samples := [];
    ghost var done: seq<Conversion> := [];
    for i := 0 to |batch|
      invariant done == Conversions(batch[..i], cfg, host)
      invariant stats == Tally(done, cfg.keepPreviews) && samples == Samples(done, cfg.drySample)
      invariant writer.Valid() && writer.batchSize == BatchSize
      invariant writer.Pushed() == if cfg.apply then Operations(done) else []
    {
      ConversionsStep(batch, i, cfg, host);
      stats, samples, done := Scan(batch[i], cfg, host, writer, stats, samples, done);
    }
    ScriptArgs.WholePrefix(batch);
  }

  /** The loop body for one document: converted with the number of ids generated so far,
      counted, sampled while fewer than `--sample` are kept, and pushed when applying. */
  method Scan(doc: LegacyDoc, cfg: Config, host: Host, writer: Bulk.BulkWriter<Upsert>,
              stats: Stats, samples: seq<Sample>, ghost done: seq<Conversion>)
    returns (stats': Stats, samples': seq<Sample>, ghost done': seq<Conversion>)
    requires stats == Tally(done, cfg.keepPreviews) && samples == Samples(done, cfg.drySample)
    requires writer.Valid() && writer.batchSize == BatchSize
    requires writer.Pushed() == if cfg.apply then Operations(done) else []
    modifies writer
    ensures done' == done + [Convert(doc, cfg, host, stats.autoGeneratedMaterialId)]
    ensures stats' == Tally(done', cfg.keepPreviews) && samples' == Samples(done', cfg.drySample)
    ensures writer.Valid() && writer.batchSize == BatchSize
    ensures writer.Pushed() == if cfg.apply then Operations(done') else []
  {
    var r := Convert(doc, cfg, host, stats.autoGeneratedMaterialId);
    stats', samples' := Record(r, cfg, stats, samples, done);
    done' := done + [r];
    Emit(writer, cfg.apply, done, r);
  }

  /** The counters and samples after one more conversion. */
  method Record(r: Conversion, cfg: Config, stats: Stats, samples: seq<Sample>, ghost done: seq<Conversion>)
    returns (stats': Stats, samples': seq<Sample>)
    requires stats == Tally(done, cfg.keepPreviews) && samples == Samples(done, cfg.drySample)
    ensures stats' == Tally(done + [r], cfg.keepPreviews) && samples' == Samples(done + [r], cfg.drySample)
  {
    ConversionSnoc(done, r, cfg.drySample);
    assert (done + [r])[..|done|] == done;
    stats' := Counted(stats, r, cfg.keepPreviews);
    samples' := samples;
    if |samples| < cfg.drySample {
      samples' := samples + [SampleOf(r)];
    }
  }

  /** The write for one conversion: queued only when applying. */
  method Emit(writer: Bulk.BulkWriter<Upsert>, apply: bool, ghost done: seq<Conversion>, r: Conversion)
    requires writer.Valid() && writer.batchSize == BatchSize
    requires writer.Pushed() == if apply then Operations(done) else []
    modifies writer
    ensures writer.Valid() && writer.batchSize == BatchSize
    ensures writer.Pushed() == if apply then Operations(done + [r]) else []
  {
    ConversionSnoc(done, r, 0);
    if apply {
      writer.Push(Upsert(r.materialId, r.fields, r.createdAt));
    }
  }
}
