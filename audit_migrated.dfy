/**
 * The read-only audit of migrated materials: every stored material is checked
 * for invalid enumerations, missing topic, school name or files, prices that
 * contradict the free flag, missing previews and (unless skipped) file
 * references that point nowhere; counters, two distributions and per-finding
 * sample buckets of bounded size are reported.
 */
module AuditMigrated {
  import opened JsCore
  import opened JsText
  import opened Optional
  import opened MaterialCatalog
  import ApiHelpers
  import ScriptArgs
  import Assoc
  import MigrateLegacy

  const DefaultUri := "mongodb://localhost:27017/dre-edu"
  const EmptyLabel := "(empty)"

  // ---------------------------------------------------------------- configuration

  datatype Config = Config(
    uri: string,
    dbName: string,
    collection: string,
    sample: nat,
    skipFileCheck: bool,
    outFile: Option<string>)

  /** `parseConfig`: the address from `--uri`, then `MONGODB_URI`, then the local default;
      the database from `--db`, then `TARGET_DB_NAME`, then the address's last segment. */
  function ParseConfig(argv: seq<string>, env: map<string, string>): (cfg: Config)
    ensures cfg.uri != "" && cfg.dbName != "" && cfg.collection != "" && cfg.sample > 0
    ensures cfg.skipFileCheck <==> "--skip-file-check" in argv
    ensures cfg.outFile == ScriptArgs.GetArgValue(argv, "--out")
    ensures ScriptArgs.GetArgValue(argv, "--uri").Some? && ScriptArgs.GetArgValue(argv, "--uri").value != "" ==>
      cfg.uri == ScriptArgs.GetArgValue(argv, "--uri").value
    ensures ScriptArgs.GetArgValue(argv, "--db").Some? && ScriptArgs.GetArgValue(argv, "--db").value != "" ==>
      cfg.dbName == ScriptArgs.GetArgValue(argv, "--db").value
  {
    var uri := ScriptArgs.FirstText([ScriptArgs.GetArgValue(argv, "--uri"), ScriptArgs.EnvValue(env, "MONGODB_URI")], DefaultUri);
    Config(
      uri,
      ScriptArgs.FirstText([ScriptArgs.GetArgValue(argv, "--db"), ScriptArgs.EnvValue(env, "TARGET_DB_NAME")],
        ScriptArgs.ParseDbNameFromUri(uri, "dre-edu")),
      ScriptArgs.FirstText([ScriptArgs.GetArgValue(argv, "--collection")], "materials"),
      ScriptArgs.ParsePositiveIntArg(ScriptArgs.GetArgValue(argv, "--sample"), 20),
      ScriptArgs.HasFlag(argv, "--skip-file-check"),
      ScriptArgs.GetArgValue(argv, "--out"))
  }

  /** With no options and no environment the audit reads `dre-edu.materials`, sampling 20,
      with the file check on. */
  lemma DefaultConfig()
    ensures ParseConfig([], map[]) == Config(DefaultUri, "dre-edu", "materials", 20, false, None)
  {
    ScriptArgs.DbNameOfPlainUri("mongodb://localhost:27017", "dre-edu", "dre-edu");
    assert "mongodb://localhost:27017" + "/" + "dre-edu" == DefaultUri;
  }

  // ---------------------------------------------------------------- sample buckets

  /** The `samples` record: a list of values per finding, keys in first-use order. */
  class SampleBucket {
    var buckets: seq<(string, seq<string>)>

    /** No bucket holds more than `limit` values. */
    ghost predicate Within(limit: nat)
      reads this
    {
      forall k :: Assoc.Find(buckets, k).Some? ==> |Assoc.Find(buckets, k).value| <= limit
    }

    constructor ()
      ensures buckets == []
    {
      buckets := [];
    }

    /** `pushSample`: the bucket for `key` is created if missing; the value goes last
        unless the bucket already holds `limit` values. */
    method Push(key: string, value: string, limit: nat)
      modifies this
      ensures var before := match Assoc.Find(old(buckets), key) case Some(b) => b case None => [];
        Assoc.Find(buckets, key) == Some(if |before| >= limit then before else before + [value])
      ensures forall other :: other != key ==> Assoc.Find(buckets, other) == Assoc.Find(old(buckets), other)
      ensures old(Within(limit)) ==> Within(limit)
    {
      var current: seq<string> := [];
      match Assoc.Find(buckets, key) {
        case Some(b) => current := b;
        case None =>
          Assoc.FindPutSame(buckets, key, []);
          PutOthers(buckets, key, []);
          buckets := Assoc.Put(buckets, key, []);
      }
      if |current| >= limit {
        return;
      }
      Assoc.FindPutSame(buckets, key, current + [value]);
      PutOthers(buckets, key, current + [value]);
      buckets := Assoc.Put(buckets, key, current + [value]);
    }
  }

  lemma PutOthers(m: seq<(string, seq<string>)>, k: string, v: seq<string>)
    ensures forall other :: other != k ==> Assoc.Find(Assoc.Put(m, k, v), other) == Assoc.Find(m, other)
  {
    forall other | other != k
      ensures Assoc.Find(Assoc.Put(m, k, v), other) == Assoc.Find(m, other)
    {
      Assoc.FindPutOther(m, k, v, other);
    }
  }

  /** The values noted under `key`, in the order they were noted. */
  function Noted(notes: seq<(string, string)>, key: string): seq<string> {
    if notes == [] then []
    else Noted(notes[..|notes| - 1], key) + (if notes[|notes| - 1].0 == key then [notes[|notes| - 1].1] else [])
  }

  /** The first `n` values of `s`. */
  function First(s: seq<string>, n: nat): (r: seq<string>)
    ensures |r| <= n && r <= s
    ensures |s| <= n ==> r == s
  {
    if |s| <= n then s else s[..n]
  }

  /** The bucket `key` should hold after the pushes `notes`: none when nothing was
      noted under it, otherwise the first `limit` values noted. */
  function Sampled(notes: seq<(string, string)>, key: string, limit: nat): Option<seq<string>> {
    var all := Noted(notes, key);
    if all == [] then None else Some(First(all, limit))
  }

  /** The buckets are those the pushes `notes` produce. */
  ghost predicate SamplesMatch(buckets: seq<(string, seq<string>)>, notes: seq<(string, string)>, limit: nat) {
    forall k :: Assoc.Find(buckets, k) == Sampled(notes, k, limit)
  }

  /** One more push changes the bucket of its key as `pushSample` does, and no other. */
  lemma SampledSnoc(notes: seq<(string, string)>, key: string, value: string, limit: nat, k: string)
    ensures var before := match Sampled(notes, k, limit) case Some(b) => b case None => [];
      Sampled(notes + [(key, value)], k, limit)
        == if k == key then Some(if |before| >= limit then before else before + [value]) else Sampled(notes, k, limit)
  {
    var all := notes + [(key, value)];
    assert all[..|all| - 1] == notes;
    var prior := Noted(notes, k);
    assert Noted(all, k) == prior + (if k == key then [value] else []);
    var before := match Sampled(notes, k, limit) case Some(b) => b case None => [];
    assert before == First(prior, limit);
    if k == key {
      if |prior| >= limit {
        assert (prior + [value])[..limit] == prior[..limit];
        assert First(prior + [value], limit) == First(prior, limit);
      } else {
        assert First(prior + [value], limit) == prior + [value];
      }
    } else {
      assert Noted(all, k) == prior;
    }
  }

  /** Buckets that match the pushes hold at most `limit` values each. */
  lemma MatchWithin(buckets: seq<(string, seq<string>)>, notes: seq<(string, string)>, limit: nat)
    requires SamplesMatch(buckets, notes, limit)
    ensures forall k :: Assoc.Find(buckets, k).Some? ==> |Assoc.Find(buckets, k).value| <= limit
  {
    forall k | Assoc.Find(buckets, k).Some?
      ensures |Assoc.Find(buckets, k).value| <= limit
    {
      assert Assoc.Find(buckets, k) == Sampled(notes, k, limit);
    }
  }

  // ---------------------------------------------------------------- one document

  /** The projected fields of a stored material; `id` is the text of its `_id`. */
  datatype AuditDoc = AuditDoc(
    id: string,
    materialId: JsValue,
    sourceCategory: JsValue,
    curriculum: JsValue,
    fileType: JsValue,
    targetAudience: JsValue,
    materialType: JsValue,
    subject: JsValue,
    topic: JsValue,
    schoolName: JsValue,
    priceProblem: JsValue,
    priceEtc: JsValue,
    isFree: JsValue,
    problemFile: JsValue,
    etcFile: JsValue,
    previewImages: JsValue)

  /** The trimmed material id, or the text of `_id`. */
  function MaterialIdOf(doc: AuditDoc): string {
    var id := ApiHelpers.NormalizeText(doc.materialId);
    if id != "" then id else doc.id
  }

  /** The string entries of the preview array, trimmed, blanks dropped. */
  function PreviewsOf(doc: AuditDoc): (r: seq<string>)
    ensures forall i :: 0 <= i < |r| ==> MigrateLegacy.Clean(r[i])
    ensures !doc.previewImages.Arr? ==> r == []
  {
    if doc.previewImages.Arr? then MigrateLegacy.TrimmedTexts(MigrateLegacy.StringItems(doc.previewImages.items)) else []
  }

  /** The number of previews whose file is missing. */
  function MissingCount(previews: seq<string>, present: string -> bool): (n: nat)
    ensures n <= |previews|
    ensures n == 0 <==> forall i :: 0 <= i < |previews| ==> present(previews[i])
  {
    if previews == [] then 0
    else MissingCount(previews[..|previews| - 1], present) + (if present(previews[|previews| - 1]) then 0 else 1)
  }

  /** Where the audit looks for files: the upload directory and the preview directory. */
  datatype Host = Host(fileExists: string -> bool, previewExists: string -> bool)

  /** What the audit records of one document. */
  datatype Findings = Findings(
    invalidSourceCategory: bool,
    invalidCurriculum: bool,
    invalidFileType: bool,
    invalidTargetAudience: bool,
    missingTopic: bool,
    missingSchoolNameForSchoolExam: bool,
    missingBothFiles: bool,
    freePriceMismatch: bool,
    paidZeroPrice: bool,
    noPreviewImages: bool,
    brokenProblemFileRef: bool,
    brokenEtcFileRef: bool,
    brokenPreviewFiles: nat)

  /** The checks of the loop body, on the trimmed fields. */
  function FindingsOf(doc: AuditDoc, skipFileCheck: bool, host: Host): (f: Findings)
    ensures skipFileCheck ==> !f.brokenProblemFileRef && !f.brokenEtcFileRef && f.brokenPreviewFiles == 0
    ensures f.brokenPreviewFiles <= |PreviewsOf(doc)|
  {
    var category := ApiHelpers.NormalizeText(doc.sourceCategory);
    var problemFile := ApiHelpers.NormalizeText(doc.problemFile);
    var etcFile := ApiHelpers.NormalizeText(doc.etcFile);
    var priceProblem := ScriptArgs.AuditNonNegativeInt(doc.priceProblem, 0);
    var priceEtc := ScriptArgs.AuditNonNegativeInt(doc.priceEtc, 0);
    var isFree := Truthy(doc.isFree);
    var previews := PreviewsOf(doc);
    Findings(
      CategoryOf(category).None?,
      CurriculumOf(ApiHelpers.NormalizeText(doc.curriculum)).None?,
      FileTypeOf(ApiHelpers.NormalizeText(doc.fileType)).None?,
      AudienceOf(ApiHelpers.NormalizeText(doc.targetAudience)).None?,
      ApiHelpers.NormalizeText(doc.topic) == "",
      category == "school_exam" && ApiHelpers.NormalizeText(doc.schoolName) == "",
      problemFile == "" && etcFile == "",
      isFree && (priceProblem > 0 || priceEtc > 0),
      !isFree && priceProblem == 0 && priceEtc == 0,
      previews == [],
      !skipFileCheck && problemFile != "" && !host.fileExists(problemFile),
      !skipFileCheck && etcFile != "" && !host.fileExists(etcFile),
      if skipFileCheck then 0 else MissingCount(previews, host.previewExists))
  }

  /** A free material with a price and a paid one without are never both reported. */
  lemma PriceFindingsExclusive(doc: AuditDoc, skipFileCheck: bool, host: Host)
    ensures var f := FindingsOf(doc, skipFileCheck, host);
      !(f.freePriceMismatch && f.paidZeroPrice)
      && (f.freePriceMismatch <==> Truthy(doc.isFree) && (ScriptArgs.AuditNonNegativeInt(doc.priceProblem, 0) > 0 || ScriptArgs.AuditNonNegativeInt(doc.priceEtc, 0) > 0))
      && (f.paidZeroPrice <==> !Truthy(doc.isFree) && ScriptArgs.AuditNonNegativeInt(doc.priceProblem, 0) <= 0 && ScriptArgs.AuditNonNegativeInt(doc.priceEtc, 0) <= 0)
  {
  }

  /** A missing school name is reported only for school exams, and a broken file
      reference only for a non-blank name whose file is missing. */
  lemma FindingsScope(doc: AuditDoc, skipFileCheck: bool, host: Host)
    ensures var f := FindingsOf(doc, skipFileCheck, host);
      (f.missingSchoolNameForSchoolExam ==> ApiHelpers.NormalizeText(doc.sourceCategory) == "school_exam")
      && (f.brokenProblemFileRef <==> !skipFileCheck && ApiHelpers.NormalizeText(doc.problemFile) != "" && !host.fileExists(ApiHelpers.NormalizeText(doc.problemFile)))
      && (f.brokenEtcFileRef <==> !skipFileCheck && ApiHelpers.NormalizeText(doc.etcFile) != "" && !host.fileExists(ApiHelpers.NormalizeText(doc.etcFile)))
      && (f.brokenPreviewFiles > 0 <==> !skipFileCheck && exists i :: 0 <= i < |PreviewsOf(doc)| && !host.previewExists(PreviewsOf(doc)[i]))
  {
  }

  /** A push of `value` under `key` when `c` holds. */
  function NoteIf(c: bool, key: string, value: string): seq<(string, string)> {
    if c then [(key, value)] else []
  }

  /** `notes` followed by the pushes of the checks that read only the document, in
      the loop body's order. */
  function AfterFlags(notes: seq<(string, string)>, f: Findings, id: string): seq<(string, string)> {
    notes
    + NoteIf(f.invalidSourceCategory, "invalidSourceCategory", id)
    + NoteIf(f.invalidCurriculum, "invalidCurriculum", id)
    + NoteIf(f.invalidFileType, "invalidFileType", id)
    + NoteIf(f.invalidTargetAudience, "invalidTargetAudience", id)
    + NoteIf(f.missingTopic, "missingTopic", id)
    + NoteIf(f.missingSchoolNameForSchoolExam, "missingSchoolNameForSchoolExam", id)
    + NoteIf(f.missingBothFiles, "missingBothFiles", id)
    + NoteIf(f.freePriceMismatch, "freePriceMismatch", id)
    + NoteIf(f.paidZeroPrice, "paidZeroPrice", id)
    + NoteIf(f.noPreviewImages, "noPreviewImages", id)
  }

  /** `notes` followed by the pushes of the file checks: a broken reference is
      sampled with the file it names, a document with a missing preview by its id. */
  function AfterFiles(notes: seq<(string, string)>, doc: AuditDoc, host: Host): seq<(string, string)> {
    var f := FindingsOf(doc, false, host);
    var id := MaterialIdOf(doc);
    notes
    + NoteIf(f.brokenProblemFileRef, "brokenProblemFileRef", id + " -> " + ApiHelpers.NormalizeText(doc.problemFile))
    + NoteIf(f.brokenEtcFileRef, "brokenEtcFileRef", id + " -> " + ApiHelpers.NormalizeText(doc.etcFile))
    + NoteIf(f.brokenPreviewFiles > 0, "brokenPreviewRefDoc", id)
  }

  /** `notes` followed by every push the loop body makes for `doc`. */
  function AfterDoc(notes: seq<(string, string)>, doc: AuditDoc, skipFileCheck: bool, host: Host): seq<(string, string)> {
    var flagged := AfterFlags(notes, FindingsOf(doc, skipFileCheck, host), MaterialIdOf(doc));
    if skipFileCheck then flagged else AfterFiles(flagged, doc, host)
  }

  /** Every push of the run over `docs`, in order. */
  function AllNotes(docs: seq<AuditDoc>, skipFileCheck: bool, host: Host): seq<(string, string)> {
    if docs == [] then []
    else AfterDoc(AllNotes(docs[..|docs| - 1], skipFileCheck, host), docs[|docs| - 1], skipFileCheck, host)
  }

  // ---------------------------------------------------------------- counters

  datatype Stats = Stats(
    total: nat,
    invalidSourceCategory: nat,
    invalidCurriculum: nat,
    invalidFileType: nat,
    invalidTargetAudience: nat,
    missingTopic: nat,
    missingSchoolNameForSchoolExam: nat,
    missingBothFiles: nat,
    freePriceMismatch: nat,
    paidZeroPrice: nat,
    brokenProblemFileRef: nat,
    brokenEtcFileRef: nat,
    noPreviewImages: nat,
    brokenPreviewRefDoc: nat,
    brokenPreviewRefFileCount: nat)

  const NoStats := Stats(0, 0, 0, 0, 0, 0, 0, 0, 0, 0, 0, 0, 0, 0, 0)

  function Flag(b: bool): nat {
    if b then 1 else 0
  }

  /** The counters after one more document. */
  function Counted(s: Stats, f: Findings): Stats {
    Stats(
      s.total + 1,
      s.invalidSourceCategory + Flag(f.invalidSourceCategory),
      s.invalidCurriculum + Flag(f.invalidCurriculum),
      s.invalidFileType + Flag(f.invalidFileType),
      s.invalidTargetAudience + Flag(f.invalidTargetAudience),
      s.missingTopic + Flag(f.missingTopic),
      s.missingSchoolNameForSchoolExam + Flag(f.missingSchoolNameForSchoolExam),
      s.missingBothFiles + Flag(f.missingBothFiles),
      s.freePriceMismatch + Flag(f.freePriceMismatch),
      s.paidZeroPrice + Flag(f.paidZeroPrice),
      s.brokenProblemFileRef + Flag(f.brokenProblemFileRef),
      s.brokenEtcFileRef + Flag(f.brokenEtcFileRef),
      s.noPreviewImages + Flag(f.noPreviewImages),
      s.brokenPreviewRefDoc + Flag(f.brokenPreviewFiles > 0),
      s.brokenPreviewRefFileCount + f.brokenPreviewFiles)
  }

  /** The counters after auditing `docs`. */
  function Tally(docs: seq<AuditDoc>, skipFileCheck: bool, host: Host): Stats {
    if docs == [] then NoStats
    else Counted(Tally(docs[..|docs| - 1], skipFileCheck, host), FindingsOf(docs[|docs| - 1], skipFileCheck, host))
  }

  /** The number of documents whose trimmed category is `school_exam`. */
  function SchoolExamCount(docs: seq<AuditDoc>): nat {
    if docs == [] then 0
    else SchoolExamCount(docs[..|docs| - 1]) + Flag(ApiHelpers.NormalizeText(docs[|docs| - 1].sourceCategory) == "school_exam")
  }

  /** Every counter is bounded by the total; the two price findings together count each
      document at most once; missing school names are counted among school exams only;
      each document adds at most one broken-preview document but every missing preview
      file; nothing is broken when the file check is skipped. */
  lemma {:induction false} TallyBounds(docs: seq<AuditDoc>, skipFileCheck: bool, host: Host)
    ensures var s := Tally(docs, skipFileCheck, host);
      s.total == |docs|
      && s.freePriceMismatch + s.paidZeroPrice <= s.total
      && s.missingSchoolNameForSchoolExam <= SchoolExamCount(docs)
      && s.brokenPreviewRefDoc <= s.total && s.brokenPreviewRefDoc <= s.brokenPreviewRefFileCount
      && s.invalidSourceCategory <= s.total && s.noPreviewImages <= s.total
      && (skipFileCheck ==> s.brokenProblemFileRef == 0 && s.brokenEtcFileRef == 0 && s.brokenPreviewRefFileCount == 0)
  {
    if docs != [] {
      TallyBounds(docs[..|docs| - 1], skipFileCheck, host);
      PriceFindingsExclusive(docs[|docs| - 1], skipFileCheck, host);
      FindingsScope(docs[|docs| - 1], skipFileCheck, host);
    }
  }

  // ---------------------------------------------------------------- distributions

  function SourceKey(doc: AuditDoc): string {
    var c := ApiHelpers.NormalizeText(doc.sourceCategory);
    if c != "" then c else EmptyLabel
  }

  function FileTypeKey(doc: AuditDoc): string {
    var t := ApiHelpers.NormalizeText(doc.fileType);
    if t != "" then t else EmptyLabel
  }

  /** `bySourceCategory` after auditing `docs`. */
  function BySource(docs: seq<AuditDoc>): seq<(string, int)> {
    if docs == [] then [] else Assoc.Bump(BySource(docs[..|docs| - 1]), SourceKey(docs[|docs| - 1]))
  }

  /** `byFileType` after auditing `docs`. */
  function ByFileType(docs: seq<AuditDoc>): seq<(string, int)> {
    if docs == [] then [] else Assoc.Bump(ByFileType(docs[..|docs| - 1]), FileTypeKey(docs[|docs| - 1]))
  }

  /** Both distributions count every document once. */
  lemma {:induction false} DistributionsTotal(docs: seq<AuditDoc>)
    ensures Assoc.Total(BySource(docs)) == |docs| && Assoc.Total(ByFileType(docs)) == |docs|
  {
    if docs != [] {
      var init := docs[..|docs| - 1];
      DistributionsTotal(init);
      Assoc.TotalBump(BySource(init), SourceKey(docs[|docs| - 1]));
      Assoc.TotalBump(ByFileType(init), FileTypeKey(docs[|docs| - 1]));
    }
  }

  // ---------------------------------------------------------------- the run

  datatype Report = Report(stats: Stats, bySourceCategory: seq<(string, int)>, byFileType: seq<(string, int)>)

  /** `main`'s loop over the collection. Each sample bucket ends up holding the
      first `cfg.sample` values pushed under its key, and only keys pushed at least
      once have a bucket. */
  method Run(docs: seq<AuditDoc>, cfg: Config, host: Host) returns (report: Report, samples: SampleBucket)
    ensures report.stats == Tally(docs, cfg.skipFileCheck, host)
    ensures report.bySourceCategory == BySource(docs) && report.byFileType == ByFileType(docs)
    ensures forall k :: Assoc.Find(samples.buckets, k) == Sampled(AllNotes(docs, cfg.skipFileCheck, host), k, cfg.sample)
    ensures samples.Within(cfg.sample)
  {
    samples := new SampleBucket();
    var stats := NoStats;
    var bySource: seq<(string, int)> := [];
    var byFileType: seq<(string, int)> := [];
    for i := 0 to |docs|
      invariant stats == Tally(docs[..i], cfg.skipFileCheck, host)
      invariant bySource == BySource(docs[..i]) && byFileType == ByFileType(docs[..i])
      invariant SamplesMatch(samples.buckets, AllNotes(docs[..i], cfg.skipFileCheck, host), cfg.sample)
    {
      ScriptArgs.PrefixOfPrefix(docs, i);
      bySource := Assoc.Bump(bySource, SourceKey(docs[i]));
      byFileType := Assoc.Bump(byFileType, FileTypeKey(docs[i]));
      stats := AuditOne(docs[i], cfg, host, stats, samples, AllNotes(docs[..i], cfg.skipFileCheck, host));
      assert docs[..i + 1][..i] == docs[..i];
    }
    ScriptArgs.WholePrefix(docs);
    MatchWithin(samples.buckets, AllNotes(docs, cfg.skipFileCheck, host), cfg.sample);
    report := Report(stats, bySource, byFileType);
  }

  /** The checks of one document, each counted and sampled under its own key;
      `notes` are the pushes made before it. */
  method AuditOne(doc: AuditDoc, cfg: Config, host: Host, stats: Stats, samples: SampleBucket,
                  ghost notes: seq<(string, string)>) returns (stats': Stats)
    requires SamplesMatch(samples.buckets, notes, cfg.sample)
    modifies samples
    ensures stats' == Counted(stats, FindingsOf(doc, cfg.skipFileCheck, host))
    ensures SamplesMatch(samples.buckets, AfterDoc(notes, doc, cfg.skipFileCheck, host), cfg.sample)
  {
    var f := FindingsOf(doc, cfg.skipFileCheck, host);
    var id := MaterialIdOf(doc);
    var limit := cfg.sample;
    ghost var pushed := notes;
    PushIf(samples, f.invalidSourceCategory, "invalidSourceCategory", id, limit, pushed);
    pushed := pushed + NoteIf(f.invalidSourceCategory, "invalidSourceCategory", id);
    PushIf(samples, f.invalidCurriculum, "invalidCurriculum", id, limit, pushed);
    pushed := pushed + NoteIf(f.invalidCurriculum, "invalidCurriculum", id);
    PushIf(samples, f.invalidFileType, "invalidFileType", id, limit, pushed);
    pushed := pushed + NoteIf(f.invalidFileType, "invalidFileType", id);
    PushIf(samples, f.invalidTargetAudience, "invalidTargetAudience", id, limit, pushed);
    pushed := pushed + NoteIf(f.invalidTargetAudience, "invalidTargetAudience", id);
    PushIf(samples, f.missingTopic, "missingTopic", id, limit, pushed);
    pushed := pushed + NoteIf(f.missingTopic, "missingTopic", id);
    PushIf(samples, f.missingSchoolNameForSchoolExam, "missingSchoolNameForSchoolExam", id, limit, pushed);
    pushed := pushed + NoteIf(f.missingSchoolNameForSchoolExam, "missingSchoolNameForSchoolExam", id);
    PushIf(samples, f.missingBothFiles, "missingBothFiles", id, limit, pushed);
    pushed := pushed + NoteIf(f.missingBothFiles, "missingBothFiles", id);
    PushIf(samples, f.freePriceMismatch, "freePriceMismatch", id, limit, pushed);
    pushed := pushed + NoteIf(f.freePriceMismatch, "freePriceMismatch", id);
    PushIf(samples, f.paidZeroPrice, "paidZeroPrice", id, limit, pushed);
    pushed := pushed + NoteIf(f.paidZeroPrice, "paidZeroPrice", id);
    PushIf(samples, f.noPreviewImages, "noPreviewImages", id, limit, pushed);
    pushed := pushed + NoteIf(f.noPreviewImages, "noPreviewImages", id);
    if !cfg.skipFileCheck {
      CheckFiles(doc, host, id, limit, samples, pushed);
    }
    stats' := Counted(stats, f);
  }

  /** The file part of the loop body, run without `--skip-file-check`: each broken
      reference and a document with a missing preview are sampled. */
  method CheckFiles(doc: AuditDoc, host: Host, id: string, limit: nat, samples: SampleBucket,
                    ghost notes: seq<(string, string)>)
    requires id == MaterialIdOf(doc)
    requires SamplesMatch(samples.buckets, notes, limit)
    modifies samples
    ensures SamplesMatch(samples.buckets, AfterFiles(notes, doc, host), limit)
  {
    var problemFile := ApiHelpers.NormalizeText(doc.problemFile);
    var etcFile := ApiHelpers.NormalizeText(doc.etcFile);
    ghost var f := FindingsOf(doc, false, host);
    assert f.brokenProblemFileRef == (problemFile != "" && !host.fileExists(problemFile))
      && f.brokenEtcFileRef == (etcFile != "" && !host.fileExists(etcFile));
    ghost var pushed := notes;
    PushIf(samples, problemFile != "" && !host.fileExists(problemFile), "brokenProblemFileRef", id + " -> " + problemFile, limit, pushed);
    pushed := pushed + NoteIf(problemFile != "" && !host.fileExists(problemFile), "brokenProblemFileRef", id + " -> " + problemFile);
    PushIf(samples, etcFile != "" && !host.fileExists(etcFile), "brokenEtcFileRef", id + " -> " + etcFile, limit, pushed);
    pushed := pushed + NoteIf(etcFile != "" && !host.fileExists(etcFile), "brokenEtcFileRef", id + " -> " + etcFile);
    var missing := CountMissing(PreviewsOf(doc), host.previewExists);
    assert missing == f.brokenPreviewFiles;
    PushIf(samples, missing > 0, "brokenPreviewRefDoc", id, limit, pushed);
  }

  /** `if (c) pushSample(key, value)`: the buckets after that, `notes` being the
      pushes before. */
  method PushIf(samples: SampleBucket, c: bool, key: string, value: string, limit: nat, ghost notes: seq<(string, string)>)
    requires SamplesMatch(samples.buckets, notes, limit)
    modifies samples
    ensures SamplesMatch(samples.buckets, notes + NoteIf(c, key, value), limit)
  {
    if c {
      samples.Push(key, value, limit);
      forall k
        ensures Assoc.Find(samples.buckets, k) == Sampled(notes + [(key, value)], k, limit)
      {
        SampledSnoc(notes, key, value, limit, k);
      }
    } else {
      assert notes + NoteIf(c, key, value) == notes;
    }
  }

  /** The preview loop: one more broken file for each preview whose file is missing. */
  method CountMissing(previews: seq<string>, present: string -> bool) returns (n: nat)
    ensures n == MissingCount(previews, present)
  {
    n := 0;
    for j := 0 to |previews|
      invariant n == MissingCount(previews[..j], present)
    {
      ScriptArgs.PrefixOfPrefix(previews, j);
      if !present(previews[j]) {
        n := n + 1;
      }
    }
    ScriptArgs.WholePrefix(previews);
  }

  // ---------------------------------------------------------------- migrated materials

  /** A material as the legacy migration stores it, read back with the audit's projection. */
  function StoredDoc(id: string, materialId: string, m: MigrateLegacy.MaterialSet): AuditDoc {
    AuditDoc(
      id, Str(materialId), Str(CategoryName(m.sourceCategory)), Str(CurriculumName(m.curriculum)),
      Str(FileTypeName(m.files.fileType)), Str(AudienceName(m.files.targetAudience)),
      Str(m.materialType), Str(m.content.subject), Str(m.content.topic), Str(m.school.schoolName),
      Number(Fin(m.pricing.priceProblem as real)), Number(Fin(m.pricing.priceEtc as real)), Bool(m.pricing.isFree),
      match m.files.problemFile case Some(p) => Str(p) case None => Null,
      match m.files.etcFile case Some(p) => Str(p) case None => Null,
      MigrateLegacy.TextArray(m.files.previewImages))
  }

  /** A migrated material never trips the enumeration checks: the legacy migration
      writes only valid names. */
  lemma MigratedEnumsValid(id: string, materialId: string, m: MigrateLegacy.MaterialSet, skipFileCheck: bool, host: Host)
    ensures var f := FindingsOf(StoredDoc(id, materialId, m), skipFileCheck, host);
      !f.invalidSourceCategory && !f.invalidCurriculum && !f.invalidFileType && !f.invalidTargetAudience
  {
    var doc := StoredDoc(id, materialId, m);
    assert ApiHelpers.NormalizeText(doc.sourceCategory) == CategoryName(m.sourceCategory)
      && ApiHelpers.NormalizeText(doc.curriculum) == CurriculumName(m.curriculum)
      && ApiHelpers.NormalizeText(doc.fileType) == FileTypeName(m.files.fileType)
      && ApiHelpers.NormalizeText(doc.targetAudience) == AudienceName(m.files.targetAudience) by {
      StoredNamesTrimmed(m.sourceCategory, m.curriculum, m.files.fileType, m.files.targetAudience);
    }
    CurriculumOfName(m.curriculum);
  }

  /** A migrated material never trips the price checks, since the legacy migration stores
      a free material with both prices 0 and a paid one with a positive price. */
  lemma MigratedPricesConsistent(doc: AuditDoc, p: MigrateLegacy.Pricing, skipFileCheck: bool, host: Host)
    requires p.priceProblem >= 0 && p.priceEtc >= 0
    requires p.isFree ==> p.priceProblem == 0 && p.priceEtc == 0
    requires !p.isFree ==> p.priceProblem + p.priceEtc > 0
    requires doc.priceProblem == Number(Fin(p.priceProblem as real)) && doc.priceEtc == Number(Fin(p.priceEtc as real))
    requires doc.isFree == Bool(p.isFree)
    ensures var f := FindingsOf(doc, skipFileCheck, host);
      !f.freePriceMismatch && !f.paidZeroPrice
  {
    StoredPrice(p.priceProblem);
    StoredPrice(p.priceEtc);
    PriceFindingsExclusive(doc, skipFileCheck, host);
  }

  /** The stored enumeration names carry no surrounding whitespace. */
  lemma StoredNamesTrimmed(c: SourceCategory, k: Curriculum, t: FileType, a: TargetAudience)
    ensures Trim(CategoryName(c)) == CategoryName(c) && Trim(CurriculumName(k)) == CurriculumName(k)
    ensures Trim(FileTypeName(t)) == FileTypeName(t) && Trim(AudienceName(a)) == AudienceName(a)
  {
    CategoryNameTrimmed(c);
    CurriculumNameTrimmed(k);
    FileTypeNameTrimmed(t);
    AudienceNameTrimmed(a);
  }

  lemma FileTypeNameTrimmed(t: FileType)
    ensures Trim(FileTypeName(t)) == FileTypeName(t)
  {
    match t
    case Pdf => TrimPlain("pdf");
    case Hwp => TrimPlain("hwp");
    case Both => TrimPlain("both");
  }

  lemma AudienceNameTrimmed(a: TargetAudience)
    ensures Trim(AudienceName(a)) == AudienceName(a)
  {
    match a
    case Student => TrimPlain("student");
    case Teacher => TrimPlain("teacher");
    case All => TrimPlain("all");
  }

  /** A stored non-negative integer price reads back as itself. */
  lemma StoredPrice(n: int)
    requires n >= 0
    ensures ScriptArgs.AuditNonNegativeInt(Number(Fin(n as real)), 0) == n
  {
  }
}
