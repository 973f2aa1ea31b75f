/**
 * The exam-material catalogue endpoint (`/api/m/materials`): the listing of
 * active materials, filtered by subject, topic, type, difficulty and grade,
 * in one of five orders, 20 to a page; and the registration of a new
 * material by an administrator, with every missing field given its default.
 */
module Materials {
  import opened Optional
  import opened JsText
  import opened JsCore
  import Paging
  import Sorting
  import MaterialCatalog
  import MigrateLegacy

  const PageLimit := 20
  const MinRating := 100
  const MaxRating := 2000

  // ---------------------------------------------------------------- listing

  /** The fields of a stored material that the listing filters and sorts on. */
  datatype StoredMaterial = StoredMaterial(
    isActive: bool, subject: string, topic: string, kind: string,
    difficulty: int, gradeNumber: int,
    createdAt: int, downloadCount: int, viewCount: int, difficultyRating: int)

  /** The query parameters of the GET. */
  datatype ListParams = ListParams(
    subject: Option<string>, topic: Option<string>, kind: Option<string>,
    difficulty: Option<string>, grade: Option<string>,
    sort: Option<string>, page: Option<string>)

  /** The filter the GET builds: empty texts and absent numbers put no condition;
      `difficulty` and `grade` are converted with `Number(...)`. */
  datatype Query = Query(subject: string, topic: string, kind: string, difficulty: Option<Num>, grade: Option<Num>)

  function NumberParam(raw: Option<string>): (r: Option<Num>)
    ensures r.None? <==> Paging.ParamOr(raw, "") == ""
  {
    var s := Paging.ParamOr(raw, "");
    if s == "" then None else Some(StringToNumber(s))
  }

  function QueryOf(p: ListParams): Query {
    Query(Paging.ParamOr(p.subject, ""), Paging.ParamOr(p.topic, ""), Paging.ParamOr(p.kind, ""),
          NumberParam(p.difficulty), NumberParam(p.grade))
  }

  /** A stored material the filter selects: it is active and equals every given
      condition. A number condition that is NaN selects nothing. */
  predicate Matches(m: StoredMaterial, q: Query) {
    m.isActive
    && (q.subject != "" ==> m.subject == q.subject)
    && (q.topic != "" ==> m.topic == q.topic)
    && (q.kind != "" ==> m.kind == q.kind)
    && (q.difficulty.Some? ==> q.difficulty.value == Fin(m.difficulty as real))
    && (q.grade.Some? ==> q.grade.value == Fin(m.gradeNumber as real))
  }

  function Filter(store: seq<StoredMaterial>, q: Query): (r: seq<StoredMaterial>)
    ensures forall m :: m in r <==> m in store && Matches(m, q)
    ensures |r| <= |store|
  {
    if store == [] then []
    else
      var rest := Filter(store[1..], q);
      assert forall m :: m in store <==> m == store[0] || m in store[1..];
      if Matches(store[0], q) then [store[0]] + rest else rest
  }

  /** The five orders of the sort map. */
  datatype SortKey = Latest | Popular | Viewed | EasiestFirst | HardestFirst

  /** `sortMap[sort] || { createdAt: -1 }`: an unknown sort name lists newest first. */
  function SortOf(raw: Option<string>): (k: SortKey)
    ensures k != Latest ==> raw.Some?
  {
    var s := Paging.ParamOr(raw, "latest");
    if s == "popular" then Popular
    else if s == "view" then Viewed
    else if s == "diff_asc" then EasiestFirst
    else if s == "diff_desc" then HardestFirst
    else Latest
  }

  /** The ascending key each order sorts by (a descending field is negated). */
  function KeyOf(k: SortKey): StoredMaterial -> int {
    match k
    case Latest => (m: StoredMaterial) => -m.createdAt
    case Popular => (m: StoredMaterial) => -m.downloadCount
    case Viewed => (m: StoredMaterial) => -m.viewCount
    case EasiestFirst => (m: StoredMaterial) => m.difficultyRating
    case HardestFirst => (m: StoredMaterial) => -m.difficultyRating
  }

  datatype MaterialList = MaterialList(materials: seq<StoredMaterial>, total: nat, page: int, totalPage: nat)

  /** `GET /api/m/materials`. */
  function List(store: seq<StoredMaterial>, p: ListParams): MaterialList {
    var matching := Filter(store, QueryOf(p));
    var page := Paging.Page(p.page, Paging.Unspecified);
    MaterialList(
      Paging.Window(Sorting.SortBy(matching, KeyOf(SortOf(p.sort))), page, PageLimit),
      |matching|, page, Paging.TotalPage(|matching|, PageLimit))
  }

  /** Every listed material is active and meets every given condition; at most 20
      are listed, the page is at least 1, and the page count covers the matches
      with no page to spare. */
  lemma ListMatches(store: seq<StoredMaterial>, p: ListParams)
    ensures var r := List(store, p);
      (forall k :: 0 <= k < |r.materials| ==> r.materials[k].isActive && Matches(r.materials[k], QueryOf(p)))
      && |r.materials| <= PageLimit && r.page >= 1
      && r.totalPage * PageLimit >= r.total
      && (r.totalPage > 0 ==> (r.totalPage - 1) * PageLimit < r.total)
  {
    var r := List(store, p);
    WindowMatches(store, QueryOf(p), KeyOf(SortOf(p.sort)), Paging.Page(p.page, Paging.Unspecified), r.materials);
  }

  lemma WindowMatches(store: seq<StoredMaterial>, q: Query, key: StoredMaterial -> int, page: int, w: seq<StoredMaterial>)
    requires page >= 1
    requires w == Paging.Window(Sorting.SortBy(Filter(store, q), key), page, PageLimit)
    ensures forall k :: 0 <= k < |w| ==> Matches(w[k], q)
  {
    var matching := Filter(store, q);
    var sorted := Sorting.SortBy(matching, key);
    forall k | 0 <= k < |w|
      ensures Matches(w[k], q)
    {
      assert w[k] in multiset(sorted);
      assert w[k] in matching;
    }
  }

  /** The page lists materials in the requested order. */
  lemma ListOrdered(store: seq<StoredMaterial>, p: ListParams)
    ensures Sorting.SortedBy(List(store, p).materials, KeyOf(SortOf(p.sort)))
  {
    var matching := Filter(store, QueryOf(p));
    var key := KeyOf(SortOf(p.sort));
    Sorting.SortBySorted(matching, key);
    Paging.WindowSorted(Sorting.SortBy(matching, key), key, Paging.Page(p.page, Paging.Unspecified), PageLimit, List(store, p).materials);
  }

  /** Newest first unless one of the four other names is given. */
  lemma SortNames(raw: Option<string>)
    ensures SortOf(raw) == Latest <==>
      raw.None? || raw.value !in {"popular", "view", "diff_asc", "diff_desc"}
    ensures SortOf(Some("diff_asc")) == EasiestFirst && SortOf(Some("diff_desc")) == HardestFirst
  {
  }

  /** Every active material that meets the conditions is counted in the total. */
  lemma MatchingCounted(store: seq<StoredMaterial>, p: ListParams, m: StoredMaterial)
    requires m in store && Matches(m, QueryOf(p))
    ensures List(store, p).total >= 1
  {
    assert m in Filter(store, QueryOf(p));
  }

  // ---------------------------------------------------------------- registration

  /** The JSON body of the POST; every field is whatever the client sent. */
  datatype MaterialBody = MaterialBody(
    kind: JsValue, subject: JsValue, topic: JsValue, schoolLevel: JsValue,
    gradeNumber: JsValue, year: JsValue, semester: JsValue, period: JsValue,
    schoolName: JsValue, regionSido: JsValue, regionGugun: JsValue,
    difficulty: JsValue, difficultyRating: JsValue,
    fileType: JsValue, targetAudience: JsValue, isFree: JsValue,
    priceProblem: JsValue, priceEtc: JsValue,
    problemFile: JsValue, etcFile: JsValue, previewImages: JsValue)

  /** The record the POST creates. */
  datatype NewMaterial = NewMaterial(
    uploaderId: string, kind: JsValue, subject: JsValue, topic: JsValue, schoolLevel: JsValue,
    gradeNumber: int, year: int, semester: int, period: JsValue,
    schoolName: JsValue, regionSido: JsValue, regionGugun: JsValue,
    difficulty: int, difficultyRating: int,
    fileType: MaterialCatalog.FileType, targetAudience: MaterialCatalog.TargetAudience,
    isFree: bool, priceProblem: int, priceEtc: int,
    problemFile: Option<string>, etcFile: Option<string>, previewImages: seq<JsValue>,
    isActive: bool)

  /** `parseInt(v) || fallback`: NaN and 0 read as the fallback. */
  function IntOr(v: JsValue, fallback: int): (r: int)
    ensures fallback != 0 ==> r != 0
    ensures ParseIntAutoValue(v).Some? && ParseIntAutoValue(v).value != 0 ==> r == ParseIntAutoValue(v).value
    ensures ParseIntAutoValue(v).None? || ParseIntAutoValue(v).value == 0 ==> r == fallback
  {
    var n := ParseIntAutoValue(v);
    if n.Some? && n.value != 0 then n.value else fallback
  }

  /** With no radix given, `parseInt` reads a `0x` prefix: a grade sent as `"0x10"`
      is stored as 16, and one sent as `"0"` falls back to the default. */
  lemma IntOrReadsHex()
    ensures IntOr(Str("0x10"), 2) == 16
    ensures IntOr(Str("0"), 2) == 2
  {
    assert ParseIntAutoValue(Str("0x10")) == Some(16) by { ParseIntAutoHex(); }
    assert ParseIntAutoValue(Str("0")) == Some(0) by { ParseIntAutoZero(); }
  }

  function Clamp(n: int): (r: int)
    ensures MinRating <= r <= MaxRating
    ensures MinRating <= n <= MaxRating ==> r == n
  {
    if n < MinRating then MinRating else if n > MaxRating then MaxRating else n
  }

  /** The rating as written: a truthy `difficultyRating` is parsed and clamped to
      [100, 2000], where `Math.max`/`Math.min` carry a NaN through (`None`); otherwise
      the table value of the difficulty, 1000 off the table. */
  function RatingAsWritten(given: JsValue, difficulty: int): (r: Option<int>)
    ensures r.None? <==> Truthy(given) && ParseIntAutoValue(given).None?
    ensures r.Some? ==> MinRating <= r.value <= MaxRating
  {
    if Truthy(given) then
      var n := ParseIntAutoValue(given);
      if n.None? then None else Some(Clamp(n.value))
    else Some(MigrateLegacy.RatingOfDifficulty(difficulty))
  }

  /** A non-numeric rating such as `"hard"` gives NaN, which a number field does not
      accept, so the registration fails instead of using the table value. */
  lemma RatingAsWrittenNaN()
    ensures RatingAsWritten(Str("hard"), 3) == None
  {
    var h := "hard";
    assert TrimStart(h) == h by { TrimStartNoLead(h); }
    assert SignStripped(h) == h;
    assert !HexPrefixed(h);
    assert DigitRun(h) == 0;
  }

  /** The rating a registration stores: a parseable `difficultyRating` clamped to
      [100, 2000], anything else the table value of the difficulty (1000 off the
      table). */
  function Rating(given: JsValue, difficulty: int): (r: int)
    ensures MinRating <= r <= MaxRating
    ensures Truthy(given) && ParseIntAutoValue(given).Some? ==> r == Clamp(ParseIntAutoValue(given).value)
    ensures !(Truthy(given) && ParseIntAutoValue(given).Some?) && 1 <= difficulty <= 5 ==>
      r == MigrateLegacy.DifficultyRatings[difficulty - 1]
    ensures !(Truthy(given) && ParseIntAutoValue(given).Some?) && !(1 <= difficulty <= 5) ==> r == 1000
  {
    if Truthy(given) && ParseIntAutoValue(given).Some? then Clamp(ParseIntAutoValue(given).value)
    else MigrateLegacy.RatingOfDifficulty(difficulty)
  }

  /** Wherever the code as written yields a number, the corrected rating is that number. */
  lemma RatingAgrees(given: JsValue, difficulty: int)
    ensures RatingAsWritten(given, difficulty).Some? ==> RatingAsWritten(given, difficulty).value == Rating(given, difficulty)
    ensures RatingAsWritten(given, difficulty).None? ==> Rating(given, difficulty) == MigrateLegacy.RatingOfDifficulty(difficulty)
  {
  }

  /** `['pdf', 'hwp', 'both'].includes(v) ? v : 'pdf'`. */
  function FileTypeFrom(v: JsValue): (t: MaterialCatalog.FileType)
    ensures v.Str? && MaterialCatalog.FileTypeOf(v.s).Some? ==> MaterialCatalog.FileTypeName(t) == v.s
    ensures !(v.Str? && MaterialCatalog.FileTypeOf(v.s).Some?) ==> t == MaterialCatalog.Pdf
  {
    if v.Str? && MaterialCatalog.FileTypeOf(v.s).Some? then MaterialCatalog.FileTypeOf(v.s).value else MaterialCatalog.Pdf
  }

  /** `['student', 'teacher', 'all'].includes(v) ? v : 'student'`. */
  function AudienceFrom(v: JsValue): (a: MaterialCatalog.TargetAudience)
    ensures v.Str? && MaterialCatalog.AudienceOf(v.s).Some? ==> MaterialCatalog.AudienceName(a) == v.s
    ensures !(v.Str? && MaterialCatalog.AudienceOf(v.s).Some?) ==> a == MaterialCatalog.Student
  {
    if v.Str? && MaterialCatalog.AudienceOf(v.s).Some? then MaterialCatalog.AudienceOf(v.s).value else MaterialCatalog.Student
  }

  /** `Invalid` is the schema's validation error that `Material.create` throws, which
      the handler does not catch (a 500). */
  datatype PostResult = Forbidden | MissingFields | Invalid | Created(material: NewMaterial)

  /** The schema declares `difficulty` with `min: 1, max: 5`. */
  predicate DifficultyInRange(d: int) {
    1 <= d <= 5
  }

  /** `POST /api/m/materials`. `role` is the session's role (`None` without a
      session), `userName` the session's name, `currentYear` the clock's year. */
  function Post(role: Option<string>, userName: Option<string>, b: MaterialBody, currentYear: int): PostResult {
    if role != Some("admin") then Forbidden
    else if !Truthy(b.kind) || !Truthy(b.subject) then MissingFields
    else if !DifficultyInRange(IntOr(b.difficulty, 3)) then Invalid
    else
      var difficulty := IntOr(b.difficulty, 3);
      Created(NewMaterial(
        if userName.Some? && userName.value != "" then userName.value else "admin",
        b.kind, b.subject, Or(b.topic, Str("")), Or(b.schoolLevel, Str("고등학교")),
        IntOr(b.gradeNumber, 2), IntOr(b.year, currentYear), IntOr(b.semester, 1), Or(b.period, Str("")),
        Or(b.schoolName, Str("")), Or(b.regionSido, Str("")), Or(b.regionGugun, Str("")),
        difficulty, Rating(b.difficultyRating, difficulty),
        FileTypeFrom(b.fileType), AudienceFrom(b.targetAudience),
        Truthy(b.isFree), IntOr(b.priceProblem, 0), IntOr(b.priceEtc, 0),
        AsString(b.problemFile), AsString(b.etcFile),
        if b.previewImages.Arr? then b.previewImages.items else [],
        true))
  }

  /** Only an administrator registers, and only with a type, a subject and a
      difficulty the schema accepts; the role is checked first, then the two fields,
      and a difficulty outside 1 to 5 (after `parseInt(difficulty) || 3`) makes the
      create throw. */
  lemma PostCreatedIff(role: Option<string>, userName: Option<string>, b: MaterialBody, currentYear: int)
    ensures Post(role, userName, b, currentYear).Created? <==>
      role == Some("admin") && Truthy(b.kind) && Truthy(b.subject) && 1 <= IntOr(b.difficulty, 3) <= 5
    ensures Post(role, userName, b, currentYear) == Forbidden <==> role != Some("admin")
    ensures Post(role, userName, b, currentYear) == MissingFields <==>
      role == Some("admin") && !(Truthy(b.kind) && Truthy(b.subject))
    ensures Post(role, userName, b, currentYear) == Invalid <==>
      role == Some("admin") && Truthy(b.kind) && Truthy(b.subject) && !(1 <= IntOr(b.difficulty, 3) <= 5)
  {
  }

  lemma IntOrSeven()
    ensures IntOr(Str("7"), 3) == 7
  {
    var seven := "7";
    assert ParseIntAuto(seven) == Some(7) by {
      ParseIntAutoOfDigits(seven);
      ParseIntOfNatToString(7);
      assert NatToString(7) == seven;
    }
    assert ParseIntAutoValue(Str(seven)) == Some(7);
  }

  /** A difficulty of 7 is refused by the schema, and a missing one is 3. */
  lemma DifficultyExamples(b: MaterialBody)
    requires Truthy(b.kind) && Truthy(b.subject)
    ensures Post(Some("admin"), None, b.(difficulty := Str("7")), 2025) == Invalid
    ensures IntOr(Undefined, 3) == 3
  {
    IntOrSeven();
    PostCreatedIff(Some("admin"), None, b.(difficulty := Str("7")), 2025);
  }

  /** A registered material is active, its difficulty is the one sent, within 1 to 5
      (3 when missing), its rating is the corrected rating of that difficulty,
      its rating lies in [100, 2000], its file type and audience are on their lists
      (`pdf` and `student` otherwise), its files are kept only when given as text,
      and its type and subject are the ones sent. */
  lemma CreatedMaterial(role: Option<string>, userName: Option<string>, b: MaterialBody, currentYear: int)
    requires Post(role, userName, b, currentYear).Created?
    ensures var m := Post(role, userName, b, currentYear).material;
      m.isActive && m.kind == b.kind && m.subject == b.subject
      && 1 <= m.difficulty <= 5 && (ParseIntAutoValue(b.difficulty).None? ==> m.difficulty == 3)
      && (ParseIntAutoValue(b.difficulty).Some? && ParseIntAutoValue(b.difficulty).value != 0 ==>
            m.difficulty == ParseIntAutoValue(b.difficulty).value)
      && m.difficultyRating == Rating(b.difficultyRating, m.difficulty)
      && MinRating <= m.difficultyRating <= MaxRating
      && (b.fileType.Str? && b.fileType.s in {"pdf", "hwp", "both"} ==> MaterialCatalog.FileTypeName(m.fileType) == b.fileType.s)
      && (b.targetAudience.Str? && b.targetAudience.s in {"student", "teacher", "all"} ==> MaterialCatalog.AudienceName(m.targetAudience) == b.targetAudience.s)
      && (m.problemFile.Some? <==> b.problemFile.Str?) && (m.etcFile.Some? <==> b.etcFile.Str?)
      && m.gradeNumber != 0 && m.semester != 0
  {
  }
}
