/**
 * The material source categories and the material types listed under each,
 * as the migration scripts and the test script define them, with the
 * category normaliser and the ebook table-of-contents test that both the
 * display code and the scripts use.
 */
module MaterialCatalog {
  import opened JsText
  import opened JsCore
  import opened Optional

  datatype SourceCategory = SchoolExam | Textbook | Reference | Ebook

  function CategoryName(c: SourceCategory): string {
    match c
    case SchoolExam => "school_exam"
    case Textbook => "textbook"
    case Reference => "reference"
    case Ebook => "ebook"
  }

  /** The category a string names exactly (no trimming, case-sensitive). */
  function CategoryOf(s: string): (c: Option<SourceCategory>)
    ensures c.Some? ==> CategoryName(c.value) == s
    ensures c.None? ==> forall k: SourceCategory :: CategoryName(k) != s
  {
    if s == "school_exam" then Some(SchoolExam)
    else if s == "textbook" then Some(Textbook)
    else if s == "reference" then Some(Reference)
    else if s == "ebook" then Some(Ebook)
    else None
  }

  /** `MATERIAL_SOURCE_CATEGORIES.includes(value)` for a value of any type. */
  predicate IsSourceCategory(v: JsValue) {
    v.Str? && CategoryOf(v.s).Some?
  }

  /** `normalizeSourceCategory`: a category name is kept, anything else is school_exam. */
  function NormalizeSourceCategory(v: JsValue): (c: SourceCategory)
    ensures IsSourceCategory(v) ==> CategoryName(c) == v.s
    ensures !IsSourceCategory(v) ==> c == SchoolExam
  {
    if v.Str? && CategoryOf(v.s).Some? then CategoryOf(v.s).value else SchoolExam
  }

  /** Every category's name normalises back to that category. */
  lemma NormalizeCategoryName(c: SourceCategory)
    ensures NormalizeSourceCategory(Str(CategoryName(c))) == c
  {
  }

  /** Category names carry no surrounding whitespace. */
  lemma CategoryNameTrimmed(c: SourceCategory)
    ensures Trim(CategoryName(c)) == CategoryName(c)
  {
    match c
    case SchoolExam => TrimPlain("school_exam");
    case Textbook => TrimPlain("textbook");
    case Reference => TrimPlain("reference");
    case Ebook => TrimPlain("ebook");
  }

  const SchoolExamTypes: seq<string> := ["내신기출", "내신", "중간고사", "기말고사", "학력평가", "수능기출", "모의고사", "개념", "심화", "킬러", "실전"]
  const TextbookTypes: seq<string> := ["교과서 개념", "본문 분석", "단원평가", "서술형", "내신 변형"]
  const ReferenceTypes: seq<string> := ["개념서", "유형서", "심화서", "실전서", "오답정리"]
  const EbookTypes: seq<string> := ["전자책"]

  /** The Korean word for "ebook", the ebook type and the subject ebooks are filed under. */
  const EbookWord := "전자책"

  /** The ebook word has no case and no surrounding whitespace. */
  lemma EbookWordPlain()
    ensures ToLower(EbookWord) == EbookWord && Trim(EbookWord) == EbookWord
  {
    EbookWordLower();
    EbookWordTrimmed();
  }

  lemma EbookWordLower()
    ensures ToLower(EbookWord) == EbookWord
  {
    var w := EbookWord;
    assert |w| == 3 && !IsAsciiUpper(w[0]) && !IsAsciiUpper(w[1]) && !IsAsciiUpper(w[2]);
    ToLowerCaseless(w);
  }

  lemma EbookWordTrimmed()
    ensures Trim(EbookWord) == EbookWord
  {
    var w := EbookWord;
    assert |w| == 3 && !IsWhitespace(w[0]) && !IsWhitespace(w[2]);
    TrimPlain(w);
  }

  /** The lower-cased ebook types plus "ebook". */
  const EbookTypeHints: seq<string> := ["전자책", "ebook"]

  lemma EbookTypeHintsAreLowered()
    ensures forall i :: 0 <= i < |EbookTypes| ==> ToLower(EbookTypes[i]) in EbookTypeHints
  {
    assert ToLower(EbookTypes[0]) == EbookTypes[0];
  }

  /** The textbook and reference lists hold Korean names only: a text that starts
      with an ASCII character is in neither. */
  lemma AsciiTextNotListedType(s: string)
    requires |s| > 0 && s[0] as int < 128
    ensures s !in TextbookTypes && s !in ReferenceTypes
  {
    forall i | 0 <= i < |TextbookTypes|
      ensures TextbookTypes[i] != s
    {
      assert TextbookTypes[i][0] as int >= 128;
    }
    forall i | 0 <= i < |ReferenceTypes|
      ensures ReferenceTypes[i] != s
    {
      assert ReferenceTypes[i][0] as int >= 128;
    }
  }

  /** No type belongs to both the textbook and the reference list, so their order of
      testing does not matter. */
  lemma TypeListsDisjoint()
    ensures forall t :: t in TextbookTypes ==> t !in ReferenceTypes
  {
  }

  /** `hasNonEmptyEbookToc`: a non-blank string, or an array holding a non-blank string. */
  predicate HasNonEmptyEbookToc(v: JsValue) {
    match v
    case Str(s) => Trim(s) != []
    case Arr(items) => exists i :: 0 <= i < |items| && items[i].Str? && Trim(items[i].s) != []
    case _ => false
  }

  /** Only whitespace, or nothing at all. */
  predicate Blank(s: string) {
    forall j :: 0 <= j < |s| ==> IsWhitespace(s[j])
  }

  /** A table of contents counts exactly when it, or one of its string entries, is not blank. */
  lemma EbookTocIff(v: JsValue)
    ensures HasNonEmptyEbookToc(v) <==>
      (v.Str? && !Blank(v.s))
      || (v.Arr? && exists i :: 0 <= i < |v.items| && v.items[i].Str? && !Blank(v.items[i].s))
  {
    match v
    case Str(s) => TrimBlank(s);
    case Arr(items) => EntriesNonBlank(items);
    case _ =>
  }

  lemma EntriesNonBlank(items: seq<JsValue>)
    ensures HasNonEmptyEbookToc(Arr(items))
      <==> (exists i :: 0 <= i < |items| && items[i].Str? && !Blank(items[i].s))
  {
    forall i | 0 <= i < |items| && items[i].Str?
      ensures Trim(items[i].s) != [] <==> !Blank(items[i].s)
    {
      TrimBlank(items[i].s);
    }
  }

  lemma TrimBlank(s: string)
    ensures Trim(s) != [] <==> !Blank(s)
    ensures HasNonEmptyEbookToc(Str(s)) <==> !Blank(s)
  {
    TrimEmptyIff(s);
  }

  // ---------------------------------------------------------------- curricula

  datatype Curriculum = Revised2022 | Legacy

  function CurriculumName(c: Curriculum): string {
    match c
    case Revised2022 => "revised_2022"
    case Legacy => "legacy"
  }

  /** `isCurriculum`: the curriculum a text names, if it names one. */
  function CurriculumOf(s: string): (c: Option<Curriculum>)
    ensures c.Some? ==> CurriculumName(c.value) == s
    ensures c.None? ==> forall k: Curriculum :: CurriculumName(k) != s
  {
    if s == "revised_2022" then Some(Revised2022)
    else if s == "legacy" then Some(Legacy)
    else None
  }

  /** Every curriculum's name is recognised as that curriculum. */
  lemma CurriculumOfName(c: Curriculum)
    ensures CurriculumOf(CurriculumName(c)) == Some(c)
  {
  }

  /** Curriculum names carry no surrounding whitespace. */
  lemma CurriculumNameTrimmed(c: Curriculum)
    ensures Trim(CurriculumName(c)) == CurriculumName(c)
  {
    match c
    case Revised2022 => TrimPlain("revised_2022");
    case Legacy => TrimPlain("legacy");
  }

  // ---------------------------------------------------------------- file types and audiences

  datatype FileType = Pdf | Hwp | Both

  function FileTypeName(t: FileType): string {
    match t
    case Pdf => "pdf"
    case Hwp => "hwp"
    case Both => "both"
  }

  /** `FILE_TYPES.includes(s)`: the file type a text names exactly, if any. */
  function FileTypeOf(s: string): (t: Option<FileType>)
    ensures t.Some? ==> FileTypeName(t.value) == s
    ensures t.None? ==> forall k: FileType :: FileTypeName(k) != s
  {
    if s == "pdf" then Some(Pdf)
    else if s == "hwp" then Some(Hwp)
    else if s == "both" then Some(Both)
    else None
  }

  datatype TargetAudience = Student | Teacher | All

  function AudienceName(a: TargetAudience): string {
    match a
    case Student => "student"
    case Teacher => "teacher"
    case All => "all"
  }

  /** `TARGET_AUDIENCES.includes(s)`: the audience a text names exactly, if any. */
  function AudienceOf(s: string): (a: Option<TargetAudience>)
    ensures a.Some? ==> AudienceName(a.value) == s
    ensures a.None? ==> forall k: TargetAudience :: AudienceName(k) != s
  {
    if s == "student" then Some(Student)
    else if s == "teacher" then Some(Teacher)
    else if s == "all" then Some(All)
    else None
  }
}
