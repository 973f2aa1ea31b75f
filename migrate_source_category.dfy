/**
 * The source-category repair script: every material document is given the
 * category its type, subject and ebook fields call for, ebooks lose their
 * school fields, and the changes are written in batches of 300 (or only
 * reported, in a dry run).
 */
module MigrateSourceCategory {
  import opened JsText
  import opened JsCore
  import opened Optional
  import opened MaterialCatalog
  import ApiHelpers
  import Assoc
  import Bulk
  import ScriptArgs
  import MaterialDisplay

  const BatchSize := 300
  const SampleLimit := 15
  const EbookSubject := EbookWord
  const EmptyLabel := "(empty)"

  /** The projected fields of a stored material; `id` is the text of its `_id`. */
  datatype MaterialDoc = MaterialDoc(
    id: string,
    materialId: string,
    sourceCategory: JsValue,
    materialType: JsValue,
    subject: JsValue,
    teacherProductType: JsValue,
    ebookDescription: JsValue,
    ebookToc: JsValue,
    schoolLevel: JsValue,
    gradeNumber: JsValue,
    semester: JsValue,
    period: JsValue,
    schoolName: JsValue,
    regionSido: JsValue,
    regionGugun: JsValue)

  /** `toNumber`: a finite number as it is, a non-blank string through `parseInt`. */
  function ToNumber(v: JsValue): (r: Option<real>)
    ensures v.Number? ==> (r.Some? <==> v.n.Fin?) && (r.Some? ==> r.value == v.n.r)
    ensures v.Str? && r.Some? ==> IsIntegral(r.value)
    ensures !v.Number? && !v.Str? ==> r.None?
  {
    if v.Number? && v.n.Fin? then Some(v.n.r)
    else if v.Str? && Trim(v.s) != "" then
      match ParseIntText(v.s)
      case Some(n) => Some(n as real)
      case None => None
    else None
  }

  /** The trimmed stored category text. */
  function RawSource(doc: MaterialDoc): string {
    ApiHelpers.NormalizeText(doc.sourceCategory)
  }

  function TypeText(doc: MaterialDoc): string {
    ApiHelpers.NormalizeText(doc.materialType)
  }

  /** The ebook signs of this script: those of the display code plus a teacher product
      type of `ebook`. */
  predicate HasEbookHint(doc: MaterialDoc) {
    var subject := ToLower(ApiHelpers.NormalizeText(doc.subject));
    ToLower(TypeText(doc)) in EbookTypeHints
    || subject == EbookSubject || subject == "ebook"
    || ToLower(ApiHelpers.NormalizeText(doc.teacherProductType)) == "ebook"
    || ApiHelpers.NormalizeText(doc.ebookDescription) != ""
    || HasNonEmptyEbookToc(doc.ebookToc)
  }

  /** `resolveSourceCategory` of the script: the stored category is trimmed before it is
      recognised. */
  function ResolveSourceCategory(doc: MaterialDoc): (c: SourceCategory)
    ensures HasEbookHint(doc) ==> c == Ebook
    ensures !HasEbookHint(doc) && TypeText(doc) in TextbookTypes ==> c == Textbook
    ensures !HasEbookHint(doc) && TypeText(doc) !in TextbookTypes && TypeText(doc) in ReferenceTypes ==> c == Reference
    ensures !HasEbookHint(doc) && TypeText(doc) !in TextbookTypes && TypeText(doc) !in ReferenceTypes ==>
      (CategoryOf(RawSource(doc)).Some? ==> c == CategoryOf(RawSource(doc)).value)
      && (CategoryOf(RawSource(doc)).None? ==> c == SchoolExam)
  {
    var stored := match CategoryOf(RawSource(doc)) case Some(k) => k case None => SchoolExam;
    var t := TypeText(doc);
    if HasEbookHint(doc) then Ebook
    else if t in TextbookTypes then Textbook
    else if t in ReferenceTypes then Reference
    else stored
  }

  /** The fields the display code reads, taken from a stored document. */
  function AsDisplayData(doc: MaterialDoc): MaterialDisplay.MaterialDisplayData {
    MaterialDisplay.MaterialDisplayData(
      doc.sourceCategory, doc.materialType, Undefined, Undefined, doc.ebookDescription, doc.ebookToc,
      doc.schoolName, doc.schoolLevel, doc.subject, Undefined, None, None, None)
  }

  /** The script and the display code resolve a document alike unless its teacher product
      type says ebook or its stored category is padded with whitespace. */
  lemma AgreesWithDisplay(doc: MaterialDoc)
    requires ToLower(ApiHelpers.NormalizeText(doc.teacherProductType)) != "ebook"
    requires doc.sourceCategory.Str? ==> Trim(doc.sourceCategory.s) == doc.sourceCategory.s
    ensures ResolveSourceCategory(doc) == MaterialDisplay.ResolveSourceCategory(AsDisplayData(doc))
  {
    var data := AsDisplayData(doc);
    assert HasEbookHint(doc) == MaterialDisplay.HasEbookHint(data);
    assert TypeText(doc) == MaterialDisplay.TypeText(data);
  }

  // ---------------------------------------------------------------- the $set document

  /** The fields the script may write. */
  datatype Field =
    | SourceCategoryField | SubjectField | SchoolLevelField | GradeNumberField | SemesterField
    | PeriodField | SchoolNameField | RegionSidoField | RegionGugunField

  function FieldName(f: Field): string {
    match f
    case SourceCategoryField => "sourceCategory"
    case SubjectField => "subject"
    case SchoolLevelField => "schoolLevel"
    case GradeNumberField => "gradeNumber"
    case SemesterField => "semester"
    case PeriodField => "period"
    case SchoolNameField => "schoolName"
    case RegionSidoField => "regionSido"
    case RegionGugunField => "regionGugun"
  }

  /** The stored value of a field the script may write. */
  function GetField(doc: MaterialDoc, f: Field): JsValue {
    match f
    case SourceCategoryField => doc.sourceCategory
    case SubjectField => doc.subject
    case SchoolLevelField => doc.schoolLevel
    case GradeNumberField => doc.gradeNumber
    case SemesterField => doc.semester
    case PeriodField => doc.period
    case SchoolNameField => doc.schoolName
    case RegionSidoField => doc.regionSido
    case RegionGugunField => doc.regionGugun
  }

  /** A number other than zero that `toNumber` can read. */
  predicate NonZero(v: JsValue) {
    ToNumber(v).Some? && ToNumber(v).value != 0.0
  }

  /** The fields an ebook is cleaned of, in the order the script checks them. */
  const EbookCleanup: seq<Field> :=
    [SubjectField, SchoolLevelField, GradeNumberField, SemesterField, PeriodField, SchoolNameField, RegionSidoField, RegionGugunField]

  /** The value the ebook clean-up writes into a field: the ebook word as subject, zero
      as grade and semester, blank text elsewhere. */
  function Target(f: Field): JsValue {
    match f
    case SubjectField => Str(EbookSubject)
    case GradeNumberField => Number(Fin(0.0))
    case SemesterField => Number(Fin(0.0))
    case _ => Str("")
  }

  /** A field the ebook clean-up leaves alone: the subject is already the ebook word, the
      grade and semester read as no number or zero, any other field is blank. */
  predicate Cleared(f: Field, v: JsValue) {
    match f
    case SubjectField => ApiHelpers.NormalizeText(v) == EbookSubject
    case GradeNumberField => !NonZero(v)
    case SemesterField => !NonZero(v)
    case _ => ApiHelpers.NormalizeText(v) == ""
  }

  /** Writing the clean-up value clears the field. */
  lemma TargetCleared(f: Field)
    ensures Cleared(f, Target(f))
  {
    match f
    case SubjectField =>
      TrimPlain(EbookSubject);
      assert ApiHelpers.NormalizeText(Str(EbookSubject)) == EbookSubject;
    case GradeNumberField =>
      assert ToNumber(Number(Fin(0.0))) == Some(0.0);
    case SemesterField =>
      assert ToNumber(Number(Fin(0.0))) == Some(0.0);
    case _ =>
      assert ApiHelpers.NormalizeText(Str("")) == "";
  }

  /** The clean-up entries for the fields `fs`: one per field not already cleared. */
  function CleanupSteps(doc: MaterialDoc, fs: seq<Field>): (r: seq<(Field, JsValue)>)
    ensures forall e :: e in r ==> e.0 in fs && e.1 == Target(e.0) && !Cleared(e.0, GetField(doc, e.0))
    ensures forall f :: f in fs && !Cleared(f, GetField(doc, f)) ==> (f, Target(f)) in r
  {
    if fs == [] then []
    else
      var f := fs[0];
      (if Cleared(f, GetField(doc, f)) then [] else [(f, Target(f))]) + CleanupSteps(doc, fs[1..])
  }

  /** The category entry of the `$set` document: present when the trimmed stored text is
      not a category or not the resolved one. */
  function CategoryEntry(doc: MaterialDoc): (r: seq<(Field, JsValue)>)
    ensures forall e :: e in r ==> e == (SourceCategoryField, Str(CategoryName(ResolveSourceCategory(doc))))
    ensures r == [] <==> RawSource(doc) == CategoryName(ResolveSourceCategory(doc))
  {
    var resolved := ResolveSourceCategory(doc);
    var raw := RawSource(doc);
    if CategoryOf(raw).None? || raw != CategoryName(resolved) then [(SourceCategoryField, Str(CategoryName(resolved)))] else []
  }

  /** The `$set` document built for one material, in the order the script adds fields:
      the category entry, then, for an ebook, the clean-up entries. */
  function SetFields(doc: MaterialDoc): seq<(Field, JsValue)> {
    CategoryEntry(doc) + if ResolveSourceCategory(doc) == Ebook then CleanupSteps(doc, EbookCleanup) else []
  }

  /** The category is written exactly when the trimmed stored text is not the name of the
      resolved category, and then it is written first. */
  lemma SourceCategorySetIff(doc: MaterialDoc)
    ensures var update := SetFields(doc);
      (update != [] && update[0] == (SourceCategoryField, Str(CategoryName(ResolveSourceCategory(doc)))))
      <==> RawSource(doc) != CategoryName(ResolveSourceCategory(doc))
  {
    var update := SetFields(doc);
    if CategoryEntry(doc) == [] && update != [] {
      assert update[0] in CleanupSteps(doc, EbookCleanup);
    }
  }

  /** Only an ebook has fields other than the category written. */
  lemma OnlyEbooksLoseSchoolFields(doc: MaterialDoc)
    requires ResolveSourceCategory(doc) != Ebook
    ensures |SetFields(doc)| <= 1
    ensures forall e :: e in SetFields(doc) ==> e.0 == SourceCategoryField
  {
  }

  // ---------------------------------------------------------------- applying the update

  /** One `$set` entry applied to a material. */
  function ApplyField(doc: MaterialDoc, k: Field, v: JsValue): (r: MaterialDoc)
    ensures GetField(r, k) == v
    ensures forall f :: f != k ==> GetField(r, f) == GetField(doc, f)
    ensures r.id == doc.id && r.materialId == doc.materialId && r.materialType == doc.materialType
    ensures r.teacherProductType == doc.teacherProductType
    ensures r.ebookDescription == doc.ebookDescription && r.ebookToc == doc.ebookToc
  {
    match k
    case SourceCategoryField => doc.(sourceCategory := v)
    case SubjectField => doc.(subject := v)
    case SchoolLevelField => doc.(schoolLevel := v)
    case GradeNumberField => doc.(gradeNumber := v)
    case SemesterField => doc.(semester := v)
    case PeriodField => doc.(period := v)
    case SchoolNameField => doc.(schoolName := v)
    case RegionSidoField => doc.(regionSido := v)
    case RegionGugunField => doc.(regionGugun := v)
  }

  /** A material after `$set` has been applied, entry by entry. */
  function Apply(doc: MaterialDoc, update: seq<(Field, JsValue)>): (r: MaterialDoc)
    ensures r.id == doc.id && r.materialId == doc.materialId && r.materialType == doc.materialType
    ensures r.teacherProductType == doc.teacherProductType
    ensures r.ebookDescription == doc.ebookDescription && r.ebookToc == doc.ebookToc
    decreases |update|
  {
    if update == [] then doc else Apply(ApplyField(doc, update[0].0, update[0].1), update[1..])
  }

  /** A field the update names ends with one of the values the update gives it; any
      other field keeps its value. */
  lemma {:induction false} ApplyGet(doc: MaterialDoc, update: seq<(Field, JsValue)>, f: Field)
    ensures (exists e :: e in update && e.0 == f) ==> (f, GetField(Apply(doc, update), f)) in update
    ensures (forall e :: e in update ==> e.0 != f) ==> GetField(Apply(doc, update), f) == GetField(doc, f)
    decreases |update|
  {
    if update != [] {
      var next := ApplyField(doc, update[0].0, update[0].1);
      ApplyGet(next, update[1..], f);
      assert update == [update[0]] + update[1..];
    }
  }

  /** The migrated document as a whole. */
  function Migrated(doc: MaterialDoc): MaterialDoc {
    Apply(doc, SetFields(doc))
  }

  /** After the category entry and entries for other fields, the trimmed category is the
      resolved one's name. */
  lemma CategoryApplied(doc: MaterialDoc, c: SourceCategory, s0: seq<(Field, JsValue)>, rest: seq<(Field, JsValue)>)
    requires forall e :: e in s0 ==> e == (SourceCategoryField, Str(CategoryName(c)))
    requires s0 == [] ==> ApiHelpers.NormalizeText(doc.sourceCategory) == CategoryName(c)
    requires forall e :: e in rest ==> e.0 != SourceCategoryField
    ensures ApiHelpers.NormalizeText(Apply(doc, s0 + rest).sourceCategory) == CategoryName(c)
  {
    var update := s0 + rest;
    var v := GetField(Apply(doc, update), SourceCategoryField);
    ApplyGet(doc, update, SourceCategoryField);
    if s0 != [] {
      assert s0[0] in s0 && update[0] == s0[0] && update[0] in update;
      assert (SourceCategoryField, v) in update;
      assert (SourceCategoryField, v) !in rest;
      assert (SourceCategoryField, v) in s0;
      assert v == Str(CategoryName(c));
      CategoryNameTrimmed(c);
    } else {
      assert update == rest;
      assert v == doc.sourceCategory;
    }
  }

  /** After the category entry and the clean-up entries, every clean-up field is cleared. */
  lemma CleanupApplied(doc: MaterialDoc, s0: seq<(Field, JsValue)>, f: Field)
    requires forall e :: e in s0 ==> e.0 == SourceCategoryField
    requires f in EbookCleanup
    ensures Cleared(f, GetField(Apply(doc, s0 + CleanupSteps(doc, EbookCleanup)), f))
  {
    var cs := CleanupSteps(doc, EbookCleanup);
    var update := s0 + cs;
    var v := GetField(Apply(doc, update), f);
    ApplyGet(doc, update, f);
    assert f != SourceCategoryField;
    if (f, Target(f)) in cs {
      assert (f, Target(f)) in update;
      assert (f, v) in update && (f, v) !in s0;
      assert (f, v) in cs;
      TargetCleared(f);
    } else {
      forall e | e in update
        ensures e.0 != f
      {
        if e in cs {
          assert e == (e.0, Target(e.0));
        }
      }
      assert v == GetField(doc, f);
    }
  }

  /** The migration writes the resolved category's name as the category and leaves the
      type, the teacher product type, the ebook fields and the identifiers as they were. */
  lemma MigratedCategory(doc: MaterialDoc)
    ensures var m := Migrated(doc);
      ApiHelpers.NormalizeText(m.sourceCategory) == CategoryName(ResolveSourceCategory(doc))
      && m.materialType == doc.materialType && m.teacherProductType == doc.teacherProductType
      && m.ebookDescription == doc.ebookDescription && m.ebookToc == doc.ebookToc
      && m.id == doc.id && m.materialId == doc.materialId
  {
    var c := ResolveSourceCategory(doc);
    var s0 := CategoryEntry(doc);
    var rest: seq<(Field, JsValue)> := if c == Ebook then CleanupSteps(doc, EbookCleanup) else [];
    assert SetFields(doc) == s0 + rest;
    CleanupNotCategory(doc);
    CategoryApplied(doc, c, s0, rest);
  }

  /** The clean-up never writes the category. */
  lemma CleanupNotCategory(doc: MaterialDoc)
    ensures forall e :: e in CleanupSteps(doc, EbookCleanup) ==> e.0 != SourceCategoryField
  {
    assert SourceCategoryField !in EbookCleanup;
  }

  /** A material that is not an ebook keeps every field but its category. */
  lemma MigratedKeepsOthers(doc: MaterialDoc, f: Field)
    requires ResolveSourceCategory(doc) != Ebook
    requires f != SourceCategoryField
    ensures GetField(Migrated(doc), f) == GetField(doc, f)
  {
    assert SetFields(doc) == CategoryEntry(doc) + [];
    ApplyGet(doc, SetFields(doc), f);
  }

  /** An ebook ends with every clean-up field cleared. */
  lemma MigratedEbookCleared(doc: MaterialDoc, f: Field)
    requires ResolveSourceCategory(doc) == Ebook
    requires f in EbookCleanup
    ensures Cleared(f, GetField(Migrated(doc), f))
  {
    CleanupApplied(doc, CategoryEntry(doc), f);
  }

  // ---------------------------------------------------------------- the run

  datatype Sample = Sample(materialId: string, from: string, to: SourceCategory, fields: seq<(Field, JsValue)>)

  datatype UpdateOne = UpdateOne(id: string, fields: seq<(Field, JsValue)>)

  /** The label a transition starts from. */
  function FromLabel(doc: MaterialDoc): string {
    if RawSource(doc) != "" then RawSource(doc) else EmptyLabel
  }

  function TransitionKey(doc: MaterialDoc): string {
    FromLabel(doc) + " -> " + CategoryName(ResolveSourceCategory(doc))
  }

  function SampleOf(doc: MaterialDoc): Sample {
    Sample(if doc.materialId != "" then doc.materialId else doc.id, FromLabel(doc), ResolveSourceCategory(doc), SetFields(doc))
  }

  /** The documents the run changes, in scan order. */
  function Changed(docs: seq<MaterialDoc>): (r: seq<MaterialDoc>)
    ensures |r| <= |docs|
    ensures forall d :: d in r ==> d in docs && SetFields(d) != []
  {
    if docs == [] then []
    else
      var last := docs[|docs| - 1];
      Changed(docs[..|docs| - 1]) + (if SetFields(last) != [] then [last] else [])
  }

  /** The transition counts after scanning `docs`. */
  function Transitions(docs: seq<MaterialDoc>): seq<(string, int)> {
    if docs == [] then []
    else
      var last := docs[|docs| - 1];
      var before := Transitions(docs[..|docs| - 1]);
      if SetFields(last) != [] then Assoc.Bump(before, TransitionKey(last)) else before
  }

  /** The transition counts add up to the number of changed documents. */
  lemma {:induction false} TransitionsTotal(docs: seq<MaterialDoc>)
    ensures Assoc.Total(Transitions(docs)) == |Changed(docs)|
  {
    if docs != [] {
      var last := docs[|docs| - 1];
      TransitionsTotal(docs[..|docs| - 1]);
      if SetFields(last) != [] {
        Assoc.TotalBump(Transitions(docs[..|docs| - 1]), TransitionKey(last));
      }
    }
  }

  function Operations(changed: seq<MaterialDoc>): (ops: seq<UpdateOne>)
    ensures |ops| == |changed|
    ensures forall i :: 0 <= i < |changed| ==> ops[i] == UpdateOne(changed[i].id, SetFields(changed[i]))
  {
    seq(|changed|, i requires 0 <= i < |changed| => UpdateOne(changed[i].id, SetFields(changed[i])))
  }

  /** The samples a run keeps: the first 15 changed documents. */
  function Samples(changed: seq<MaterialDoc>): (r: seq<Sample>)
    ensures |r| == if |changed| < SampleLimit then |changed| else SampleLimit
    ensures forall i :: 0 <= i < |r| ==> r[i] == SampleOf(changed[i])
  {
    var n := if |changed| < SampleLimit then |changed| else SampleLimit;
    seq(n, i requires 0 <= i < n => SampleOf(changed[i]))
  }

  /** One more changed document adds a sample only while fewer than 15 are kept; one more
      operation is appended for it. */
  lemma ChangedSnoc(changed: seq<MaterialDoc>, d: MaterialDoc)
    ensures Samples(changed + [d]) == if |changed| < SampleLimit then Samples(changed) + [SampleOf(d)] else Samples(changed)
    ensures Operations(changed + [d]) == Operations(changed) + [UpdateOne(d.id, SetFields(d))]
  {
    SamplesSnoc(changed, d);
    OperationsSnoc(changed, d);
  }

  lemma SamplesSnoc(changed: seq<MaterialDoc>, d: MaterialDoc)
    ensures Samples(changed + [d]) == if |changed| < SampleLimit then Samples(changed) + [SampleOf(d)] else Samples(changed)
  {
    var a, b := Samples(changed + [d]), (if |changed| < SampleLimit then Samples(changed) + [SampleOf(d)] else Samples(changed));
    assert |a| == |b|;
    forall i | 0 <= i < |a|
      ensures a[i] == b[i]
    {
      assert (changed + [d])[i] == if i < |changed| then changed[i] else d;
    }
  }

  lemma OperationsSnoc(changed: seq<MaterialDoc>, d: MaterialDoc)
    ensures Operations(changed + [d]) == Operations(changed) + [UpdateOne(d.id, SetFields(d))]
  {
    var a, b := Operations(changed + [d]), Operations(changed) + [UpdateOne(d.id, SetFields(d))];
    assert |a| == |b|;
    forall i | 0 <= i < |a|
      ensures a[i] == b[i]
    {
      assert (changed + [d])[i] == if i < |changed| then changed[i] else d;
    }
  }

  /** What a run reports and writes. */
  datatype Report = Report(
    scanned: nat,
    changed: nat,
    transitions: seq<(string, int)>,
    samples: seq<Sample>,
    written: seq<UpdateOne>,
    writes: nat)

  /** `main` over the documents the query yields: counts, transitions, the first 15
      samples, and, when applying, every update written in batches of 300 and a final
      partial batch. */
  method Run(docs: seq<MaterialDoc>, apply: bool) returns (report: Report)
    ensures report.scanned == |docs|
    ensures report.changed == |Changed(docs)|
    ensures report.transitions == Transitions(docs)
    ensures report.samples == Samples(Changed(docs))
    ensures report.written == if apply then Operations(Changed(docs)) else []
    ensures report.writes == (|report.written| + BatchSize - 1) / BatchSize
  {
    var writer := new Bulk.BulkWriter<UpdateOne>(BatchSize);
    var transitions: seq<(string, int)> := [];
    var samples: seq<Sample> := [];
    var changed := 0;
    ghost var done: seq<MaterialDoc> := [];
    for i := 0 to |docs|
      invariant done == Changed(docs[..i]) && transitions == Transitions(docs[..i])
      invariant changed == |done| && samples == Samples(done)
      invariant writer.Valid() && writer.batchSize == BatchSize
      invariant writer.Pushed() == if apply then Operations(done) else []
    {
      var doc := docs[i];
      ScanStep(docs, i);
      changed, transitions, samples, done := Scan(doc, apply, writer, changed, transitions, samples, done);
    }
    assert docs[..|docs|] == docs;
    if apply {
      writer.Close();
    }
    report := Report(|docs|, changed, transitions, samples, writer.written, writer.writes);
  }

  /** Scanning one more document extends the changed list and the transitions by it. */
  lemma ScanStep(docs: seq<MaterialDoc>, i: nat)
    requires i < |docs|
    ensures Changed(docs[..i + 1]) == Changed(docs[..i]) + if SetFields(docs[i]) != [] then [docs[i]] else []
    ensures Transitions(docs[..i + 1]) ==
      if SetFields(docs[i]) != [] then Assoc.Bump(Transitions(docs[..i]), TransitionKey(docs[i])) else Transitions(docs[..i])
  {
    ScriptArgs.PrefixOfPrefix(docs, i);
  }

  /** The loop body of `main` for one document: a document with a non-empty `$set` is
      counted, its transition bumped, sampled while fewer than 15 samples are kept, and its
      update pushed when applying. */
  method Scan(doc: MaterialDoc, apply: bool, writer: Bulk.BulkWriter<UpdateOne>,
              changed: nat, transitions: seq<(string, int)>, samples: seq<Sample>, ghost done: seq<MaterialDoc>)
    returns (changed': nat, transitions': seq<(string, int)>, samples': seq<Sample>, ghost done': seq<MaterialDoc>)
    requires changed == |done| && samples == Samples(done)
    requires writer.Valid() && writer.batchSize == BatchSize
    requires writer.Pushed() == if apply then Operations(done) else []
    modifies writer
    ensures done' == done + if SetFields(doc) != [] then [doc] else []
    ensures transitions' == if SetFields(doc) != [] then Assoc.Bump(transitions, TransitionKey(doc)) else transitions
    ensures changed' == |done'| && samples' == Samples(done')
    ensures writer.Valid() && writer.batchSize == BatchSize
    ensures writer.Pushed() == if apply then Operations(done') else []
  {
    changed', transitions', samples', done' := changed, transitions, samples, done;
    var update := SetFields(doc);
    if update != [] {
      ChangedSnoc(done, doc);
      done' := done + [doc];
      changed' := changed + 1;
      transitions' := Assoc.Bump(transitions, TransitionKey(doc));
      if |samples| < SampleLimit {
        samples' := samples + [SampleOf(doc)];
      }
      if apply {
        writer.Push(UpdateOne(doc.id, update));
      }
    }
  }

  // ---------------------------------------------------------------- idempotence

  /** A migrated document needs no second change: the run is idempotent. */
  lemma MigrationIsIdempotent(doc: MaterialDoc)
    ensures SetFields(Migrated(doc)) == []
  {
    var m := Migrated(doc);
    MigratedCategory(doc);
    ResolveStable(doc);
    if ResolveSourceCategory(doc) == Ebook {
      forall f | f in EbookCleanup
        ensures Cleared(f, GetField(m, f))
      {
        MigratedEbookCleared(doc, f);
      }
    }
    NothingToSet(m);
  }

  /** A document storing its resolved category's name, and cleared if it is an ebook,
      gets an empty `$set` document. */
  lemma NothingToSet(d: MaterialDoc)
    requires RawSource(d) == CategoryName(ResolveSourceCategory(d))
    requires ResolveSourceCategory(d) == Ebook ==> forall f :: f in EbookCleanup ==> Cleared(f, GetField(d, f))
    ensures SetFields(d) == []
  {
    if ResolveSourceCategory(d) == Ebook {
      CleanupEmpty(d, EbookCleanup);
    }
  }

  /** No clean-up entries for fields already cleared. */
  lemma {:induction false} CleanupEmpty(d: MaterialDoc, fs: seq<Field>)
    requires forall f :: f in fs ==> Cleared(f, GetField(d, f))
    ensures CleanupSteps(d, fs) == []
  {
    if fs != [] {
      CleanupEmpty(d, fs[1..]);
    }
  }

  /** A migrated document resolves to the category it was migrated to. */
  lemma ResolveStable(doc: MaterialDoc)
    ensures ResolveSourceCategory(Migrated(doc)) == ResolveSourceCategory(doc)
  {
    var m := Migrated(doc);
    MigratedCategory(doc);
    if ResolveSourceCategory(doc) == Ebook {
      MigratedEbookCleared(doc, SubjectField);
      EbookSubjectIsHint(m);
    } else {
      MigratedKeepsOthers(doc, SubjectField);
      SameSignsResolveAlike(doc, m);
    }
  }

  /** The ebook word as the trimmed subject is an ebook sign. */
  lemma EbookSubjectIsHint(d: MaterialDoc)
    requires ApiHelpers.NormalizeText(d.subject) == EbookSubject
    ensures ResolveSourceCategory(d) == Ebook
  {
    EbookWordPlain();
    assert HasEbookHint(d);
  }

  /** Two documents with the same ebook signs and type, the second storing the name of the
      first's category, resolve alike. */
  lemma SameSignsResolveAlike(d1: MaterialDoc, d2: MaterialDoc)
    requires d1.subject == d2.subject && d1.materialType == d2.materialType
    requires d1.teacherProductType == d2.teacherProductType
    requires d1.ebookDescription == d2.ebookDescription && d1.ebookToc == d2.ebookToc
    requires RawSource(d2) == CategoryName(ResolveSourceCategory(d1))
    ensures ResolveSourceCategory(d2) == ResolveSourceCategory(d1)
  {
    var c := ResolveSourceCategory(d1);
    assert HasEbookHint(d1) == HasEbookHint(d2);
    assert CategoryOf(CategoryName(c)) == Some(c);
  }
}
