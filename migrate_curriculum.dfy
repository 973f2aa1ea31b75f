/**
 * The curriculum repair script: every material is given the curriculum its
 * category and subject call for (an ebook and any subject outside the legacy
 * list belong to the 2022 revision), and the changes are written in batches
 * of 300 or only reported, in a dry run.
 */
module MigrateCurriculum {
  import opened JsCore
  import opened Optional
  import ApiHelpers
  import Assoc
  import Bulk
  import opened MaterialCatalog

  const BatchSize := 300
  const SampleLimit := 15
  const EmptyLabel := "(empty)"

  /** The subjects of the curriculum before the 2022 revision. */
  const LegacySubjectHints: seq<string> := ["수학(공통)", "수학I", "수학II", "미적분", "수학1", "수학2", "수학(상)", "수학(하)"]

  /** The projected fields of a stored material; `id` is the text of its `_id`. */
  datatype MaterialDoc = MaterialDoc(
    id: string,
    materialId: string,
    sourceCategory: JsValue,
    subject: JsValue,
    curriculum: JsValue)

  /** `resolveCurriculum`: an ebook is 2022, a legacy subject is legacy, anything else is 2022. */
  function ResolveCurriculum(doc: MaterialDoc): (c: Curriculum)
    ensures c == Legacy <==>
      ApiHelpers.NormalizeText(doc.sourceCategory) != "ebook" && ApiHelpers.NormalizeText(doc.subject) in LegacySubjectHints
  {
    if ApiHelpers.NormalizeText(doc.sourceCategory) == "ebook" then Revised2022
    else if ApiHelpers.NormalizeText(doc.subject) in LegacySubjectHints then Legacy
    else Revised2022
  }

  /** The stored curriculum when its trimmed text names one, '' otherwise. */
  function Current(doc: MaterialDoc): (r: string)
    ensures r == "" || CurriculumOf(r).Some?
  {
    var raw := ApiHelpers.NormalizeText(doc.curriculum);
    if CurriculumOf(raw).Some? then raw else ""
  }

  /** A document is changed when its current curriculum is not the resolved one. */
  predicate NeedsUpdate(doc: MaterialDoc) {
    Current(doc) != CurriculumName(ResolveCurriculum(doc))
  }

  /** A stored value that names no curriculum always needs an update; a named one needs
      it exactly when it differs from the resolved curriculum. */
  lemma NeedsUpdateIff(doc: MaterialDoc)
    ensures CurriculumOf(ApiHelpers.NormalizeText(doc.curriculum)).None? ==> NeedsUpdate(doc)
    ensures CurriculumOf(ApiHelpers.NormalizeText(doc.curriculum)).Some? ==>
      (NeedsUpdate(doc) <==> CurriculumOf(ApiHelpers.NormalizeText(doc.curriculum)).value != ResolveCurriculum(doc))
  {
    var raw := ApiHelpers.NormalizeText(doc.curriculum);
    if CurriculumOf(raw).Some? {
      CurriculumOfName(ResolveCurriculum(doc));
    }
  }

  /** The update `{ $set: { curriculum: resolved } }` applied to a material. */
  function Migrated(doc: MaterialDoc): MaterialDoc {
    doc.(curriculum := Str(CurriculumName(ResolveCurriculum(doc))))
  }

  /** A migrated document resolves alike and needs no second update. */
  lemma MigrationIsIdempotent(doc: MaterialDoc)
    ensures ResolveCurriculum(Migrated(doc)) == ResolveCurriculum(doc)
    ensures !NeedsUpdate(Migrated(doc))
  {
    var c := ResolveCurriculum(doc);
    CurriculumNameTrimmed(c);
    CurriculumOfName(c);
  }

  // ---------------------------------------------------------------- the run

  datatype Sample = Sample(materialId: string, from: string, to: Curriculum)

  datatype UpdateOne = UpdateOne(id: string, curriculum: Curriculum)

  function FromLabel(doc: MaterialDoc): string {
    if Current(doc) != "" then Current(doc) else EmptyLabel
  }

  function TransitionKey(doc: MaterialDoc): string {
    FromLabel(doc) + " -> " + CurriculumName(ResolveCurriculum(doc))
  }

  function SampleOf(doc: MaterialDoc): Sample {
    Sample(if doc.materialId != "" then doc.materialId else doc.id, FromLabel(doc), ResolveCurriculum(doc))
  }

  /** The documents the run changes, in scan order. */
  function Changed(docs: seq<MaterialDoc>): (r: seq<MaterialDoc>)
    ensures |r| <= |docs|
    ensures forall d :: d in r ==> d in docs && NeedsUpdate(d)
  {
    if docs == [] then []
    else
      var last := docs[|docs| - 1];
      Changed(docs[..|docs| - 1]) + (if NeedsUpdate(last) then [last] else [])
  }

  /** Every document that needs an update is among the changed ones. */
  lemma {:induction false} ChangedComplete(docs: seq<MaterialDoc>, i: nat)
    requires i < |docs| && NeedsUpdate(docs[i])
    ensures docs[i] in Changed(docs)
  {
    var init := docs[..|docs| - 1];
    if i < |docs| - 1 {
      assert init[i] == docs[i];
      ChangedComplete(init, i);
    }
  }

  /** The transition counts after scanning `docs`. */
  function Transitions(docs: seq<MaterialDoc>): seq<(string, int)> {
    if docs == [] then []
    else
      var last := docs[|docs| - 1];
      var before := Transitions(docs[..|docs| - 1]);
      if NeedsUpdate(last) then Assoc.Bump(before, TransitionKey(last)) else before
  }

  /** The transition counts add up to the number of changed documents. */
  lemma {:induction false} TransitionsTotal(docs: seq<MaterialDoc>)
    ensures Assoc.Total(Transitions(docs)) == |Changed(docs)|
  {
    if docs != [] {
      var last := docs[|docs| - 1];
      TransitionsTotal(docs[..|docs| - 1]);
      if NeedsUpdate(last) {
        Assoc.TotalBump(Transitions(docs[..|docs| - 1]), TransitionKey(last));
      }
    }
  }

  /** The samples a run keeps: the first 15 changed documents. */
  function Samples(changed: seq<MaterialDoc>): (r: seq<Sample>)
    ensures |r| == if |changed| < SampleLimit then |changed| else SampleLimit
    ensures forall i :: 0 <= i < |r| ==> r[i] == SampleOf(changed[i])
  {
    var n := if |changed| < SampleLimit then |changed| else SampleLimit;
    seq(n, i requires 0 <= i < n => SampleOf(changed[i]))
  }

  function Operations(changed: seq<MaterialDoc>): (ops: seq<UpdateOne>)
    ensures |ops| == |changed|
    ensures forall i :: 0 <= i < |changed| ==> ops[i] == UpdateOne(changed[i].id, ResolveCurriculum(changed[i]))
  {
    seq(|changed|, i requires 0 <= i < |changed| => UpdateOne(changed[i].id, ResolveCurriculum(changed[i])))
  }

  /** One more changed document adds a sample only while fewer than 15 are kept, and one
      more operation. */
  lemma ChangedSnoc(changed: seq<MaterialDoc>, d: MaterialDoc)
    ensures Samples(changed + [d]) == if |changed| < SampleLimit then Samples(changed) + [SampleOf(d)] else Samples(changed)
    ensures Operations(changed + [d]) == Operations(changed) + [UpdateOne(d.id, ResolveCurriculum(d))]
  {
    var a, b := Samples(changed + [d]), (if |changed| < SampleLimit then Samples(changed) + [SampleOf(d)] else Samples(changed));
    assert |a| == |b|;
    forall i | 0 <= i < |a|
      ensures a[i] == b[i]
    {
      assert (changed + [d])[i] == if i < |changed| then changed[i] else d;
    }
  }

  datatype Report = Report(
    scanned: nat,
    changed: nat,
    transitions: seq<(string, int)>,
    samples: seq<Sample>,
    written: seq<UpdateOne>,
    writes: nat)

  /** `main` over the documents the query yields. */
  method Run(docs: seq<MaterialDoc>, apply: bool) returns (report: Report)
    ensures report.scanned == |docs|
    ensures report.changed == |Changed(docs)|
    ensures report.transitions == Transitions(docs)
    ensures report.samples == Samples(Changed(docs))
    ensures report.written == if apply then Operations(Changed(docs)) else []
    ensures report.writes == (|report.written| + BatchSize - 1) / BatchSize
  {
    var writer := new Bulk.BulkWriter<UpdateOne>(BatchSize);
    var transitions: seq<(string, int)> := [];
    var samples: seq<Sample> := [];
    var changed := 0;
    ghost var done: seq<MaterialDoc> := [];
    for i := 0 to |docs|
      invariant done == Changed(docs[..i]) && transitions == Transitions(docs[..i])
      invariant changed == |done| && samples == Samples(done)
      invariant writer.Valid() && writer.batchSize == BatchSize
      invariant writer.Pushed() == if apply then Operations(done) else []
    {
      var doc := docs[i];
      assert docs[..i + 1][..i] == docs[..i];
      changed, transitions, samples, done := Scan(doc, apply, writer, changed, transitions, samples, done);
    }
    assert docs[..|docs|] == docs;
    if apply {
      writer.Close();
    }
    report := Report(|docs|, changed, transitions, samples, writer.written, writer.writes);
  }

  /** The loop body for one document: skipped when its curriculum is current; otherwise
      counted, its transition bumped, sampled while fewer than 15 are kept, and its update
      pushed when applying. */
  method Scan(doc: MaterialDoc, apply: bool, writer: Bulk.BulkWriter<UpdateOne>,
              changed: nat, transitions: seq<(string, int)>, samples: seq<Sample>, ghost done: seq<MaterialDoc>)
    returns (changed': nat, transitions': seq<(string, int)>, samples': seq<Sample>, ghost done': seq<MaterialDoc>)
    requires changed == |done| && samples == Samples(done)
    requires writer.Valid() && writer.batchSize == BatchSize
    requires writer.Pushed() == if apply then Operations(done) else []
    modifies writer
    ensures done' == done + if NeedsUpdate(doc) then [doc] else []
    ensures transitions' == if NeedsUpdate(doc) then Assoc.Bump(transitions, TransitionKey(doc)) else transitions
    ensures changed' == |done'| && samples' == Samples(done')
    ensures writer.Valid() && writer.batchSize == BatchSize
    ensures writer.Pushed() == if apply then Operations(done') else []
  {
    changed', transitions', samples', done' := changed, transitions, samples, done;
    var current := Current(doc);
    var resolved := ResolveCurriculum(doc);
    if current != CurriculumName(resolved) {
      ChangedSnoc(done, doc);
      done' := done + [doc];
      changed' := changed + 1;
      transitions' := Assoc.Bump(transitions, TransitionKey(doc));
      if |samples| < SampleLimit {
        samples' := samples + [SampleOf(doc)];
      }
      if apply {
        writer.Push(UpdateOne(doc.id, resolved));
      }
    }
  }
}
