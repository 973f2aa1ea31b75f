/**
 * ELO bookkeeping for students and materials: the rating update after a
 * feedback, its undo, the level badge, and the selection of recommended
 * materials.  The expected probability `1 / (1 + 10^((mr - ur) / 400))` is
 * floating point; it is a parameter `p` here, known only to lie in [0, 1].
 */
module Recommendation {
  import opened Optional
  import opened JsCore
  import Assoc
  import Sorting
  import opened UserSkillModel

  const K := 32
  const MaterialK := 8
  const MinRating := 100
  const MaxRating := 2000

  datatype Difficulty = Easy | Normal | Hard

  /** 'easy' and 'normal' count as solving the material, 'hard' as failing it. */
  predicate IsCorrect(d: Difficulty) {
    d == Easy || d == Normal
  }

  function Score01(d: Difficulty): int {
    if IsCorrect(d) then 1 else 0
  }

  /** An expected score. */
  predicate Probability(p: real) {
    0.0 <= p <= 1.0
  }

  /** `Math.min(2000, Math.max(100, x))`. */
  function Clamp(x: real): (r: real)
    ensures MinRating as real <= r <= MaxRating as real
    ensures MinRating as real <= x <= MaxRating as real ==> r == x
  {
    if x < MinRating as real then MinRating as real
    else if x > MaxRating as real then MaxRating as real
    else x
  }

  function Abs(x: int): nat {
    if x < 0 then -x else x
  }

  function Max(a: int, b: int): int {
    if a < b then b else a
  }

  predicate InRange(rating: int) {
    MinRating <= rating <= MaxRating
  }

  /** `updateRating`: the student's topic rating after one feedback. */
  function UpdateRating(current: int, d: Difficulty, p: real): (r: int)
    requires Probability(p)
    ensures InRange(r)
    ensures InRange(current) ==> current - K <= r <= current + K
    ensures InRange(current) && IsCorrect(d) ==> current <= r
    ensures InRange(current) && !IsCorrect(d) ==> r <= current
  {
    var delta := if IsCorrect(d) then K as real * (1.0 - p) else -(K as real * p);
    Round(Clamp(current as real + delta))
  }

  /** The material's difficulty rating after one feedback: it moves against the student's. */
  function UpdateMaterialRating(current: int, d: Difficulty, p: real): (r: int)
    requires Probability(p)
    ensures InRange(r)
    ensures InRange(current) ==> current - MaterialK <= r <= current + MaterialK
    ensures InRange(current) && IsCorrect(d) ==> r <= current
    ensures InRange(current) && !IsCorrect(d) ==> current <= r
  {
    var delta := if IsCorrect(d) then -(MaterialK as real * (1.0 - p)) else MaterialK as real * p;
    Round(Clamp(current as real + delta))
  }

  datatype Level = Level(title: string, color: string, star: int)

  /** `ratingToLevel`: the badge shown for a rating. */
  function RatingToLevel(rating: int): (l: Level)
    ensures 0 <= l.star <= 5
  {
    if rating >= 1500 then Level("최상", "red", 5)
    else if rating >= 1300 then Level("상", "orange", 4)
    else if rating >= 1100 then Level("중상", "violet", 3)
    else if rating >= 900 then Level("중", "blue", 2)
    else if rating >= 700 then Level("중하", "gray", 1)
    else Level("기초", "gray", 0)
  }

  /** Star k (1..5) is reached exactly from rating 500 + 200 k on. */
  lemma StarThresholds(rating: int, k: int)
    requires 1 <= k <= 5
    ensures RatingToLevel(rating).star >= k <==> rating >= 500 + 200 * k
  {
  }

  /** A higher rating never shows fewer stars. */
  lemma StarMonotone(a: int, b: int)
    requires a <= b
    ensures RatingToLevel(a).star <= RatingToLevel(b).star
  {
  }

  // ---------------------------------------------------------------------
  // Feedback and undo on a student's skill document

  datatype Material = Material(materialId: string, topic: string, subject: string, difficultyRating: int)

  /** `material.topic || material.subject`. */
  function TopicKey(m: Material): (k: string)
    ensures k == m.topic || k == m.subject
    ensures m.topic != "" ==> k == m.topic
    ensures k == "" <==> m.topic == "" && m.subject == ""
  {
    if m.topic != "" then m.topic else m.subject
  }

  datatype FeedbackRecord = FeedbackRecord(
    difficulty: Difficulty,
    topic: string,
    ratingBefore: int,
    materialRatingBefore: int,
    ratingChange: int,
    newRating: int)

  datatype SkillDoc = SkillDoc(
    topicSkills: seq<(string, TopicSkill)>,
    feedbackHistory: seq<(string, FeedbackRecord)>,
    overallRating: int,
    totalAttempts: int,
    totalCorrect: int)

  /** What an upsert on a missing document starts from: every field it reads is absent. */
  const EmptyDoc := SkillDoc([], [], DefaultRating, 0, 0)

  datatype Result<T> = Ok(value: T) | Failed(message: string)

  const MaterialNotFound := "자료를 찾을 수 없습니다."
  const AlreadyRated := "이미 평가한 자료입니다."
  const NoSkillDoc := "사용자 정보 없음"
  const NoFeedback := "되돌릴 피드백이 없습니다."

  datatype FeedbackResult = FeedbackResult(newRating: int, ratingChange: int, topic: string, newMaterialRating: int)

  /** The stored document after a feedback, and the reply. */
  datatype Processed = Processed(doc: SkillDoc, result: FeedbackResult)

  /** `topicSkills[key] ?? { rating: 1000, attempts: 0, correct: 0 }`. */
  function Skill(skills: seq<(string, TopicSkill)>, key: string): TopicSkill {
    match Assoc.Find(skills, key)
    case Some(s) => s
    case None => NewTopicSkill
  }

  /** A rated material id is present in the history. */
  predicate Rated(store: Option<SkillDoc>, materialId: string) {
    store.Some? && Assoc.Find(store.value.feedbackHistory, materialId).Some?
  }

  /** The topic's skill after one more attempt. */
  function Attempted(current: TopicSkill, d: Difficulty, p: real): TopicSkill
    requires Probability(p)
  {
    TopicSkill(UpdateRating(current.rating, d, p), current.attempts + 1, current.correct + Score01(d))
  }

  function RecordOf(current: TopicSkill, m: Material, d: Difficulty, p: real): FeedbackRecord
    requires Probability(p)
  {
    var newRating := UpdateRating(current.rating, d, p);
    FeedbackRecord(d, TopicKey(m), current.rating, m.difficultyRating, newRating - current.rating, newRating)
  }

  /** The `$set` of a feedback applied to the stored document. */
  function Applied(doc: SkillDoc, m: Material, materialId: string, d: Difficulty, p: real): SkillDoc
    requires Probability(p)
  {
    var current := Skill(doc.topicSkills, TopicKey(m));
    var topics := Assoc.Put(doc.topicSkills, TopicKey(m), Attempted(current, d, p));
    SkillDoc(topics, Assoc.Put(doc.feedbackHistory, materialId, RecordOf(current, m, d, p)),
             Overall(Ratings(topics)), doc.totalAttempts + 1, doc.totalCorrect + Score01(d))
  }

  /**
   * `processFeedback`: `material` is the active material with this id, if any;
   * `p` is the expected probability of the student's topic rating against it.
   */
  function ProcessFeedback(store: Option<SkillDoc>, material: Option<Material>, materialId: string, d: Difficulty, p: real): (r: Result<Processed>)
    requires Probability(p)
    ensures material.None? ==> r == Failed(MaterialNotFound)
    ensures material.Some? && Rated(store, materialId) ==> r == Failed(AlreadyRated)
    ensures r.Ok? <==> material.Some? && !Rated(store, materialId)
    ensures r.Ok? ==> InRange(r.value.result.newMaterialRating) && InRange(r.value.result.newRating)
  {
    if material.None? then Failed(MaterialNotFound)
    else if Rated(store, materialId) then Failed(AlreadyRated)
    else
      var m := material.value;
      var doc := if store.Some? then store.value else EmptyDoc;
      var current := Skill(doc.topicSkills, TopicKey(m));
      var newRating := UpdateRating(current.rating, d, p);
      Ok(Processed(
        Applied(doc, m, materialId, d, p),
        FeedbackResult(newRating, newRating - current.rating, TopicKey(m), UpdateMaterialRating(m.difficultyRating, d, p))))
  }

  /** The restored document and the material rating written back. */
  datatype Undone = Undone(doc: SkillDoc, materialRating: int)

  /** The topic's skill with one attempt taken back. */
  function Unattempted(t: TopicSkill, record: FeedbackRecord): TopicSkill {
    TopicSkill(record.ratingBefore, Max(0, t.attempts - 1), Max(0, t.correct - Score01(record.difficulty)))
  }

  /** The `$set`/`$unset` of an undo applied to the stored document. */
  function Restored(doc: SkillDoc, materialId: string, record: FeedbackRecord): SkillDoc {
    var history := Assoc.Remove(doc.feedbackHistory, materialId);
    var totalAttempts := Max(0, doc.totalAttempts - 1);
    var totalCorrect := Max(0, doc.totalCorrect - Score01(record.difficulty));
    match Assoc.Find(doc.topicSkills, record.topic)
    case None => SkillDoc(doc.topicSkills, history, DefaultRating, totalAttempts, totalCorrect)
    case Some(t) =>
      var topics := Assoc.Put(doc.topicSkills, record.topic, Unattempted(t, record));
      SkillDoc(topics, history, Overall(Ratings(topics)), totalAttempts, totalCorrect)
  }

  /** `undoFeedback`. */
  function UndoFeedback(store: Option<SkillDoc>, materialId: string): (r: Result<Undone>)
    ensures store.None? ==> r == Failed(NoSkillDoc)
    ensures store.Some? && !Rated(store, materialId) ==> r == Failed(NoFeedback)
    ensures r.Ok? <==> Rated(store, materialId)
    ensures r.Ok? ==> r.value.materialRating == Assoc.Find(store.value.feedbackHistory, materialId).value.materialRatingBefore
  {
    if store.None? then Failed(NoSkillDoc)
    else
      match Assoc.Find(store.value.feedbackHistory, materialId)
      case None => Failed(NoFeedback)
      case Some(record) => Ok(Undone(Restored(store.value, materialId, record), record.materialRatingBefore))
  }

  /** A feedback adds one attempt to the topic and to the totals, and one correct answer
      to both exactly when the difficulty counts as correct; other topics keep their skill. */
  lemma FeedbackCounters(store: Option<SkillDoc>, m: Material, d: Difficulty, p: real, other: string)
    requires Probability(p)
    requires !Rated(store, m.materialId)
    ensures var doc := if store.Some? then store.value else EmptyDoc;
      var r := ProcessFeedback(store, Some(m), m.materialId, d, p).value.doc;
      var before := Skill(doc.topicSkills, TopicKey(m));
      var after := Skill(r.topicSkills, TopicKey(m));
      && after.attempts == before.attempts + 1
      && after.correct == before.correct + (if IsCorrect(d) then 1 else 0)
      && after.rating == UpdateRating(before.rating, d, p)
      && r.totalAttempts == doc.totalAttempts + 1
      && r.totalCorrect == doc.totalCorrect + (if IsCorrect(d) then 1 else 0)
      && (other != TopicKey(m) ==> Assoc.Find(r.topicSkills, other) == Assoc.Find(doc.topicSkills, other))
      && Assoc.Find(r.feedbackHistory, m.materialId) == Some(RecordOf(before, m, d, p))
  {
    var doc := if store.Some? then store.value else EmptyDoc;
    var key := TopicKey(m);
    var before := Skill(doc.topicSkills, key);
    var skill := Attempted(before, d, p);
    Assoc.FindPutSame(doc.topicSkills, key, skill);
    Assoc.FindPutSame(doc.feedbackHistory, m.materialId, RecordOf(before, m, d, p));
    if other != key {
      Assoc.FindPutOther(doc.topicSkills, key, skill, other);
    }
  }

  /** An undo takes one attempt back from the topic and the totals, and one correct
      answer when the undone difficulty counted as correct, never going below zero;
      the topic's rating returns to the one recorded before the feedback. */
  lemma UndoCounters(doc: SkillDoc, materialId: string, rec: FeedbackRecord, other: string)
    requires Assoc.Find(doc.feedbackHistory, materialId) == Some(rec)
    ensures var r := UndoFeedback(Some(doc), materialId).value.doc;
      && r.totalAttempts == Max(0, doc.totalAttempts - 1)
      && r.totalCorrect == Max(0, doc.totalCorrect - (if IsCorrect(rec.difficulty) then 1 else 0))
      && Assoc.Find(r.feedbackHistory, materialId).None?
      && (rec.topic in Assoc.Keys(doc.topicSkills) ==>
            var t := Skill(doc.topicSkills, rec.topic);
            Assoc.Find(r.topicSkills, rec.topic) == Some(TopicSkill(rec.ratingBefore, Max(0, t.attempts - 1), Max(0, t.correct - Score01(rec.difficulty)))))
      && (other != rec.topic ==> Assoc.Find(r.topicSkills, other) == Assoc.Find(doc.topicSkills, other))
      && (other != materialId ==> Assoc.Find(r.feedbackHistory, other) == Assoc.Find(doc.feedbackHistory, other))
  {
    RestoredCounters(doc, materialId, rec, other);
  }

  lemma RestoredCounters(doc: SkillDoc, materialId: string, rec: FeedbackRecord, other: string)
    ensures var r := Restored(doc, materialId, rec);
      && r.totalAttempts == Max(0, doc.totalAttempts - 1)
      && r.totalCorrect == Max(0, doc.totalCorrect - Score01(rec.difficulty))
      && Assoc.Find(r.feedbackHistory, materialId).None?
      && (rec.topic in Assoc.Keys(doc.topicSkills) ==>
            Assoc.Find(r.topicSkills, rec.topic) == Some(Unattempted(Skill(doc.topicSkills, rec.topic), rec)))
      && (other != rec.topic ==> Assoc.Find(r.topicSkills, other) == Assoc.Find(doc.topicSkills, other))
      && (other != materialId ==> Assoc.Find(r.feedbackHistory, other) == Assoc.Find(doc.feedbackHistory, other))
  {
    if rec.topic in Assoc.Keys(doc.topicSkills) {
      var t := Skill(doc.topicSkills, rec.topic);
      Assoc.FindPutSame(doc.topicSkills, rec.topic, Unattempted(t, rec));
      if other != rec.topic {
        Assoc.FindPutOther(doc.topicSkills, rec.topic, Unattempted(t, rec), other);
      }
    }
    if other != materialId {
      Assoc.FindRemoveOther(doc.feedbackHistory, materialId, other);
    }
  }

  /** The documents the two operations keep well formed. */
  ghost predicate Valid(doc: SkillDoc) {
    && Assoc.DistinctKeys(doc.topicSkills)
    && Assoc.DistinctKeys(doc.feedbackHistory)
    && SkillsValid(doc.topicSkills)
    && RecordsValid(doc.feedbackHistory, doc.topicSkills)
    && doc.overallRating == Overall(Ratings(doc.topicSkills))
    && doc.totalAttempts >= 0 && doc.totalCorrect >= 0
  }

  predicate SkillValid(s: TopicSkill) {
    InRange(s.rating) && s.attempts >= 0 && s.correct >= 0
  }

  predicate SkillsValid(skills: seq<(string, TopicSkill)>) {
    forall e :: e in skills ==> SkillValid(e.1)
  }

  /** A record names a topic of the document and a rating it can restore. */
  predicate RecordValid(rec: FeedbackRecord, skills: seq<(string, TopicSkill)>) {
    InRange(rec.ratingBefore) && rec.topic in Assoc.Keys(skills)
  }

  predicate RecordsValid(history: seq<(string, FeedbackRecord)>, skills: seq<(string, TopicSkill)>) {
    forall e :: e in history ==> RecordValid(e.1, skills)
  }

  lemma EmptyDocValid()
    ensures Valid(EmptyDoc)
  {
  }

  /** In a well-formed document the overall rating lies in [100, 2000]. */
  lemma ValidOverallInRange(doc: SkillDoc)
    requires Valid(doc)
    ensures InRange(doc.overallRating)
  {
    var rs := Ratings(doc.topicSkills);
    forall i | 0 <= i < |rs|
      ensures MinRating <= rs[i] <= MaxRating
    {
      assert doc.topicSkills[i] in doc.topicSkills;
    }
    OverallBetween(rs, MinRating, MaxRating);
  }

  lemma FoundSkillValid(skills: seq<(string, TopicSkill)>, key: string)
    requires SkillsValid(skills)
    ensures SkillValid(Skill(skills, key))
  {
  }

  lemma PutSkillValid(skills: seq<(string, TopicSkill)>, key: string, s: TopicSkill)
    requires SkillsValid(skills) && SkillValid(s)
    ensures SkillsValid(Assoc.Put(skills, key, s))
  {
    Assoc.PutEntries(skills, key, s);
  }

  /** Records stay valid when a topic is put: the topic keys only grow. */
  lemma RecordsAfterPut(history: seq<(string, FeedbackRecord)>, skills: seq<(string, TopicSkill)>, key: string, s: TopicSkill)
    requires RecordsValid(history, skills)
    ensures RecordsValid(history, Assoc.Put(skills, key, s))
  {
    Assoc.KeysPut(skills, key, s);
  }

  lemma PutRecordValid(history: seq<(string, FeedbackRecord)>, id: string, rec: FeedbackRecord, skills: seq<(string, TopicSkill)>)
    requires RecordsValid(history, skills) && RecordValid(rec, skills)
    ensures RecordsValid(Assoc.Put(history, id, rec), skills)
  {
    Assoc.PutEntries(history, id, rec);
  }

  lemma RemoveRecordValid(history: seq<(string, FeedbackRecord)>, id: string, skills: seq<(string, TopicSkill)>)
    requires RecordsValid(history, skills)
    ensures RecordsValid(Assoc.Remove(history, id), skills)
  {
    Assoc.RemoveEntries(history, id);
  }

  /** A feedback keeps the document well formed. */
  lemma ProcessKeepsValid(store: Option<SkillDoc>, m: Material, materialId: string, d: Difficulty, p: real)
    requires Probability(p)
    requires store.Some? ==> Valid(store.value)
    requires !Rated(store, materialId)
    ensures Valid(ProcessFeedback(store, Some(m), materialId, d, p).value.doc)
  {
    var doc := if store.Some? then store.value else EmptyDoc;
    AppliedValid(doc, m, materialId, d, p);
  }

  lemma AppliedValid(doc: SkillDoc, m: Material, materialId: string, d: Difficulty, p: real)
    requires Probability(p)
    requires Valid(doc)
    ensures Valid(Applied(doc, m, materialId, d, p))
  {
    var key := TopicKey(m);
    var current := Skill(doc.topicSkills, key);
    FoundSkillValid(doc.topicSkills, key);
    var skill := Attempted(current, d, p);
    var topics := Assoc.Put(doc.topicSkills, key, skill);
    PutSkillValid(doc.topicSkills, key, skill);
    Assoc.PutKeepsDistinct(doc.topicSkills, key, skill);
    RecordsAfterPut(doc.feedbackHistory, doc.topicSkills, key, skill);
    Assoc.KeysPut(doc.topicSkills, key, skill);
    PutRecordValid(doc.feedbackHistory, materialId, RecordOf(current, m, d, p), topics);
    Assoc.PutKeepsDistinct(doc.feedbackHistory, materialId, RecordOf(current, m, d, p));
  }

  /** An undo keeps the document well formed, and it always finds the record's topic. */
  lemma UndoKeepsValid(doc: SkillDoc, materialId: string)
    requires Valid(doc)
    requires Rated(Some(doc), materialId)
    ensures Valid(UndoFeedback(Some(doc), materialId).value.doc)
    ensures Assoc.Find(doc.feedbackHistory, materialId).value.topic in Assoc.Keys(doc.topicSkills)
  {
    var rec := Assoc.Find(doc.feedbackHistory, materialId).value;
    assert (materialId, rec) in doc.feedbackHistory;
    RestoredValid(doc, materialId, rec);
  }

  lemma RestoredValid(doc: SkillDoc, materialId: string, rec: FeedbackRecord)
    requires Valid(doc)
    requires RecordValid(rec, doc.topicSkills)
    ensures Valid(Restored(doc, materialId, rec))
  {
    var t := Skill(doc.topicSkills, rec.topic);
    FoundSkillValid(doc.topicSkills, rec.topic);
    var restored := Unattempted(t, rec);
    PutSkillValid(doc.topicSkills, rec.topic, restored);
    Assoc.PutKeepsDistinct(doc.topicSkills, rec.topic, restored);
    RemoveRecordValid(doc.feedbackHistory, materialId, doc.topicSkills);
    RecordsAfterPut(Assoc.Remove(doc.feedbackHistory, materialId), doc.topicSkills, rec.topic, restored);
    Assoc.RemoveKeepsDistinct(doc.feedbackHistory, materialId);
  }

  /**
   * Undoing a feedback right after it restores the topic's rating and counters,
   * the totals, the history and the material's rating; when the topic was already
   * rated, the document comes back exactly.
   */
  lemma UndoAfterProcess(doc: SkillDoc, m: Material, d: Difficulty, p: real)
    requires Probability(p)
    requires Valid(doc)
    requires !Rated(Some(doc), m.materialId)
    ensures var after := ProcessFeedback(Some(doc), Some(m), m.materialId, d, p).value.doc;
      var back := UndoFeedback(Some(after), m.materialId);
      && back.Ok?
      && back.value.materialRating == m.difficultyRating
      && back.value.doc.feedbackHistory == doc.feedbackHistory
      && back.value.doc.totalAttempts == doc.totalAttempts
      && back.value.doc.totalCorrect == doc.totalCorrect
      && Assoc.Find(back.value.doc.topicSkills, TopicKey(m)) == Some(Skill(doc.topicSkills, TopicKey(m)))
      && (TopicKey(m) in Assoc.Keys(doc.topicSkills) ==> back.value.doc == doc)
  {
    var after := Applied(doc, m, m.materialId, d, p);
    var current := Skill(doc.topicSkills, TopicKey(m));
    var record := RecordOf(current, m, d, p);
    Assoc.FindPutSame(doc.feedbackHistory, m.materialId, record);
    assert UndoFeedback(Some(after), m.materialId) == Ok(Undone(Restored(after, m.materialId, record), m.difficultyRating));
    RestoredAfterApplied(doc, m, d, p);
  }

  lemma RestoredAfterApplied(doc: SkillDoc, m: Material, d: Difficulty, p: real)
    requires Probability(p)
    requires Valid(doc)
    requires !Rated(Some(doc), m.materialId)
    ensures var current := Skill(doc.topicSkills, TopicKey(m));
      var back := Restored(Applied(doc, m, m.materialId, d, p), m.materialId, RecordOf(current, m, d, p));
      && back.feedbackHistory == doc.feedbackHistory
      && back.totalAttempts == doc.totalAttempts
      && back.totalCorrect == doc.totalCorrect
      && back.topicSkills == Assoc.Put(doc.topicSkills, TopicKey(m), current)
      && Assoc.Find(back.topicSkills, TopicKey(m)) == Some(current)
      && (TopicKey(m) in Assoc.Keys(doc.topicSkills) ==> back == doc)
  {
    var key := TopicKey(m);
    var current := Skill(doc.topicSkills, key);
    FoundSkillValid(doc.topicSkills, key);
    var skill := Attempted(current, d, p);
    var record := RecordOf(current, m, d, p);
    Assoc.FindPutSame(doc.topicSkills, key, skill);
    Assoc.RemovePutNew(doc.feedbackHistory, m.materialId, record);
    assert Unattempted(skill, record) == current;
    Assoc.PutPut(doc.topicSkills, key, skill, current);
    Assoc.FindPutSame(doc.topicSkills, key, current);
    if key in Assoc.Keys(doc.topicSkills) {
      Assoc.PutFound(doc.topicSkills, key);
    }
  }

  // ---------------------------------------------------------------------
  // Recommendations

  /**
   * `score`: twice the topic's weakness (1000 minus its rating, or 100 for an
   * unrated topic) minus the distance of the material's difficulty from 50 above
   * the topic's rating (the overall rating for an unrated topic).
   */
  function Score(m: Material, skills: seq<(string, TopicSkill)>, overall: int): int {
    match Assoc.Find(skills, TopicKey(m))
    case Some(s) => (DefaultRating - s.rating) * 2 - Abs(m.difficultyRating - (s.rating + 50))
    case None => 100 * 2 - Abs(m.difficultyRating - (overall + 50))
  }

  /** The weakness a material's topic contributes. */
  function Weakness(m: Material, skills: seq<(string, TopicSkill)>): int {
    match Assoc.Find(skills, TopicKey(m))
    case Some(s) => DefaultRating - s.rating
    case None => 100
  }

  /** The difficulty a material is compared with: 50 above its topic's rating. */
  function Target(m: Material, skills: seq<(string, TopicSkill)>, overall: int): int {
    match Assoc.Find(skills, TopicKey(m))
    case Some(s) => s.rating + 50
    case None => overall + 50
  }

  /** A material scores at most twice its topic's weakness, reached exactly at the
      target difficulty. */
  lemma ScoreBound(m: Material, skills: seq<(string, TopicSkill)>, overall: int)
    ensures Score(m, skills, overall) <= 2 * Weakness(m, skills)
    ensures Score(m, skills, overall) == 2 * Weakness(m, skills) <==> m.difficultyRating == Target(m, skills, overall)
  {
  }

  /** Of two materials on the same topic, the one nearer the target difficulty scores higher. */
  lemma ScoreNearer(a: Material, b: Material, skills: seq<(string, TopicSkill)>, overall: int)
    requires TopicKey(a) == TopicKey(b)
    ensures Abs(a.difficultyRating - Target(a, skills, overall)) <= Abs(b.difficultyRating - Target(b, skills, overall))
        <==> Score(b, skills, overall) <= Score(a, skills, overall)
  {
  }

  /** Within 350 of the overall rating, either way. */
  predicate InBand(m: Material, overall: int) {
    overall - 350 <= m.difficultyRating <= overall + 350
  }

  /** `difficultyRating: { $gte: overall - 350, $lte: overall + 350 }`, in store order. */
  function Window(catalog: seq<Material>, overall: int): (r: seq<Material>)
    ensures |r| <= |catalog|
    ensures forall i :: 0 <= i < |r| ==> InBand(r[i], overall)
  {
    if catalog == [] then []
    else
      var rest := Window(catalog[1..], overall);
      if InBand(catalog[0], overall) then [catalog[0]] + rest else rest
  }

  /** The window holds exactly the catalogue's materials within the band, each as
      often as the catalogue does, and is empty only when none is that near. */
  lemma {:induction false} WindowComplete(catalog: seq<Material>, overall: int)
    ensures forall m :: m in Window(catalog, overall) <==> m in catalog && InBand(m, overall)
    ensures multiset(Window(catalog, overall)) <= multiset(catalog)
    ensures Window(catalog, overall) == [] <==> forall i :: 0 <= i < |catalog| ==> !InBand(catalog[i], overall)
  {
    if catalog != [] {
      var rest := catalog[1..];
      assert catalog == [catalog[0]] + rest;
      WindowComplete(rest, overall);
      if !InBand(catalog[0], overall) {
        forall i | 0 <= i < |catalog| && InBand(catalog[i], overall)
          ensures Window(catalog, overall) != []
        {
          assert catalog[i] in rest;
        }
      }
    }
  }

  /** Mongo's `limit(n)`: 0 means no limit, a negative n returns at most |n|. */
  function CursorLimit<T>(s: seq<T>, n: int): (r: seq<T>)
    ensures n == 0 ==> r == s
    ensures n != 0 ==> |r| == if |s| < Abs(n) then |s| else Abs(n)
    ensures r == s[..|r|]
  {
    if n == 0 || |s| <= Abs(n) then s else s[..Abs(n)]
  }

  /** The number of materials under a topic key. */
  function KeyCount(s: seq<Material>, key: string): (n: nat)
    ensures n <= |s|
  {
    if s == [] then 0
    else KeyCount(s[..|s| - 1], key) + (if TopicKey(s[|s| - 1]) == key then 1 else 0)
  }

  lemma KeyCountSnoc(s: seq<Material>, m: Material, key: string)
    ensures KeyCount(s + [m], key) == KeyCount(s, key) + (if TopicKey(m) == key then 1 else 0)
  {
    assert (s + [m])[..|s|] == s;
  }

  /**
   * The greedy pass over the ranked materials: stop once `limit` are taken, and
   * skip a material whose topic already has two.
   */
  function Greedy(items: seq<Material>, limit: int): (r: seq<Material>)
    ensures |r| <= Max(limit, 0)
  {
    if items == [] then []
    else
      var prev := Greedy(items[..|items| - 1], limit);
      var m := items[|items| - 1];
      if |prev| >= limit || KeyCount(prev, TopicKey(m)) >= 2 then prev else prev + [m]
  }

  /** The greedy pass takes at most two materials per topic, each from the ranking. */
  lemma {:induction false} GreedyBounds(items: seq<Material>, limit: int)
    ensures forall key :: KeyCount(Greedy(items, limit), key) <= 2
    ensures multiset(Greedy(items, limit)) <= multiset(items)
  {
    if items != [] {
      var init := items[..|items| - 1];
      var m := items[|items| - 1];
      assert items == init + [m];
      var prev := Greedy(init, limit);
      GreedyBounds(init, limit);
      if !(|prev| >= limit || KeyCount(prev, TopicKey(m)) >= 2) {
        forall key {
          KeyCountSnoc(prev, m, key);
        }
      }
    }
  }

  /** One step of the greedy pass. */
  lemma GreedyStep(items: seq<Material>, i: int, limit: int)
    requires 0 <= i < |items|
    ensures var prev := Greedy(items[..i], limit);
      Greedy(items[..i + 1], limit) ==
        if |prev| >= limit || KeyCount(prev, TopicKey(items[i])) >= 2 then prev else prev + [items[i]]
  {
    assert items[..i + 1][..i] == items[..i];
  }

  /** A topic ends with two materials, or with all it has when there are fewer,
      unless the result is full. */
  lemma {:induction false} GreedyComplete(items: seq<Material>, limit: int, key: string)
    requires |Greedy(items, limit)| < limit
    ensures KeyCount(Greedy(items, limit), key) == if KeyCount(items, key) < 2 then KeyCount(items, key) else 2
  {
    if items != [] {
      var init := items[..|items| - 1];
      var m := items[|items| - 1];
      var prev := Greedy(init, limit);
      GreedyComplete(init, limit, key);
      if KeyCount(prev, TopicKey(m)) < 2 {
        KeyCountSnoc(prev, m, key);
      } else {
        GreedyComplete(init, limit, TopicKey(m));
      }
    }
  }

  /** The greedy pass keeps the order of the ranking. */
  lemma {:induction false} GreedySorted(items: seq<Material>, limit: int, key: Material -> int)
    requires Sorting.SortedBy(items, key)
    ensures Sorting.SortedBy(Greedy(items, limit), key)
  {
    if items != [] {
      var init := items[..|items| - 1];
      var m := items[|items| - 1];
      var prev := Greedy(init, limit);
      assert Sorting.SortedBy(init, key);
      GreedySorted(init, limit, key);
      GreedyBounds(init, limit);
      if !(|prev| >= limit || KeyCount(prev, TopicKey(m)) >= 2) {
        var r := prev + [m];
        forall i, j | 0 <= i < j < |r|
          ensures key(r[i]) <= key(r[j])
        {
          if j == |prev| {
            assert r[i] in multiset(init);
            var k :| 0 <= k < |init| && init[k] == r[i];
            assert items[k] == r[i];
          }
        }
      }
    }
  }

  /** Once `limit` are taken, the rest of the ranking changes nothing. */
  lemma {:induction false} GreedySaturated(items: seq<Material>, i: int, limit: int)
    requires 0 <= i <= |items|
    requires |Greedy(items[..i], limit)| >= limit
    ensures Greedy(items, limit) == Greedy(items[..i], limit)
    decreases |items|
  {
    if i < |items| {
      var init := items[..|items| - 1];
      assert init[..i] == items[..i];
      GreedySaturated(init, i, limit);
    } else {
      assert items[..i] == items;
    }
  }

  /** `topicCount[key] || 0`. */
  function CountIn(topicCount: map<string, int>, key: string): int {
    if key in topicCount then topicCount[key] else 0
  }

  /** The counter map tracks the materials taken per topic. */
  ghost predicate Tracks(topicCount: map<string, int>, result: seq<Material>) {
    forall key :: CountIn(topicCount, key) == KeyCount(result, key)
  }

  lemma TracksPush(topicCount: map<string, int>, result: seq<Material>, m: Material)
    requires Tracks(topicCount, result)
    ensures Tracks(topicCount[TopicKey(m) := CountIn(topicCount, TopicKey(m)) + 1], result + [m])
  {
    forall key {
      KeyCountSnoc(result, m, key);
    }
  }

  /** The selection loop of `getRecommendations`, over materials ranked by score. */
  method SelectDiverse(ranked: seq<Material>, limit: int) returns (result: seq<Material>)
    ensures result == Greedy(ranked, limit)
  {
    var topicCount: map<string, int> := map[];
    result := [];
    assert ranked[..|ranked|] == ranked;
    for i := 0 to |ranked|
      invariant result == Greedy(ranked[..i], limit)
      invariant Tracks(topicCount, result)
    {
      if |result| >= limit {
        GreedySaturated(ranked, i, limit);
        break;
      }
      var m := ranked[i];
      var key := TopicKey(m);
      var cnt := if key in topicCount then topicCount[key] else 0;
      SelectStep(ranked, i, limit, result, topicCount);
      if cnt < 2 {
        result := result + [m];
        topicCount := topicCount[key := cnt + 1];
      }
    }
  }

  /** One pass of the selection loop agrees with one step of the greedy pass and
      keeps the counters in step with the result. */
  lemma SelectStep(ranked: seq<Material>, i: int, limit: int, result: seq<Material>, topicCount: map<string, int>)
    requires 0 <= i < |ranked| && |result| < limit
    requires result == Greedy(ranked[..i], limit) && Tracks(topicCount, result)
    ensures var key := TopicKey(ranked[i]);
      var cnt := CountIn(topicCount, key);
      (cnt < 2 ==> Greedy(ranked[..i + 1], limit) == result + [ranked[i]]
                   && Tracks(topicCount[key := cnt + 1], result + [ranked[i]]))
      && (cnt >= 2 ==> Greedy(ranked[..i + 1], limit) == result)
  {
    GreedyStep(ranked, i, limit);
    var key := TopicKey(ranked[i]);
    assert CountIn(topicCount, key) == KeyCount(result, key);
    if CountIn(topicCount, key) < 2 {
      TracksPush(topicCount, result, ranked[i]);
    }
  }

  /** `scored.sort((a, b) => b.score - a.score)`: a stable sort on the negated score. */
  function Ranked(candidates: seq<Material>, skills: seq<(string, TopicSkill)>, overall: int): seq<Material> {
    Sorting.SortBy(candidates, (m: Material) => -Score(m, skills, overall))
  }

  function DifficultyOf(m: Material): int {
    m.difficultyRating
  }

  /** `find({ isActive: true }).sort({ difficultyRating: 1 })`. */
  function ByDifficulty(catalog: seq<Material>): (r: seq<Material>)
    ensures multiset(r) == multiset(catalog) && |r| == |catalog|
    ensures forall i, j :: 0 <= i < j < |r| ==> r[i].difficultyRating <= r[j].difficultyRating
  {
    Sorting.SortBySorted(catalog, DifficultyOf);
    Sorting.SortBy(catalog, DifficultyOf)
  }

  /**
   * `getRecommendations`: `skills` are the student's topic skills (none without a
   * user or a skill document) and `catalog` the active materials in store order.
   */
  function Recommend(skills: seq<(string, TopicSkill)>, catalog: seq<Material>, limit: int): seq<Material> {
    var overall := Overall(Ratings(skills));
    var candidates := CursorLimit(Window(catalog, overall), 100);
    if candidates == [] then
      CursorLimit(ByDifficulty(catalog), limit)
    else
      Greedy(Ranked(candidates, skills, overall), limit)
  }

  /** At most two, and fewer only when the topic has fewer. */
  function UpToTwo(n: nat): nat {
    if n < 2 then n else 2
  }

  /**
   * With materials near the student's level, the answer is the greedy pass over
   * the first 100 of them ranked by score: at most `limit` materials, at most two
   * per topic, in descending score order, all near the student's level; unless
   * the answer is full, every topic among the candidates has two in it (or all it
   * has), so a positive limit never gives an empty answer.
   */
  lemma RecommendNear(skills: seq<(string, TopicSkill)>, catalog: seq<Material>, limit: int)
    requires Window(catalog, Overall(Ratings(skills))) != []
    ensures var overall := Overall(Ratings(skills));
      var candidates := CursorLimit(Window(catalog, overall), 100);
      var r := Recommend(skills, catalog, limit);
      && r == Greedy(Ranked(candidates, skills, overall), limit)
      && |r| <= Max(limit, 0)
      && (forall key :: KeyCount(r, key) <= 2)
      && (forall i, j :: 0 <= i < j < |r| ==> Score(r[j], skills, overall) <= Score(r[i], skills, overall))
      && (forall i :: 0 <= i < |r| ==> InBand(r[i], overall))
      && (|r| < limit ==> forall key :: KeyCount(r, key) == UpToTwo(KeyCount(candidates, key)))
      && (limit > 0 ==> r != [])
  {
    var overall := Overall(Ratings(skills));
    var window := Window(catalog, overall);
    var candidates := CursorLimit(window, 100);
    var key := (m: Material) => -Score(m, skills, overall);
    var ranked := Ranked(candidates, skills, overall);
    var r := Greedy(ranked, limit);
    assert Recommend(skills, catalog, limit) == r;
    Sorting.SortBySorted(candidates, key);
    GreedySorted(ranked, limit, key);
    GreedyBounds(ranked, limit);
    InWindow(r, candidates, window, overall);
    if |r| < limit {
      GreedyCovers(ranked, candidates, limit);
    }
  }

  /** Short of the limit, the greedy pass over a reordering of the candidates
      takes two of each topic, or all it has; and it takes something. */
  lemma GreedyCovers(ranked: seq<Material>, candidates: seq<Material>, limit: int)
    requires multiset(ranked) == multiset(candidates) && candidates != []
    requires |Greedy(ranked, limit)| < limit
    ensures forall key :: KeyCount(Greedy(ranked, limit), key) == UpToTwo(KeyCount(candidates, key))
    ensures Greedy(ranked, limit) != []
  {
    var r := Greedy(ranked, limit);
    forall k
      ensures KeyCount(r, k) == UpToTwo(KeyCount(candidates, k))
    {
      GreedyComplete(ranked, limit, k);
      KeyCountPerm(ranked, candidates, k);
    }
    var k := TopicKey(candidates[0]);
    assert KeyCount(candidates, k) >= 1 by {
      assert candidates == [candidates[0]] + candidates[1..];
      KeyCountConcat([candidates[0]], candidates[1..], k);
      assert [candidates[0]][..0] == [];
    }
  }

  lemma {:induction false} KeyCountConcat(a: seq<Material>, b: seq<Material>, key: string)
    ensures KeyCount(a + b, key) == KeyCount(a, key) + KeyCount(b, key)
    decreases |b|
  {
    if b == [] {
      assert a + b == a;
    } else {
      var init := b[..|b| - 1];
      var m := b[|b| - 1];
      assert b == init + [m];
      assert a + b == (a + init) + [m];
      KeyCountConcat(a, init, key);
      KeyCountSnoc(a + init, m, key);
      KeyCountSnoc(init, m, key);
    }
  }

  /** Counting per topic does not depend on the order. */
  lemma {:induction false} KeyCountPerm(a: seq<Material>, b: seq<Material>, key: string)
    requires multiset(a) == multiset(b)
    ensures KeyCount(a, key) == KeyCount(b, key)
    decreases |a|
  {
    if a == [] {
      assert |b| == |multiset(b)|;
    } else {
      var init, m := DropLast(a);
      var k := Locate(b, m);
      var rest := b[..k] + b[k + 1..];
      Cancel(multiset(init), multiset(rest), m);
      KeyCountPerm(init, rest, key);
      KeyCountSnoc(init, m, key);
      KeyCountConcat(b[..k] + [m], b[k + 1..], key);
      KeyCountSnoc(b[..k], m, key);
      KeyCountConcat(b[..k], b[k + 1..], key);
    }
  }

  lemma DropLast<T>(a: seq<T>) returns (init: seq<T>, last: T)
    requires a != []
    ensures init == a[..|a| - 1] && last == a[|a| - 1] && a == init + [last]
    ensures multiset(a) == multiset(init) + multiset{last}
  {
    init, last := a[..|a| - 1], a[|a| - 1];
    assert a == init + [last];
  }

  lemma Cancel<T>(x: multiset<T>, y: multiset<T>, m: T)
    requires x + multiset{m} == y + multiset{m}
    ensures x == y
  {
    assert forall e :: x[e] == (x + multiset{m})[e] - multiset{m}[e];
    assert forall e :: y[e] == (y + multiset{m})[e] - multiset{m}[e];
  }

  /** Where `m` sits in `b`, and what `b` holds besides. */
  lemma Locate<T>(b: seq<T>, m: T) returns (k: nat)
    requires m in multiset(b)
    ensures k < |b| && b[k] == m && b == b[..k] + [m] + b[k + 1..]
    ensures multiset(b) == multiset(b[..k] + b[k + 1..]) + multiset{m}
  {
    k :| 0 <= k < |b| && b[k] == m;
    assert b == b[..k] + [m] + b[k + 1..];
  }

  lemma InWindow(r: seq<Material>, candidates: seq<Material>, window: seq<Material>, overall: int)
    requires multiset(r) <= multiset(candidates)
    requires |candidates| <= |window| && candidates == window[..|candidates|]
    requires forall i :: 0 <= i < |window| ==> InBand(window[i], overall)
    ensures forall i :: 0 <= i < |r| ==> InBand(r[i], overall)
  {
    forall i | 0 <= i < |r|
      ensures InBand(r[i], overall)
    {
      assert r[i] in multiset(candidates);
      var k :| 0 <= k < |candidates| && candidates[k] == r[i];
      assert window[k] == r[i];
    }
  }

  /** Without materials near the student's level, the answer is the easiest active
      materials, at most `limit` of them (all of them for a limit of 0). */
  lemma RecommendFallback(skills: seq<(string, TopicSkill)>, catalog: seq<Material>, limit: int)
    requires Window(catalog, Overall(Ratings(skills))) == []
    ensures var r := Recommend(skills, catalog, limit);
      && multiset(r) <= multiset(catalog)
      && (limit == 0 ==> |r| == |catalog|)
      && (limit != 0 ==> |r| == if |catalog| < Abs(limit) then |catalog| else Abs(limit))
      && (forall i, j :: 0 <= i < j < |r| ==> r[i].difficultyRating <= r[j].difficultyRating)
      && (forall i, j :: 0 <= i < |r| <= j < |catalog| ==> r[i].difficultyRating <= ByDifficulty(catalog)[j].difficultyRating)
  {
    var sorted := ByDifficulty(catalog);
    var r := CursorLimit(sorted, limit);
    FallbackTaken(skills, catalog, limit);
    PrefixOfSorted(sorted, |r|);
  }

  lemma FallbackTaken(skills: seq<(string, TopicSkill)>, catalog: seq<Material>, limit: int)
    requires Window(catalog, Overall(Ratings(skills))) == []
    ensures Recommend(skills, catalog, limit) == CursorLimit(ByDifficulty(catalog), limit)
  {
  }

  /** A prefix of the sorted catalogue: a sub-multiset, sorted, and no harder than the rest. */
  lemma PrefixOfSorted(sorted: seq<Material>, n: int)
    requires 0 <= n <= |sorted|
    requires forall i, j :: 0 <= i < j < |sorted| ==> sorted[i].difficultyRating <= sorted[j].difficultyRating
    ensures multiset(sorted[..n]) <= multiset(sorted)
    ensures forall i, j :: 0 <= i < n <= j < |sorted| ==> sorted[..n][i].difficultyRating <= sorted[j].difficultyRating
  {
    assert sorted == sorted[..n] + sorted[n..];
    assert multiset(sorted) == multiset(sorted[..n]) + multiset(sorted[n..]);
  }
}
