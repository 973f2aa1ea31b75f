/**
 * The hall-of-fame seed script: default admissions and reviews become seed
 * items, each item is matched against the stored entries by a text key, and
 * is counted as an insert, an update or a skip; with `--apply` every item is
 * written as an upsert.
 */
module SeedHallOfFame {
  import opened Optional
  import opened JsText
  import opened JsCore
  import opened ApiHelpers
  import Assoc

  const DefaultBadge := "수시 합격"
  const DefaultTag := "수강생"
  const SeedAuthor := "seed-script"

  datatype Kind = Admission | Review

  function Max(a: int, b: int): int {
    if a < b then b else a
  }

  function Min(a: int, b: int): int {
    if a < b then a else b
  }

  /** `clampReviewStars`: 5 for anything `Number` cannot read, else the rounded value held to 1..5. */
  function ClampReviewStars(v: JsValue): (r: int)
    ensures 1 <= r <= 5
  {
    var n := ToNumber(v);
    if !n.Fin? then 5 else Max(1, Min(5, Round(n.r)))
  }

  /** A value that is not a finite number gets five stars; a number that rounds into
      1..5 keeps its rounded value; anything else is held to the nearer bound. */
  lemma ClampReviewStarsCases(v: JsValue)
    ensures !FiniteNumber(v) ==> ClampReviewStars(v) == 5
    ensures FiniteNumber(v) ==> var n := Round(ToNumber(v).r);
      && (1 <= n <= 5 ==> ClampReviewStars(v) == n)
      && (n < 1 ==> ClampReviewStars(v) == 1)
      && (n > 5 ==> ClampReviewStars(v) == 5)
  {
  }

  /** A star count the script wrote itself reads back unchanged. */
  lemma ClampStoredStars(n: int)
    requires 1 <= n <= 5
    ensures ClampReviewStars(Number(Fin(n as real))) == n
  {
    RoundOfInt(n);
  }

  function KindName(kind: Kind): string {
    if kind == Admission then "admission" else "review"
  }

  function AdmissionKey(univ: string, major: string, student: string): string {
    "admission|" + (univ + "|" + (major + "|" + student))
  }

  function ReviewKey(name: string, content: string): string {
    "review|" + (name + "|" + content)
  }

  /** `toSeedKey`: the kind and the identifying fields, trimmed and joined by '|'. */
  function SeedKey(kind: Kind, univ: JsValue, major: JsValue, student: JsValue, name: JsValue, content: JsValue): string {
    if kind == Admission then
      AdmissionKey(NormalizeText(univ), NormalizeText(major), NormalizeText(student))
    else
      ReviewKey(NormalizeText(name), NormalizeText(content))
  }

  /** In a text joined at a bar, the first bar is the joining one. */
  lemma FirstBar(a: string, b: string)
    requires '|' !in a
    ensures (a + "|" + b)[|a|] == '|'
    ensures forall i :: 0 <= i < |a| ==> (a + "|" + b)[i] != '|'
  {
    forall i | 0 <= i < |a|
      ensures (a + "|" + b)[i] != '|'
    {
      assert (a + "|" + b)[i] == a[i];
    }
  }

  /** Two texts without '|' joined by a bar split back into the same pieces. */
  lemma SplitAtBar(a: string, b: string, c: string, d: string)
    requires '|' !in a && '|' !in c
    requires a + "|" + b == c + "|" + d
    ensures a == c && b == d
  {
    var s := a + "|" + b;
    FirstBar(a, b);
    FirstBar(c, d);
    assert |a| == |c|;
    assert a == s[..|a|] == c;
    assert b == s[|a| + 1..] == d;
  }

  lemma DropPrefix(p: string, a: string, b: string)
    requires p + a == p + b
    ensures a == b
  {
    assert a == (p + a)[|p|..];
    assert b == (p + b)[|p|..];
  }

  /** Admission keys are equal exactly when their fields are, as long as the first two hold no '|'. */
  lemma AdmissionKeyInjective(u1: string, m1: string, s1: string, u2: string, m2: string, s2: string)
    requires '|' !in u1 && '|' !in m1 && '|' !in u2 && '|' !in m2
    ensures AdmissionKey(u1, m1, s1) == AdmissionKey(u2, m2, s2) <==> u1 == u2 && m1 == m2 && s1 == s2
  {
    if AdmissionKey(u1, m1, s1) == AdmissionKey(u2, m2, s2) {
      DropPrefix("admission|", u1 + "|" + (m1 + "|" + s1), u2 + "|" + (m2 + "|" + s2));
      SplitAtBar(u1, m1 + "|" + s1, u2, m2 + "|" + s2);
      SplitAtBar(m1, s1, m2, s2);
    }
  }

  /** Review keys are equal exactly when their fields are, as long as the name holds no '|'. */
  lemma ReviewKeyInjective(n1: string, c1: string, n2: string, c2: string)
    requires '|' !in n1 && '|' !in n2
    ensures ReviewKey(n1, c1) == ReviewKey(n2, c2) <==> n1 == n2 && c1 == c2
  {
    if ReviewKey(n1, c1) == ReviewKey(n2, c2) {
      DropPrefix("review|", n1 + "|" + c1, n2 + "|" + c2);
      SplitAtBar(n1, c1, n2, c2);
    }
  }

  /**
   * Keys tell entries apart: an admission key never equals a review key, and two keys
   * of one kind are equal exactly when the trimmed identifying fields are, as long as
   * no field but the last holds a '|'.
   */
  lemma SeedKeyInjective(k1: Kind, u1: JsValue, m1: JsValue, s1: JsValue, n1: JsValue, c1: JsValue,
                         k2: Kind, u2: JsValue, m2: JsValue, s2: JsValue, n2: JsValue, c2: JsValue)
    requires '|' !in NormalizeText(u1) && '|' !in NormalizeText(m1) && '|' !in NormalizeText(n1)
    requires '|' !in NormalizeText(u2) && '|' !in NormalizeText(m2) && '|' !in NormalizeText(n2)
    ensures SeedKey(k1, u1, m1, s1, n1, c1) == SeedKey(k2, u2, m2, s2, n2, c2) <==>
      && k1 == k2
      && (k1 == Admission ==> NormalizeText(u1) == NormalizeText(u2) && NormalizeText(m1) == NormalizeText(m2) && NormalizeText(s1) == NormalizeText(s2))
      && (k1 == Review ==> NormalizeText(n1) == NormalizeText(n2) && NormalizeText(c1) == NormalizeText(c2))
  {
    var key1 := SeedKey(k1, u1, m1, s1, n1, c1);
    var key2 := SeedKey(k2, u2, m2, s2, n2, c2);
    if k1 != k2 {
      assert key1[0] != key2[0];
    } else if k1 == Admission {
      AdmissionKeyInjective(NormalizeText(u1), NormalizeText(m1), NormalizeText(s1), NormalizeText(u2), NormalizeText(m2), NormalizeText(s2));
    } else {
      ReviewKeyInjective(NormalizeText(n1), NormalizeText(c1), NormalizeText(n2), NormalizeText(c2));
    }
  }

  // ---------------------------------------------------------------- seed items

  datatype DefaultAdmission = DefaultAdmission(univ: JsValue, major: JsValue, student: JsValue, school: JsValue, badge: JsValue, desc: JsValue)

  datatype DefaultReview = DefaultReview(name: JsValue, content: JsValue, tag: JsValue, stars: JsValue)

  datatype SeedItem = SeedItem(
    kind: Kind,
    sortOrder: int,
    isPublished: bool,
    createdBy: string,
    univ: string,
    major: string,
    student: string,
    school: string,
    badge: string,
    desc: string,
    name: string,
    content: string,
    tag: string,
    stars: int)

  /** `normalizeText(v) || fallback`. */
  function TextOr(v: JsValue, fallback: string): string {
    if NormalizeText(v) != "" then NormalizeText(v) else fallback
  }

  function AdmissionItem(a: DefaultAdmission, index: nat, published: bool): SeedItem {
    SeedItem(Admission, (index + 1) * 10, published, SeedAuthor,
      NormalizeText(a.univ), NormalizeText(a.major), NormalizeText(a.student), NormalizeText(a.school),
      TextOr(a.badge, DefaultBadge), NormalizeText(a.desc), "", "", "", 5)
  }

  function ReviewItem(r: DefaultReview, index: nat, published: bool): SeedItem {
    SeedItem(Review, (index + 1) * 10, published, SeedAuthor, "", "", "", "", "", "",
      NormalizeText(r.name), NormalizeText(r.content), TextOr(r.tag, DefaultTag), ClampReviewStars(r.stars))
  }

  function AdmissionItems(admissions: seq<DefaultAdmission>, published: bool): (r: seq<SeedItem>)
    ensures |r| == |admissions|
    ensures forall i :: 0 <= i < |admissions| ==> r[i] == AdmissionItem(admissions[i], i, published)
  {
    seq(|admissions|, i requires 0 <= i < |admissions| => AdmissionItem(admissions[i], i, published))
  }

  function ReviewItems(reviews: seq<DefaultReview>, published: bool): (r: seq<SeedItem>)
    ensures |r| == |reviews|
    ensures forall i :: 0 <= i < |reviews| ==> r[i] == ReviewItem(reviews[i], i, published)
  {
    seq(|reviews|, i requires 0 <= i < |reviews| => ReviewItem(reviews[i], i, published))
  }

  /** `buildSeedItems`: every admission, then every review. */
  function BuildSeedItems(admissions: seq<DefaultAdmission>, reviews: seq<DefaultReview>, published: bool): seq<SeedItem> {
    AdmissionItems(admissions, published) + ReviewItems(reviews, published)
  }

  /** A text with no whitespace at either end. */
  predicate Trimmed(s: string) {
    s == [] || (!IsWhitespace(s[0]) && !IsWhitespace(s[|s| - 1]))
  }

  /** The fields a seed item stores are trimmed and its stars lie in 1..5. */
  predicate WellFormed(item: SeedItem) {
    && Trimmed(item.univ) && Trimmed(item.major) && Trimmed(item.student) && Trimmed(item.school)
    && Trimmed(item.badge) && Trimmed(item.desc) && Trimmed(item.name) && Trimmed(item.content)
    && Trimmed(item.tag) && 1 <= item.stars <= 5
  }

  /** Admissions come first, numbered 10, 20, 30, ... and carrying their defaults'
      trimmed identifying fields; the review fields are blank and the stars five. */
  lemma AdmissionsFirst(admissions: seq<DefaultAdmission>, reviews: seq<DefaultReview>, published: bool)
    ensures var items := BuildSeedItems(admissions, reviews, published);
      && |items| == |admissions| + |reviews|
      && forall i :: 0 <= i < |admissions| ==>
            && items[i].kind == Admission && items[i].sortOrder == (i + 1) * 10
            && items[i].univ == NormalizeText(admissions[i].univ)
            && items[i].major == NormalizeText(admissions[i].major)
            && items[i].student == NormalizeText(admissions[i].student)
            && items[i].name == "" && items[i].content == "" && items[i].tag == "" && items[i].stars == 5
  {
    var items := BuildSeedItems(admissions, reviews, published);
    forall i | 0 <= i < |admissions|
      ensures items[i].kind == Admission && items[i].sortOrder == (i + 1) * 10
      ensures items[i].univ == NormalizeText(admissions[i].univ)
      ensures items[i].major == NormalizeText(admissions[i].major)
      ensures items[i].student == NormalizeText(admissions[i].student)
      ensures items[i].name == "" && items[i].content == "" && items[i].tag == "" && items[i].stars == 5
    {
      AdmissionAt(admissions, reviews, published, i);
    }
  }

  /** Reviews follow the admissions, numbered 10, 20, 30, ... among themselves, with
      their defaults' trimmed name and content and clamped stars; the admission fields
      are blank. */
  lemma ReviewsAfter(admissions: seq<DefaultAdmission>, reviews: seq<DefaultReview>, published: bool)
    ensures var items := BuildSeedItems(admissions, reviews, published);
      forall j :: |admissions| <= j < |items| ==>
            && items[j].kind == Review && items[j].sortOrder == (j - |admissions| + 1) * 10
            && items[j].name == NormalizeText(reviews[j - |admissions|].name)
            && items[j].content == NormalizeText(reviews[j - |admissions|].content)
            && items[j].stars == ClampReviewStars(reviews[j - |admissions|].stars)
            && items[j].univ == "" && items[j].major == "" && items[j].student == "" && items[j].badge == ""
  {
    var items := BuildSeedItems(admissions, reviews, published);
    forall j | |admissions| <= j < |items|
      ensures items[j].kind == Review && items[j].sortOrder == (j - |admissions| + 1) * 10
      ensures items[j].name == NormalizeText(reviews[j - |admissions|].name)
      ensures items[j].content == NormalizeText(reviews[j - |admissions|].content)
      ensures items[j].stars == ClampReviewStars(reviews[j - |admissions|].stars)
      ensures items[j].univ == "" && items[j].major == "" && items[j].student == "" && items[j].badge == ""
    {
      ReviewAt(admissions, reviews, published, j - |admissions|);
    }
  }

  lemma AdmissionAt(admissions: seq<DefaultAdmission>, reviews: seq<DefaultReview>, published: bool, i: int)
    requires 0 <= i < |admissions|
    ensures BuildSeedItems(admissions, reviews, published)[i] == AdmissionItem(admissions[i], i, published)
  {
    var front, back := AdmissionItems(admissions, published), ReviewItems(reviews, published);
    assert (front + back)[i] == front[i];
    assert front[i] == AdmissionItem(admissions[i], i, published);
  }

  lemma ReviewAt(admissions: seq<DefaultAdmission>, reviews: seq<DefaultReview>, published: bool, k: int)
    requires 0 <= k < |reviews|
    ensures BuildSeedItems(admissions, reviews, published)[|admissions| + k] == ReviewItem(reviews[k], k, published)
  {
    var front, back := AdmissionItems(admissions, published), ReviewItems(reviews, published);
    Concat(front, back, |admissions| + k);
    assert back[k] == ReviewItem(reviews[k], k, published);
  }

  lemma Concat<X>(a: seq<X>, b: seq<X>, j: int)
    requires |a| <= j < |a| + |b|
    ensures (a + b)[j] == b[j - |a|]
  {
  }

  /** Every seed item is well formed, carries the requested publication flag and the
      script as its author, and has a badge (admissions) or a tag (reviews). */
  lemma SeedItemsWellFormed(admissions: seq<DefaultAdmission>, reviews: seq<DefaultReview>, published: bool)
    ensures var items := BuildSeedItems(admissions, reviews, published);
      forall i :: 0 <= i < |items| ==>
        && WellFormed(items[i]) && items[i].isPublished == published && items[i].createdBy == SeedAuthor
        && (items[i].kind == Admission ==> items[i].badge != "")
        && (items[i].kind == Review ==> items[i].tag != "")
  {
    var items := BuildSeedItems(admissions, reviews, published);
    forall i | 0 <= i < |items|
      ensures WellFormed(items[i]) && items[i].isPublished == published && items[i].createdBy == SeedAuthor
      ensures items[i].kind == Admission ==> items[i].badge != ""
      ensures items[i].kind == Review ==> items[i].tag != ""
    {
      if i < |admissions| {
        AdmissionAt(admissions, reviews, published, i);
        AdmissionItemWellFormed(admissions[i], i, published);
        AdmissionBadge(admissions[i], i, published);
      } else {
        ReviewAt(admissions, reviews, published, i - |admissions|);
        ReviewItemWellFormed(reviews[i - |admissions|], i - |admissions|, published);
        ReviewTag(reviews[i - |admissions|], i - |admissions|, published);
      }
    }
  }

  /** One admission's seed item is well formed. */
  lemma AdmissionItemWellFormed(a: DefaultAdmission, index: nat, published: bool)
    ensures WellFormed(AdmissionItem(a, index, published))
  {
    NormalizedIsTrimmed(a.univ);
    NormalizedIsTrimmed(a.major);
    NormalizedIsTrimmed(a.student);
    NormalizedIsTrimmed(a.school);
    NormalizedIsTrimmed(a.badge);
    NormalizedIsTrimmed(a.desc);
    DefaultsTrimmed();
  }

  /** An admission keeps its own badge, and a blank one becomes 수시 합격. */
  lemma AdmissionBadge(a: DefaultAdmission, index: nat, published: bool)
    ensures var it := AdmissionItem(a, index, published);
      && it.badge != ""
      && (NormalizeText(a.badge) != "" ==> it.badge == NormalizeText(a.badge))
      && (NormalizeText(a.badge) == "" ==> it.badge == DefaultBadge)
  {
  }

  /** One review's seed item is well formed. */
  lemma ReviewItemWellFormed(r: DefaultReview, index: nat, published: bool)
    ensures WellFormed(ReviewItem(r, index, published))
  {
    ReviewTextTrimmed(r, index, published);
    DefaultsTrimmed();
  }

  lemma ReviewTextTrimmed(r: DefaultReview, index: nat, published: bool)
    ensures var it := ReviewItem(r, index, published);
      Trimmed(it.name) && Trimmed(it.content) && Trimmed(it.tag)
  {
    NormalizedIsTrimmed(r.name);
    NormalizedIsTrimmed(r.content);
    NormalizedIsTrimmed(r.tag);
    DefaultsTrimmed();
  }

  /** A review keeps its own tag, and a blank one becomes 수강생. */
  lemma ReviewTag(r: DefaultReview, index: nat, published: bool)
    ensures var it := ReviewItem(r, index, published);
      && it.tag != ""
      && (NormalizeText(r.tag) != "" ==> it.tag == NormalizeText(r.tag))
      && (NormalizeText(r.tag) == "" ==> it.tag == DefaultTag)
  {
  }

  lemma NormalizedIsTrimmed(v: JsValue)
    ensures Trimmed(NormalizeText(v))
  {
  }

  /** Normalising a trimmed text gives it back. */
  lemma NormalizeTrimmed(s: string)
    requires Trimmed(s)
    ensures NormalizeText(Str(s)) == s
  {
    TrimPlain(s);
  }

  /** The default badge and tag, and the blank text, are already trimmed. */
  lemma DefaultsTrimmed()
    ensures Trimmed(DefaultBadge) && Trimmed(DefaultTag) && Trimmed("")
  {
  }

  // ---------------------------------------------------------------- stored entries

  /** A stored entry as read back; every field may be missing or of any type. */
  datatype HallDoc = HallDoc(
    entryId: JsValue,
    kind: JsValue,
    isPublished: JsValue,
    sortOrder: JsValue,
    univ: JsValue,
    major: JsValue,
    student: JsValue,
    school: JsValue,
    badge: JsValue,
    desc: JsValue,
    name: JsValue,
    content: JsValue,
    tag: JsValue,
    stars: JsValue)

  /** Stored entries with any kind other than 'review' count as admissions. */
  function DocKind(doc: HallDoc): Kind {
    if doc.kind == Str("review") then Review else Admission
  }

  function DocKey(doc: HallDoc): string {
    SeedKey(DocKind(doc), doc.univ, doc.major, doc.student, doc.name, doc.content)
  }

  function ItemKey(item: SeedItem): string {
    SeedKey(item.kind, Str(item.univ), Str(item.major), Str(item.student), Str(item.name), Str(item.content))
  }

  /** `differs`: some compared field of the stored entry, normalised, is not the seed's. */
  predicate Differs(existing: HallDoc, next: SeedItem) {
    StateDiffers(existing, next) || AdmissionFieldsDiffer(existing, next) || ReviewFieldsDiffer(existing, next)
  }

  /** The publication flag, the sort order (missing counts as 0) or the star count. */
  predicate StateDiffers(existing: HallDoc, next: SeedItem) {
    || Truthy(existing.isPublished) != next.isPublished
    || ToNumber(Or(existing.sortOrder, Number(Fin(0.0)))) != Fin(next.sortOrder as real)
    || ClampReviewStars(existing.stars) != next.stars
  }

  predicate AdmissionFieldsDiffer(existing: HallDoc, next: SeedItem) {
    || NormalizeText(existing.univ) != next.univ
    || NormalizeText(existing.major) != next.major
    || NormalizeText(existing.student) != next.student
    || NormalizeText(existing.school) != next.school
    || NormalizeText(existing.badge) != next.badge
    || NormalizeText(existing.desc) != next.desc
  }

  predicate ReviewFieldsDiffer(existing: HallDoc, next: SeedItem) {
    || NormalizeText(existing.name) != next.name
    || NormalizeText(existing.content) != next.content
    || NormalizeText(existing.tag) != next.tag
  }

  /** An entry after the `$set` of an upsert of `item`: every written field is the item's,
      the entry id is kept. */
  function Written(doc: HallDoc, item: SeedItem): HallDoc {
    doc.(kind := Str(KindName(item.kind)), isPublished := Bool(item.isPublished),
      sortOrder := Number(Fin(item.sortOrder as real)),
      univ := Str(item.univ), major := Str(item.major), student := Str(item.student),
      school := Str(item.school), badge := Str(item.badge), desc := Str(item.desc),
      name := Str(item.name), content := Str(item.content), tag := Str(item.tag),
      stars := Number(Fin(item.stars as real)))
  }

  /** The entry an upsert inserts when nothing matches: the written fields and a new entry id. */
  function Inserted(item: SeedItem, entryId: string): HallDoc {
    Written(BlankDoc(entryId), item)
  }

  /** The entry written for a seed item carries the item's key, so a second run finds it. */
  lemma WrittenKey(doc: HallDoc, item: SeedItem)
    ensures DocKey(Written(doc, item)) == ItemKey(item)
  {
    assert DocKind(Written(doc, item)) == item.kind;
  }

  /** Seeding is stable: an entry written for a seed item does not differ from it,
      so a second run skips it. */
  lemma WrittenNotDiffers(doc: HallDoc, item: SeedItem)
    requires WellFormed(item)
    ensures !Differs(Written(doc, item), item)
  {
    WrittenState(doc, item);
    WrittenAdmissionFields(doc, item);
    WrittenReviewFields(doc, item);
  }

  lemma WrittenAdmissionFields(doc: HallDoc, item: SeedItem)
    requires Trimmed(item.univ) && Trimmed(item.major) && Trimmed(item.student)
    requires Trimmed(item.school) && Trimmed(item.badge) && Trimmed(item.desc)
    ensures !AdmissionFieldsDiffer(Written(doc, item), item)
  {
    NormalizeTrimmed(item.univ);
    NormalizeTrimmed(item.major);
    NormalizeTrimmed(item.student);
    NormalizeTrimmed(item.school);
    NormalizeTrimmed(item.badge);
    NormalizeTrimmed(item.desc);
  }

  lemma WrittenReviewFields(doc: HallDoc, item: SeedItem)
    requires Trimmed(item.name) && Trimmed(item.content) && Trimmed(item.tag)
    ensures !ReviewFieldsDiffer(Written(doc, item), item)
  {
    NormalizeTrimmed(item.name);
    NormalizeTrimmed(item.content);
    NormalizeTrimmed(item.tag);
  }

  lemma WrittenState(doc: HallDoc, item: SeedItem)
    requires 1 <= item.stars <= 5
    ensures !StateDiffers(Written(doc, item), item)
  {
    ClampStoredStars(item.stars);
    StoredSortOrder(item.sortOrder);
  }

  /** A stored sort order reads back as itself, zero included. */
  lemma StoredSortOrder(n: int)
    ensures ToNumber(Or(Number(Fin(n as real)), Number(Fin(0.0)))) == Fin(n as real)
  {
  }


  // ---------------------------------------------------------------- grouping

  /** The stored entries with a given key, in store order. */
  function Matching(docs: seq<HallDoc>, key: string): (r: seq<HallDoc>)
    ensures |r| <= |docs|
  {
    Select(docs, DocKey, key)
  }

  /** The elements whose key is `key`, in order. */
  function Select<T>(xs: seq<T>, f: T -> string, key: string): (r: seq<T>)
    ensures |r| <= |xs|
  {
    if xs == [] then []
    else
      var rest := Select(xs[..|xs| - 1], f, key);
      if f(xs[|xs| - 1]) == key then rest + [xs[|xs| - 1]] else rest
  }

  function ListOf(groups: seq<(string, seq<HallDoc>)>, key: string): seq<HallDoc> {
    match Assoc.Find(groups, key)
    case Some(list) => list
    case None => []
  }

  /** `existingByKey`, filled one entry at a time. */
  function Grouped(docs: seq<HallDoc>): seq<(string, seq<HallDoc>)> {
    if docs == [] then []
    else
      var g := Grouped(docs[..|docs| - 1]);
      var d := docs[|docs| - 1];
      Assoc.Put(g, DocKey(d), ListOf(g, DocKey(d)) + [d])
  }

  /** Each key maps to exactly the entries carrying it, in store order, and keys
      without entries are absent. */
  lemma {:induction false} GroupedFind(docs: seq<HallDoc>, key: string)
    ensures Assoc.Find(Grouped(docs), key) == if Matching(docs, key) == [] then None else Some(Matching(docs, key))
  {
    if docs != [] {
      var init := docs[..|docs| - 1];
      var d := docs[|docs| - 1];
      var g := Grouped(init);
      GroupedFind(init, key);
      if DocKey(d) == key {
        Assoc.FindPutSame(g, key, ListOf(g, key) + [d]);
      } else {
        Assoc.FindPutOther(g, DocKey(d), ListOf(g, DocKey(d)) + [d], key);
      }
    }
  }

  lemma {:induction false} GroupedDistinct(docs: seq<HallDoc>)
    ensures Assoc.DistinctKeys(Grouped(docs))
  {
    if docs != [] {
      var init := docs[..|docs| - 1];
      var d := docs[|docs| - 1];
      GroupedDistinct(init);
      Assoc.PutKeepsDistinct(Grouped(init), DocKey(d), ListOf(Grouped(init), DocKey(d)) + [d]);
    }
  }

  /** The loop that fills `existingByKey`. */
  method GroupExisting(docs: seq<HallDoc>) returns (groups: seq<(string, seq<HallDoc>)>)
    ensures groups == Grouped(docs)
  {
    groups := [];
    for i := 0 to |docs|
      invariant groups == Grouped(docs[..i])
    {
      assert docs[..i + 1][..i] == docs[..i];
      var key := DocKey(docs[i]);
      var list := match Assoc.Find(groups, key) case Some(l) => l case None => [];
      groups := Assoc.Put(groups, key, list + [docs[i]]);
    }
    assert docs[..|docs|] == docs;
  }

  /** `duplicateKeys`: the groups holding more than one entry, in key order. */
  function DuplicateKeys(groups: seq<(string, seq<HallDoc>)>): (r: seq<(string, seq<HallDoc>)>)
    ensures forall e :: e in r <==> e in groups && |e.1| > 1
  {
    if groups == [] then []
    else if |groups[0].1| > 1 then [groups[0]] + DuplicateKeys(groups[1..])
    else DuplicateKeys(groups[1..])
  }

  /** A key is reported as duplicated exactly when more than one stored entry carries it. */
  lemma DuplicateKeysExact(docs: seq<HallDoc>, key: string)
    ensures key in Assoc.Keys(DuplicateKeys(Grouped(docs))) <==> |Matching(docs, key)| > 1
  {
    GroupedFind(docs, key);
    GroupedDistinct(docs);
    DuplicateKeysFind(Grouped(docs), key);
  }

  /** Over groups with distinct keys, a key is a duplicate exactly when its group holds more than one entry. */
  lemma DuplicateKeysFind(groups: seq<(string, seq<HallDoc>)>, key: string)
    requires Assoc.DistinctKeys(groups)
    ensures key in Assoc.Keys(DuplicateKeys(groups)) <==> Assoc.Find(groups, key).Some? && |Assoc.Find(groups, key).value| > 1
  {
    var dups := DuplicateKeys(groups);
    if key in Assoc.Keys(dups) {
      var i :| 0 <= i < |dups| && dups[i].0 == key;
      assert dups[i] in groups;
      var j :| 0 <= j < |groups| && groups[j] == dups[i];
      FindDistinct(groups, j);
    }
    if Assoc.Find(groups, key).Some? && |Assoc.Find(groups, key).value| > 1 {
      var list := Assoc.Find(groups, key).value;
      var j :| 0 <= j < |groups| && groups[j] == (key, list);
      assert groups[j] in dups;
      var i :| 0 <= i < |dups| && dups[i] == groups[j];
      assert Assoc.Keys(dups)[i] == key;
    }
  }

  /** In a record with distinct keys, an entry is what its key reads. */
  lemma {:induction false} FindDistinct<V>(m: seq<(string, V)>, j: int)
    requires Assoc.DistinctKeys(m) && 0 <= j < |m|
    ensures Assoc.Find(m, m[j].0) == Some(m[j].1)
  {
    if j > 0 {
      assert m[0].0 != m[j].0;
      assert Assoc.DistinctKeys(m[1..]) by {
        forall a, b | 0 <= a < b < |m[1..]|
          ensures m[1..][a].0 != m[1..][b].0
        {
          assert m[1..][a] == m[a + 1] && m[1..][b] == m[b + 1];
        }
      }
      FindDistinct(m[1..], j - 1);
    }
  }

  // ---------------------------------------------------------------- classification

  datatype Action = Insert | Update | Skip

  /** Insert when no stored entry has the item's key; otherwise compare with the first one. */
  function Classify(item: SeedItem, groups: seq<(string, seq<HallDoc>)>): Action {
    var list := ListOf(groups, ItemKey(item));
    if list == [] then Insert
    else if Differs(list[0], item) then Update
    else Skip
  }

  /** The classification against the stored entries: insert exactly when none has the
      item's key, and otherwise judged against the earliest such entry. */
  lemma ClassifyExisting(item: SeedItem, docs: seq<HallDoc>)
    ensures var matching := Matching(docs, ItemKey(item));
      && (Classify(item, Grouped(docs)) == Insert <==> matching == [])
      && (matching != [] ==> (Classify(item, Grouped(docs)) == Update <==> Differs(matching[0], item)))
  {
    GroupedFind(docs, ItemKey(item));
  }

  function CountOf(items: seq<SeedItem>, groups: seq<(string, seq<HallDoc>)>, action: Action): (n: nat)
    ensures n <= |items|
  {
    if items == [] then 0
    else CountOf(items[..|items| - 1], groups, action) + (if Classify(items[|items| - 1], groups) == action then 1 else 0)
  }

  lemma CountOfStep(items: seq<SeedItem>, i: int, groups: seq<(string, seq<HallDoc>)>)
    requires 0 <= i < |items|
    ensures forall a :: CountOf(items[..i + 1], groups, a) == CountOf(items[..i], groups, a) + (if Classify(items[i], groups) == a then 1 else 0)
  {
    assert items[..i + 1][..i] == items[..i];
  }

  /** Each seed item is counted exactly once. */
  lemma {:induction false} CountsPartition(items: seq<SeedItem>, groups: seq<(string, seq<HallDoc>)>)
    ensures CountOf(items, groups, Insert) + CountOf(items, groups, Update) + CountOf(items, groups, Skip) == |items|
  {
    if items != [] {
      CountsPartition(items[..|items| - 1], groups);
    }
  }

  /** Against an empty collection every seed item is an insert. */
  lemma {:induction false} AllInsertsWhenEmpty(items: seq<SeedItem>)
    ensures CountOf(items, [], Insert) == |items|
  {
    if items != [] {
      AllInsertsWhenEmpty(items[..|items| - 1]);
    }
  }

  // ---------------------------------------------------------------- writes

  /** The upsert as the script writes it: its filter matches kind and the identifying
      fields exactly as stored, with no normalisation. */
  datatype Upsert = Upsert(filter: seq<(string, string)>, item: SeedItem)

  function UpsertOf(item: SeedItem): (u: Upsert)
    ensures u.item == item && |u.filter| > 0 && u.filter[0] == ("kind", KindName(item.kind))
  {
    var filter := if item.kind == Admission
      then [("kind", "admission"), ("univ", item.univ), ("major", item.major), ("student", item.student)]
      else [("kind", "review"), ("name", item.name), ("content", item.content)];
    Upsert(filter, item)
  }

  /** The stored value of a field a filter names. */
  function FieldOf(doc: HallDoc, field: string): JsValue {
    if field == "kind" then doc.kind
    else if field == "univ" then doc.univ
    else if field == "major" then doc.major
    else if field == "student" then doc.student
    else if field == "name" then doc.name
    else if field == "content" then doc.content
    else Undefined
  }

  predicate FilterMatches(filter: seq<(string, string)>, doc: HallDoc) {
    forall j :: 0 <= j < |filter| ==> FieldOf(doc, filter[j].0) == Str(filter[j].1)
  }

  /** The first stored entry, in store order, that a filter matches. */
  function FirstMatching(docs: seq<HallDoc>, filter: seq<(string, string)>): (r: Option<nat>)
    ensures r.None? ==> forall j :: 0 <= j < |docs| ==> !FilterMatches(filter, docs[j])
    ensures r.Some? ==> r.value < |docs| && FilterMatches(filter, docs[r.value])
  {
    if docs == [] then None
    else if FilterMatches(filter, docs[0]) then Some(0)
    else match FirstMatching(docs[1..], filter)
      case None => None
      case Some(i) => Some(i + 1)
  }

  /** The first element, in order, whose key is `key`. */
  function FirstWith<T>(xs: seq<T>, f: T -> string, key: string): (r: Option<nat>)
    ensures r.None? ==> forall j :: 0 <= j < |xs| ==> f(xs[j]) != key
    ensures r.Some? ==> r.value < |xs| && f(xs[r.value]) == key && forall j :: 0 <= j < r.value ==> f(xs[j]) != key
  {
    if xs == [] then None
    else if f(xs[0]) == key then Some(0)
    else match FirstWith(xs[1..], f, key)
      case None => None
      case Some(i) => Some(i + 1)
  }

  /** `updateOne` with `upsert: true`: the first entry the filter matches gets the
      `$set` fields, and with no match a new entry is inserted. */
  function ApplyUpsert(docs: seq<HallDoc>, u: Upsert, entryId: string): seq<HallDoc> {
    match FirstMatching(docs, u.filter)
    case Some(i) => docs[i := Written(docs[i], u.item)]
    case None => docs + [Inserted(u.item, entryId)]
  }

  /** A seed admission, and a stored entry for it written before entries had a `kind`. */
  const KindlessItem := SeedItem(Admission, 10, true, SeedAuthor, "A", "", "", "", "B", "", "", "", "", 5)
  const KindlessDoc := HallDoc(Str("e1"), Undefined, Bool(true), Number(Fin(10.0)), Str("A"), Str(""), Str(""),
    Str(""), Str("B"), Str(""), Undefined, Undefined, Undefined, Undefined)

  /**
   * The dry run and the write disagree: an entry stored without a `kind` counts as an
   * admission when keys are compared, so the dry run reports the seed item as a skip,
   * but the upsert filter asks for kind 'admission', matches nothing and inserts a
   * second entry with the same key.
   */
  lemma UpsertDuplicatesKindlessEntry()
    ensures Classify(KindlessItem, Grouped([KindlessDoc])) == Skip
    ensures |Matching(ApplyUpsert([KindlessDoc], UpsertOf(KindlessItem), "e2"), ItemKey(KindlessItem))| == 2
  {
    KindlessSkipped();
    KindlessInserted();
    KindlessSameKey();
    var ins := Inserted(KindlessItem, "e2");
    WrittenKey(BlankDoc("e2"), KindlessItem);
    SelectTwo(KindlessDoc, ins, DocKey, ItemKey(KindlessItem));
  }

  lemma SelectTwo<T>(a: T, b: T, f: T -> string, key: string)
    requires f(a) == key && f(b) == key
    ensures |Select([a, b], f, key)| == 2
  {
    assert [a, b][..1] == [a];
    assert [a][..0] == [];
  }

  lemma KindlessSameKey()
    ensures DocKey(KindlessDoc) == ItemKey(KindlessItem)
  {
    assert DocKind(KindlessDoc) == Admission;
  }

  lemma KindlessSkipped()
    ensures Classify(KindlessItem, Grouped([KindlessDoc])) == Skip
  {
    var key := ItemKey(KindlessItem);
    KindlessSameKey();
    assert Matching([KindlessDoc], key) == [KindlessDoc] by {
      assert [KindlessDoc][..0] == [];
    }
    GroupedFind([KindlessDoc], key);
    WrittenState(KindlessDoc, KindlessItem);
    NormalizeTrimmed("A");
    NormalizeTrimmed("B");
    NormalizeTrimmed("");
    assert !AdmissionFieldsDiffer(KindlessDoc, KindlessItem);
    assert !ReviewFieldsDiffer(KindlessDoc, KindlessItem);
    assert !StateDiffers(KindlessDoc, KindlessItem) by {
      ClampStoredStars(5);
      assert ClampReviewStars(KindlessDoc.stars) == 5;
    }
  }

  lemma KindlessInserted()
    ensures ApplyUpsert([KindlessDoc], UpsertOf(KindlessItem), "e2") == [KindlessDoc, Inserted(KindlessItem, "e2")]
  {
    var u := UpsertOf(KindlessItem);
    assert !FilterMatches(u.filter, KindlessDoc) by {
      assert FieldOf(KindlessDoc, u.filter[0].0) == Undefined;
    }
  }

  /** The write the dry run describes: the entry it compared the item with (the first
      stored entry with the item's key) gets the `$set` fields; with none, one is inserted. */
  datatype Write = Write(item: SeedItem)

  function ApplyWrite(docs: seq<HallDoc>, w: Write, entryId: string): seq<HallDoc> {
    PutFirst(docs, DocKey, ItemKey(w.item), WriterOf(w.item), Inserted(w.item, entryId))
  }

  function WriterOf(item: SeedItem): HallDoc -> HallDoc {
    d => Written(d, item)
  }

  /** The first element with the key rewritten by `g`, or `added` appended when there is none. */
  function PutFirst<T>(xs: seq<T>, f: T -> string, key: string, g: T -> T, added: T): seq<T> {
    match FirstWith(xs, f, key)
    case Some(i) => xs[i := g(xs[i])]
    case None => xs + [added]
  }

  /** When rewriting keeps the key and the added element has it, putting leaves exactly
      as many elements with the key (at least one), the first of them the one put. */
  lemma PutFirstSelect<T>(xs: seq<T>, f: T -> string, key: string, g: T -> T, added: T)
    requires forall x :: f(g(x)) == key
    requires f(added) == key
    ensures var s := Select(PutFirst(xs, f, key, g, added), f, key);
      && |s| == Max(1, |Select(xs, f, key)|)
      && s != []
      && s[0] == match FirstWith(xs, f, key) case Some(i) => g(xs[i]) case None => added
  {
    var r := PutFirst(xs, f, key, g, added);
    match FirstWith(xs, f, key)
    case Some(i) =>
      SelectReplace(xs, f, i, g(xs[i]), key);
      SelectFirst(xs, f, i, key);
      SelectFirst(r, f, i, key);
    case None =>
      SelectNone(xs, f, key);
      assert r[..|xs|] == xs;
  }

  function Writes(items: seq<SeedItem>): (r: seq<Write>)
    ensures |r| == |items|
    ensures forall i :: 0 <= i < |items| ==> r[i] == Write(items[i])
  {
    if items == [] then [] else Writes(items[..|items| - 1]) + [Write(items[|items| - 1])]
  }

  lemma WritesStep(items: seq<SeedItem>, i: int)
    requires 0 <= i < |items|
    ensures Writes(items[..i + 1]) == Writes(items[..i]) + [Write(items[i])]
  {
    assert items[..i + 1][..i] == items[..i];
  }

  /** The corrected write never adds a second entry with the item's key: the number of
      entries carrying it becomes one if there were none and is otherwise unchanged. */
  lemma ApplyWriteKeepsOne(docs: seq<HallDoc>, item: SeedItem, entryId: string)
    ensures |Matching(ApplyWrite(docs, Write(item), entryId), ItemKey(item))| == Max(1, |Matching(docs, ItemKey(item))|)
  {
    WriterKeepsKey(item, entryId);
    PutFirstSelect(docs, DocKey, ItemKey(item), WriterOf(item), Inserted(item, entryId));
  }

  /** After the corrected write, a second run classifies the item as a skip. */
  lemma ApplyWriteThenSkip(docs: seq<HallDoc>, item: SeedItem, entryId: string)
    requires WellFormed(item)
    ensures Classify(item, Grouped(ApplyWrite(docs, Write(item), entryId))) == Skip
  {
    var key := ItemKey(item);
    var after := ApplyWrite(docs, Write(item), entryId);
    WriterKeepsKey(item, entryId);
    PutFirstSelect(docs, DocKey, key, WriterOf(item), Inserted(item, entryId));
    var m := Matching(after, key);
    assert !Differs(m[0], item) by {
      match FirstWith(docs, DocKey, key)
      case Some(i) =>
        WrittenNotDiffers(docs[i], item);
      case None =>
        WrittenNotDiffers(BlankDoc(entryId), item);
    }
    GroupedFind(after, key);
  }

  /** An entry holding only an entry id, what an upsert inserts into. */
  function BlankDoc(entryId: string): HallDoc {
    HallDoc(Str(entryId), Undefined, Undefined, Undefined, Undefined, Undefined, Undefined,
      Undefined, Undefined, Undefined, Undefined, Undefined, Undefined, Undefined)
  }

  lemma WriterKeepsKey(item: SeedItem, entryId: string)
    ensures forall x :: DocKey(WriterOf(item)(x)) == ItemKey(item)
    ensures DocKey(Inserted(item, entryId)) == ItemKey(item)
  {
    forall x: HallDoc
      ensures DocKey(WriterOf(item)(x)) == ItemKey(item)
    {
      WrittenKey(x, item);
    }
    WrittenKey(BlankDoc(entryId), item);
  }

  /** No element with the key, nothing selected. */
  lemma {:induction false} SelectNone<T>(xs: seq<T>, f: T -> string, key: string)
    requires forall j :: 0 <= j < |xs| ==> f(xs[j]) != key
    ensures Select(xs, f, key) == []
  {
    if xs != [] {
      SelectNone(xs[..|xs| - 1], f, key);
    }
  }

  /** The first element selected is the first element with the key. */
  lemma {:induction false} SelectFirst<T>(xs: seq<T>, f: T -> string, i: int, key: string)
    requires 0 <= i < |xs| && f(xs[i]) == key
    requires forall j :: 0 <= j < i ==> f(xs[j]) != key
    ensures Select(xs, f, key) != [] && Select(xs, f, key)[0] == xs[i]
  {
    var init := xs[..|xs| - 1];
    if i < |xs| - 1 {
      SelectFirst(init, f, i, key);
    } else {
      SelectNone(init, f, key);
    }
  }

  /** Replacing an element by one with the same key keeps the number selected. */
  lemma {:induction false} SelectReplace<T>(xs: seq<T>, f: T -> string, i: int, x: T, key: string)
    requires 0 <= i < |xs| && f(x) == f(xs[i])
    ensures |Select(xs[i := x], f, key)| == |Select(xs, f, key)|
  {
    var init := xs[..|xs| - 1];
    var changed := xs[i := x];
    if i < |xs| - 1 {
      assert changed[..|changed| - 1] == init[i := x];
      SelectReplace(init, f, i, x, key);
    } else {
      assert changed[..|changed| - 1] == init;
    }
  }

  datatype Plan = Plan(insertCount: nat, updateCount: nat, skipCount: nat, operations: seq<Write>)

  /** The classification loop of `main`. */
  method ClassifyAll(items: seq<SeedItem>, groups: seq<(string, seq<HallDoc>)>, apply: bool) returns (plan: Plan)
    ensures plan.insertCount == CountOf(items, groups, Insert)
    ensures plan.updateCount == CountOf(items, groups, Update)
    ensures plan.skipCount == CountOf(items, groups, Skip)
    ensures plan.operations == if apply then Writes(items) else []
  {
    var insertCount, updateCount, skipCount := 0, 0, 0;
    var operations: seq<Write> := [];
    for i := 0 to |items|
      invariant insertCount == CountOf(items[..i], groups, Insert)
      invariant updateCount == CountOf(items[..i], groups, Update)
      invariant skipCount == CountOf(items[..i], groups, Skip)
      invariant operations == if apply then Writes(items[..i]) else []
    {
      CountOfStep(items, i, groups);
      var item := items[i];
      match Classify(item, groups) {
        case Insert => insertCount := insertCount + 1;
        case Update => updateCount := updateCount + 1;
        case Skip => skipCount := skipCount + 1;
      }
      if apply {
        WritesStep(items, i);
        operations := operations + [Write(item)];
      }
    }
    assert items[..|items|] == items;
    plan := Plan(insertCount, updateCount, skipCount, operations);
  }

  // ---------------------------------------------------------------- the run

  /** `entryId` missing, null or empty. */
  predicate MissingEntryId(doc: HallDoc) {
    doc.entryId == Undefined || doc.entryId == Null || doc.entryId == Str("")
  }

  function MissingEntryIds(docs: seq<HallDoc>): (n: nat)
    ensures n <= |docs|
  {
    if docs == [] then 0
    else MissingEntryIds(docs[..|docs| - 1]) + (if MissingEntryId(docs[|docs| - 1]) then 1 else 0)
  }

  datatype Report = Report(
    missingEntryIds: nat,
    backfilled: nat,
    plan: Plan,
    duplicateKeys: seq<(string, seq<HallDoc>)>)

  /**
   * `main`: `argv` holds the command-line flags, `docs` the stored entries and the
   * two sequences the default data. Backfilling only writes entry ids, which no key
   * reads, so the entries are classified as given.
   */
  method Run(argv: seq<string>, docs: seq<HallDoc>, admissions: seq<DefaultAdmission>, reviews: seq<DefaultReview>)
    returns (report: Report)
    ensures var apply := "--apply" in argv;
      var items := BuildSeedItems(admissions, reviews, "--unpublished" !in argv);
      && report.missingEntryIds == MissingEntryIds(docs)
      && report.backfilled == (if apply then MissingEntryIds(docs) else 0)
      && report.plan.insertCount + report.plan.updateCount + report.plan.skipCount == |items|
      && report.plan.insertCount == CountOf(items, Grouped(docs), Insert)
      && report.plan.updateCount == CountOf(items, Grouped(docs), Update)
      && report.plan.operations == (if apply then Writes(items) else [])
      && report.duplicateKeys == DuplicateKeys(Grouped(docs))
  {
    var apply := "--apply" in argv;
    var published := "--unpublished" !in argv;
    var missing := MissingEntryIds(docs);
    var items := BuildSeedItems(admissions, reviews, published);
    var groups := GroupExisting(docs);
    var plan := ClassifyAll(items, groups, apply);
    CountsPartition(items, groups);
    report := Report(missing, if apply then missing else 0, plan, DuplicateKeys(groups));
  }
}
