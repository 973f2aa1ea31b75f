/**
 * The administrator's hall-of-fame endpoint (`/api/m/admin/hall-of-fame`):
 * GET lists the entries matching a kind, a publication state and a
 * case-insensitive search, ordered by sort order then by most recent
 * update and creation, a page at a time; POST creates an admission or a
 * review entry after checking the fields its kind requires.
 */
module HallOfFameAdmin {
  import opened Optional
  import opened JsText
  import opened JsCore
  import opened ApiHelpers
  import Paging
  import Sorting
  import opened SeedHallOfFame

  const DefaultLimit := 30
  const MaxLimit := 100

  /** `normalizeKind`: only the two kind names are kinds. */
  function KindOf(v: JsValue): (r: Option<Kind>)
    ensures r == Some(Admission) <==> v == Str("admission")
    ensures r == Some(Review) <==> v == Str("review")
    ensures r.None? <==> v != Str("admission") && v != Str("review")
  {
    if v == Str("admission") then Some(Admission)
    else if v == Str("review") then Some(Review)
    else None
  }

  /** This route's `parseSortOrder`: 0 for what `Number` cannot make finite (so also
      for a missing value), else truncated toward zero. */
  function SortOrder(v: JsValue): (r: int)
    ensures !FiniteNumber(v) ==> r == 0
    ensures FiniteNumber(v) ==> var x := ToNumber(v).r;
      (x >= 0.0 ==> 0 <= r && r as real <= x < r as real + 1.0)
      && (x < 0.0 ==> r <= 0 && r as real - 1.0 < x <= r as real)
  {
    match ToNumber(v)
    case Fin(x) => Trunc(x)
    case _ => 0
  }

  /** Where the shared `parseSortOrder` accepts a value, this one reads it the same;
      where the shared one refuses it, this one gives 0. */
  lemma SortOrderAgrees(v: JsValue)
    ensures ParseSortOrder(v).Some? ==> SortOrder(v) == ParseSortOrder(v).value
    ensures ParseSortOrder(v).None? ==> SortOrder(v) == 0
  {
  }

  /** A sort order sent as decimal digits is read back as its value when it is
      below the overflow to Infinity, and as 0 from there on. */
  lemma SortOrderOfDigits(n: nat)
    ensures (n as real) < OverflowMagnitude ==> SortOrder(Str(NatToString(n))) == n
    ensures (n as real) >= OverflowMagnitude ==> SortOrder(Str(NatToString(n))) == 0
  {
    StringToNumberOfNat(n);
  }

  /** The `limit` parameter: `parseInt(... || '30')`, 30 when that is NaN, held to 1..100. */
  function Limit(raw: Option<string>): (r: int)
    ensures 1 <= r <= MaxLimit
  {
    var parsed := ParseIntText(Paging.ParamOr(raw, "30"));
    var n := if parsed.Some? then parsed.value else DefaultLimit;
    Max(1, Min(MaxLimit, n))
  }

  /** A missing or non-numeric limit is 30. */
  lemma LimitDefault(raw: Option<string>)
    ensures Limit(None) == DefaultLimit
    ensures ParseIntText(Paging.ParamOr(raw, "30")).None? ==> Limit(raw) == DefaultLimit
  {
    assert Paging.ParamOr(None, "30") == "30";
    ParseThirty();
  }

  lemma ParseThirty()
    ensures ParseIntText("30") == Some(30)
  {
    var t := NatToString(30);
    assert t == "30" by {
      assert NatToString(3) == ['3'];
      assert t == ['3'] + ['0'];
    }
    assert ParseIntText(t) == Some(30) by {
      ParseIntOfNatToString(30);
    }
  }

  /** A limit in range is kept; one out of range is held to the nearer bound. */
  lemma LimitOfNumber(n: nat)
    ensures Limit(Some(NatToString(n))) == if n == 0 then 1 else if n > MaxLimit then MaxLimit else n
  {
    ParseIntOfNatToString(n);
  }

  /** `Math.max(1, Math.ceil(total / limit))`: at least one page, enough pages for
      every entry, and no empty page after the first. */
  function TotalPage(total: nat, limit: nat): (r: nat)
    requires limit > 0
    ensures r >= 1 && r * limit >= total
    ensures r > 1 ==> (r - 1) * limit < total
  {
    Max(1, Paging.TotalPage(total, limit))
  }

  // ---------------------------------------------------------------- entries

  /** The fields an entry holds; an admission leaves the review fields empty and
      the other way round. */
  datatype Entry = Entry(
    kind: Kind, isPublished: bool, sortOrder: int, createdBy: string,
    univ: string, major: string, student: string, school: string, badge: string, desc: string,
    name: string, content: string, tag: string, stars: int)

  /** A stored entry with the id and the timestamps the database gives it. */
  datatype StoredEntry = StoredEntry(entry: Entry, entryId: string, createdAt: int, updatedAt: int)

  /** The fields the search looks in. */
  function SearchedFields(s: StoredEntry): seq<string> {
    var e := s.entry;
    [e.univ, e.major, e.student, e.school, e.badge, e.desc, e.name, e.tag, e.content, s.entryId]
  }

  /** `{ $regex: q, $options: 'i' }` on one of the fields, for a plain-text `q`. */
  predicate Mentions(s: StoredEntry, q: string) {
    exists i :: 0 <= i < |SearchedFields(s)| && Contains(ToLower(SearchedFields(s)[i]), ToLower(q))
  }

  /** The query parameters as the GET reads them. */
  datatype Query = Query(q: string, kind: Option<Kind>, published: string)

  function Param(raw: Option<string>): JsValue {
    if raw.Some? then Str(raw.value) else Null
  }

  function QueryOf(qParam: Option<string>, kindParam: Option<string>, publishedParam: Option<string>): Query {
    Query(NormalizeText(Param(qParam)), KindOf(Param(kindParam)), NormalizeText(Param(publishedParam)))
  }

  /** The filter built from the query: kind when one is named, publication state
      when `published` or `unpublished` is asked for, a search when `q` is not empty. */
  predicate Matches(s: StoredEntry, query: Query) {
    (query.kind.Some? ==> s.entry.kind == query.kind.value)
    && (query.published == "published" ==> s.entry.isPublished)
    && (query.published == "unpublished" ==> !s.entry.isPublished)
    && (query.q != "" ==> Mentions(s, query.q))
  }

  function Filter(entries: seq<StoredEntry>, query: Query): (r: seq<StoredEntry>)
    ensures forall s :: s in r <==> s in entries && Matches(s, query)
    ensures |r| <= |entries|
  {
    if entries == [] then []
    else
      var rest := Filter(entries[1..], query);
      assert forall s :: s in entries <==> s == entries[0] || s in entries[1..];
      if Matches(entries[0], query) then [entries[0]] + rest else rest
  }

  // ---------------------------------------------------------------- the order

  /** `sort({ sortOrder: 1, updatedAt: -1, createdAt: -1 })`, written as three stable
      sorts from the last key to the first. */
  function ByCreatedDesc(s: StoredEntry): int { -s.createdAt }
  function ByUpdatedDesc(s: StoredEntry): int { -s.updatedAt }
  function BySortOrder(s: StoredEntry): int { s.entry.sortOrder }

  predicate CreatedNoLater(a: StoredEntry, b: StoredEntry) {
    a.createdAt >= b.createdAt
  }

  predicate UpdatedThenCreated(a: StoredEntry, b: StoredEntry) {
    a.updatedAt > b.updatedAt || (a.updatedAt == b.updatedAt && a.createdAt >= b.createdAt)
  }

  /** `a` may be listed before `b`: a smaller sort order, or the same one and a later
      update, or the same update and a later creation. */
  predicate ListedBefore(a: StoredEntry, b: StoredEntry) {
    a.entry.sortOrder < b.entry.sortOrder
    || (a.entry.sortOrder == b.entry.sortOrder && UpdatedThenCreated(a, b))
  }

  function Ordered(entries: seq<StoredEntry>): (r: seq<StoredEntry>)
    ensures multiset(r) == multiset(entries)
  {
    Sorting.SortBy(Sorting.SortBy(Sorting.SortBy(entries, ByCreatedDesc), ByUpdatedDesc), BySortOrder)
  }

  /** The three stable sorts order the entries by all three keys at once. */
  lemma OrderedByAllKeys(entries: seq<StoredEntry>)
    ensures Sorting.InOrder(Ordered(entries), ListedBefore)
  {
    var s1 := Sorting.SortBy(entries, ByCreatedDesc);
    Sorting.SortBySorted(entries, ByCreatedDesc);
    assert Sorting.InOrder(s1, CreatedNoLater) by {
      forall i, j | 0 <= i < j < |s1|
        ensures CreatedNoLater(s1[i], s1[j])
      {
        assert ByCreatedDesc(s1[i]) <= ByCreatedDesc(s1[j]);
      }
    }
    var s2 := Sorting.SortBy(s1, ByUpdatedDesc);
    Sorting.SortByStable(s1, ByUpdatedDesc, CreatedNoLater);
    assert Sorting.InOrder(s2, UpdatedThenCreated) by {
      forall i, j | 0 <= i < j < |s2|
        ensures UpdatedThenCreated(s2[i], s2[j])
      {
        assert ByUpdatedDesc(s2[i]) < ByUpdatedDesc(s2[j])
          || (ByUpdatedDesc(s2[i]) == ByUpdatedDesc(s2[j]) && CreatedNoLater(s2[i], s2[j]));
      }
    }
    var s3 := Sorting.SortBy(s2, BySortOrder);
    Sorting.SortByStable(s2, BySortOrder, UpdatedThenCreated);
    forall i, j | 0 <= i < j < |s3|
      ensures ListedBefore(s3[i], s3[j])
    {
      assert BySortOrder(s3[i]) < BySortOrder(s3[j])
        || (BySortOrder(s3[i]) == BySortOrder(s3[j]) && UpdatedThenCreated(s3[i], s3[j]));
    }
  }

  // ---------------------------------------------------------------- GET

  datatype Listing =
    | ListForbidden
    | Listing(entries: seq<StoredEntry>, total: nat, page: int, totalPage: nat)

  /** `GET`: `sessionRole` is the role in the session, `None` without one. */
  function List(sessionRole: Option<string>, stored: seq<StoredEntry>, qParam: Option<string>,
                kindParam: Option<string>, publishedParam: Option<string>,
                pageParam: Option<string>, limitParam: Option<string>): Listing {
    if sessionRole != Some("admin") then ListForbidden
    else
      var matching := Filter(stored, QueryOf(qParam, kindParam, publishedParam));
      var page := Paging.Page(pageParam, Paging.Ten);
      var limit := Limit(limitParam);
      Listing(Paging.Window(Ordered(matching), page, limit), |matching|, page, TotalPage(|matching|, limit))
  }

  /** Only an administrator gets a listing; every listed entry matches the query,
      a page holds at most `limit` entries, and the page count covers every match. */
  lemma ListMatches(sessionRole: Option<string>, stored: seq<StoredEntry>, qParam: Option<string>,
                    kindParam: Option<string>, publishedParam: Option<string>,
                    pageParam: Option<string>, limitParam: Option<string>)
    ensures var r := List(sessionRole, stored, qParam, kindParam, publishedParam, pageParam, limitParam);
      (r.Listing? <==> sessionRole == Some("admin"))
      && (r.Listing? ==>
            (forall k :: 0 <= k < |r.entries| ==>
               r.entries[k] in stored && Matches(r.entries[k], QueryOf(qParam, kindParam, publishedParam)))
            && |r.entries| <= Limit(limitParam) <= MaxLimit
            && r.page >= 1 && r.totalPage >= 1 && r.totalPage * Limit(limitParam) >= r.total)
  {
    var r := List(sessionRole, stored, qParam, kindParam, publishedParam, pageParam, limitParam);
    if r.Listing? {
      var query := QueryOf(qParam, kindParam, publishedParam);
      WindowMatches(stored, query, Paging.Page(pageParam, Paging.Ten), Limit(limitParam), r.entries);
    }
  }

  lemma WindowMatches(stored: seq<StoredEntry>, query: Query, page: int, limit: nat, w: seq<StoredEntry>)
    requires page >= 1
    requires w == Paging.Window(Ordered(Filter(stored, query)), page, limit)
    ensures forall k :: 0 <= k < |w| ==> w[k] in stored && Matches(w[k], query)
  {
    var matching := Filter(stored, query);
    Paging.WindowFrom(Ordered(matching), page, limit, w);
    forall k | 0 <= k < |w|
      ensures w[k] in stored && Matches(w[k], query)
    {
      assert w[k] in multiset(Ordered(matching));
      Filtered(w[k], stored, query);
    }
  }

  lemma Filtered(s: StoredEntry, stored: seq<StoredEntry>, query: Query)
    requires s in multiset(Filter(stored, query))
    ensures s in stored && Matches(s, query)
  {
    assert s in Filter(stored, query);
  }

  /** Each page lists its entries by sort order, then most recently updated, then
      most recently created. */
  lemma ListOrdered(sessionRole: Option<string>, stored: seq<StoredEntry>, qParam: Option<string>,
                    kindParam: Option<string>, publishedParam: Option<string>,
                    pageParam: Option<string>, limitParam: Option<string>)
    requires sessionRole == Some("admin")
    ensures var r := List(sessionRole, stored, qParam, kindParam, publishedParam, pageParam, limitParam);
      Sorting.InOrder(r.entries, ListedBefore)
  {
    var r := List(sessionRole, stored, qParam, kindParam, publishedParam, pageParam, limitParam);
    var matching := Filter(stored, QueryOf(qParam, kindParam, publishedParam));
    assert r.entries == Paging.Window(Ordered(matching), Paging.Page(pageParam, Paging.Ten), Limit(limitParam));
    OrderedByAllKeys(matching);
    Paging.WindowInOrder(Ordered(matching), ListedBefore, Paging.Page(pageParam, Paging.Ten), Limit(limitParam), r.entries);
  }

  /** Asking for published entries only never lists an unpublished one, and the
      other way round. */
  lemma PublishedFilter(s: StoredEntry, q: string, kind: Option<Kind>)
    ensures Matches(s, Query(q, kind, "published")) ==> s.entry.isPublished
    ensures Matches(s, Query(q, kind, "unpublished")) ==> !s.entry.isPublished
    ensures Matches(s, Query("", None, ""))
  {
  }

  // ---------------------------------------------------------------- POST

  /** The fields of the JSON body the POST reads. */
  datatype EntryBody = EntryBody(
    kind: JsValue, isPublished: JsValue, sortOrder: JsValue,
    univ: JsValue, major: JsValue, student: JsValue, school: JsValue, badge: JsValue, desc: JsValue,
    name: JsValue, content: JsValue, tag: JsValue, stars: JsValue)

  /** The body's text fields trimmed. */
  datatype Texts = Texts(
    univ: string, major: string, student: string, school: string, badge: string, desc: string,
    name: string, content: string, tag: string)

  function TextsOf(b: EntryBody): Texts {
    Texts(NormalizeText(b.univ), NormalizeText(b.major), NormalizeText(b.student), NormalizeText(b.school),
          NormalizeText(b.badge), NormalizeText(b.desc), NormalizeText(b.name), NormalizeText(b.content),
          NormalizeText(b.tag))
  }

  datatype EntryError = Forbidden | BadJson | BadKind | MissingAdmissionField | MissingReviewField

  /** 403 for a caller who is not an administrator, 400 for everything else. */
  function ErrorStatus(e: EntryError): (status: int)
    ensures status == 403 <==> e == Forbidden
    ensures status == 400 <==> e != Forbidden
  {
    if e == Forbidden then 403 else 400
  }

  datatype EntryResult = Refused(error: EntryError) | Created(entry: Entry)

  /** The author recorded: the session user's name, else its id, else `admin`. */
  function Author(userName: JsValue, userId: JsValue): (r: string)
    ensures r != ""
    ensures NormalizeText(userName) != "" ==> r == NormalizeText(userName)
    ensures NormalizeText(userName) == "" && NormalizeText(userId) != "" ==> r == NormalizeText(userId)
  {
    if NormalizeText(userName) != "" then NormalizeText(userName)
    else if NormalizeText(userId) != "" then NormalizeText(userId)
    else "admin"
  }

  /** `POST`: `body` is `None` when the request is not JSON. */
  function Post(sessionRole: Option<string>, userName: JsValue, userId: JsValue, body: Option<EntryBody>): EntryResult {
    if sessionRole != Some("admin") then Refused(Forbidden)
    else if body.None? then Refused(BadJson)
    else
      var b := body.value;
      match KindOf(b.kind)
      case None => Refused(BadKind)
      case Some(kind) =>
        Create(kind, b.isPublished != Bool(false), SortOrder(b.sortOrder), Author(userName, userId),
               TextsOf(b), ClampReviewStars(b.stars))
  }

  /** The entry of a known kind from the read fields. */
  function Create(kind: Kind, isPublished: bool, sortOrder: int, author: string, t: Texts, stars: int): (r: EntryResult)
    ensures r.Refused? ==> r.error == MissingAdmissionField || r.error == MissingReviewField
  {
    match kind
    case Admission =>
      if t.univ == "" || t.major == "" || t.student == "" || t.desc == "" then Refused(MissingAdmissionField)
      else
        Created(Entry(Admission, isPublished, sortOrder, author, t.univ, t.major, t.student, t.school,
                      if t.badge != "" then t.badge else DefaultBadge, t.desc, "", "", "", 5))
    case Review =>
      if t.name == "" || t.content == "" then Refused(MissingReviewField)
      else
        Created(Entry(Review, isPublished, sortOrder, author, "", "", "", "", "", "",
                      t.name, t.content, if t.tag != "" then t.tag else DefaultTag, stars))
  }

  /** An entry is created exactly when an administrator sends a known kind with the
      fields that kind requires: university, major, student and description for an
      admission, name and content for a review. */
  lemma CreatedIff(kind: Kind, isPublished: bool, sortOrder: int, author: string, t: Texts, stars: int)
    ensures Create(kind, isPublished, sortOrder, author, t, stars).Created? <==>
      (kind == Admission && t.univ != "" && t.major != "" && t.student != "" && t.desc != "")
      || (kind == Review && t.name != "" && t.content != "")
  {
  }

  /** The POST refuses a caller who is not an administrator, a body that is not
      JSON and an unknown kind, in that order, before it looks at any other field. */
  lemma PostRefusals(sessionRole: Option<string>, userName: JsValue, userId: JsValue, body: Option<EntryBody>)
    ensures var r := Post(sessionRole, userName, userId, body);
      (sessionRole != Some("admin") <==> r == Refused(Forbidden))
      && (sessionRole == Some("admin") && body.None? <==> r == Refused(BadJson))
      && (sessionRole == Some("admin") && body.Some? && KindOf(body.value.kind).None? <==> r == Refused(BadKind))
  {
    if sessionRole == Some("admin") && body.Some? {
      var b := body.value;
      if KindOf(b.kind).Some? {
        var created := Create(KindOf(b.kind).value, b.isPublished != Bool(false), SortOrder(b.sortOrder),
                              Author(userName, userId), TextsOf(b), ClampReviewStars(b.stars));
        assert Post(sessionRole, userName, userId, body) == created;
      }
    }
  }

  /** A created admission keeps its kind, holds the required fields trimmed and not
      empty, has the default badge when none is given, and leaves the review fields
      empty with five stars. */
  lemma CreatedAdmission(isPublished: bool, sortOrder: int, author: string, t: Texts, stars: int)
    requires Create(Admission, isPublished, sortOrder, author, t, stars).Created?
    ensures var e := Create(Admission, isPublished, sortOrder, author, t, stars).entry;
      e.kind == Admission && e.isPublished == isPublished && e.sortOrder == sortOrder && e.createdBy == author
      && e.univ == t.univ != "" && e.major == t.major != "" && e.student == t.student != ""
      && e.desc == t.desc != "" && e.school == t.school
      && e.badge == (if t.badge == "" then DefaultBadge else t.badge)
      && e.name == "" && e.content == "" && e.tag == "" && e.stars == 5
  {
  }

  /** A created review keeps its kind, holds a name and a content that are not
      empty, has the default tag when none is given, a star count in 1..5, and
      leaves the admission fields empty. */
  lemma CreatedReview(isPublished: bool, sortOrder: int, author: string, t: Texts, stars: int)
    requires Create(Review, isPublished, sortOrder, author, t, stars).Created?
    ensures var e := Create(Review, isPublished, sortOrder, author, t, stars).entry;
      e.kind == Review && e.isPublished == isPublished && e.sortOrder == sortOrder && e.createdBy == author
      && e.name == t.name != "" && e.content == t.content != ""
      && e.tag == (if t.tag == "" then DefaultTag else t.tag) && e.stars == stars
      && e.univ == "" && e.major == "" && e.student == "" && e.school == "" && e.badge == "" && e.desc == ""
  {
  }

  /** An entry is published unless the body says `isPublished: false`; its stars are
      always in 1..5, and its sort order is 0 when the body's is not a finite number. */
  lemma PostedEntry(sessionRole: Option<string>, userName: JsValue, userId: JsValue, body: Option<EntryBody>)
    requires Post(sessionRole, userName, userId, body).Created?
    ensures var e := Post(sessionRole, userName, userId, body).entry;
      (e.isPublished <==> body.value.isPublished != Bool(false))
      && 1 <= e.stars <= 5 && e.createdBy != ""
      && (!FiniteNumber(body.value.sortOrder) ==> e.sortOrder == 0)
  {
    var b := body.value;
    var kind := KindOf(b.kind).value;
    var stars := ClampReviewStars(b.stars);
    var author := Author(userName, userId);
    assert Post(sessionRole, userName, userId, body)
      == Create(kind, b.isPublished != Bool(false), SortOrder(b.sortOrder), author, TextsOf(b), stars);
    CreateKeepsFields(kind, b.isPublished != Bool(false), SortOrder(b.sortOrder), author, TextsOf(b), stars);
  }

  /** A created entry of either kind carries the given publication flag, sort order
      and author, and its stars are five or the given count. */
  lemma CreateKeepsFields(kind: Kind, isPublished: bool, sortOrder: int, author: string, t: Texts, stars: int)
    requires Create(kind, isPublished, sortOrder, author, t, stars).Created?
    ensures var e := Create(kind, isPublished, sortOrder, author, t, stars).entry;
      e.isPublished == isPublished && e.sortOrder == sortOrder && e.createdBy == author
      && (e.stars == 5 || e.stars == stars)
  {
  }
}
