/**
 * The community membership-upgrade products: how a stored product is read
 * back into the shape the pages use, the lookup by key, and seeding the two
 * default products into an empty collection.
 */
module CommunityUpgrade {
  import opened Optional
  import opened JsText
  import opened JsCore
  import opened ApiHelpers

  /** A product as the database returns it: any field may be missing or of any type.
      Dates are milliseconds since the epoch, `None` when absent. */
  datatype ProductDoc = ProductDoc(
    productId: JsValue, key: JsValue, name: JsValue, shortLabel: JsValue,
    amount: JsValue, sortOrder: JsValue, isActive: JsValue,
    createdAt: Option<int>, updatedAt: Option<int>)

  /** `CommunityUpgradeProductInfo`. */
  datatype ProductInfo = ProductInfo(
    productId: string, key: string, name: string, shortLabel: string,
    amount: real, sortOrder: real, isActive: bool,
    createdAt: int, updatedAt: int)

  /** `Number.isFinite(v) ? Number(v) : 0`: a finite number is kept, anything else
      (a string included, since there is no coercion) becomes 0. */
  function FiniteOrZero(v: JsValue): (r: real)
    ensures v.Number? && v.n.Fin? ==> r == v.n.r
    ensures !(v.Number? && v.n.Fin?) ==> r == 0.0
  {
    if v.Number? && v.n.Fin? then v.n.r else 0.0
  }

  /** `toProductInfo`. */
  function ToProductInfo(doc: ProductDoc): (info: ProductInfo)
  {
    ProductInfo(
      NormalizeText(doc.productId), NormalizeKey(doc.key), NormalizeText(doc.name),
      NormalizeText(doc.shortLabel),
      FiniteOrZero(doc.amount), FiniteOrZero(doc.sortOrder),
      doc.isActive != Bool(false),
      if doc.createdAt.Some? then doc.createdAt.value else 0,
      if doc.updatedAt.Some? then doc.updatedAt.value else 0)
  }

  /** What `toProductInfo` promises of every document: trimmed texts, a normalised
      key, finite numbers or 0, active unless explicitly false, the epoch for a
      missing date. */
  lemma ProductInfoShape(doc: ProductDoc)
    ensures var info := ToProductInfo(doc);
      Trimmed(info.productId) && Trimmed(info.name) && Trimmed(info.shortLabel)
      && NormalizeKey(Str(info.key)) == info.key
      && (info.isActive <==> doc.isActive != Bool(false))
      && (doc.amount.Number? && doc.amount.n.Fin? ==> info.amount == doc.amount.n.r)
      && (!(doc.amount.Number? && doc.amount.n.Fin?) ==> info.amount == 0.0)
      && (!(doc.sortOrder.Number? && doc.sortOrder.n.Fin?) ==> info.sortOrder == 0.0)
      && (doc.createdAt.None? ==> info.createdAt == 0) && (doc.updatedAt.None? ==> info.updatedAt == 0)
  {
    NormalizeKeyIdempotent(doc.key);
  }

  predicate Trimmed(s: string) {
    s == [] || (!IsWhitespace(s[0]) && !IsWhitespace(s[|s| - 1]))
  }

  /** The document that stores an info value as it is. */
  function StoredDoc(info: ProductInfo): ProductDoc {
    ProductDoc(
      Str(info.productId), Str(info.key), Str(info.name), Str(info.shortLabel),
      Number(Fin(info.amount)), Number(Fin(info.sortOrder)), Bool(info.isActive),
      Some(info.createdAt), Some(info.updatedAt))
  }

  /** Reading back a stored info value gives it back unchanged, provided it is
      already normal: trimmed texts and a normalised key. */
  lemma ReadBackStored(info: ProductInfo)
    requires Trimmed(info.productId) && Trimmed(info.name) && Trimmed(info.shortLabel)
    requires NormalizeKey(Str(info.key)) == info.key
    ensures ToProductInfo(StoredDoc(info)) == info
  {
    StoredDocFields(info);
    StoredTextReadBack(info.productId);
    StoredTextReadBack(info.name);
    StoredTextReadBack(info.shortLabel);
  }

  /** Reading a stored document normalises its texts and key and keeps every other field. */
  lemma StoredDocFields(info: ProductInfo)
    ensures ToProductInfo(StoredDoc(info)) == ProductInfo(
      NormalizeText(Str(info.productId)), NormalizeKey(Str(info.key)), NormalizeText(Str(info.name)),
      NormalizeText(Str(info.shortLabel)), info.amount, info.sortOrder, info.isActive,
      info.createdAt, info.updatedAt)
  {
  }

  lemma StoredTextReadBack(s: string)
    requires Trimmed(s)
    ensures NormalizeText(Str(s)) == s
  {
    TrimPlain(s);
  }

  // ---------------------------------------------------------------- lookup by key

  /** The Mongo query `{ key, isActive: true }` (without the second part when
      inactive products are included), matched against one stored document. */
  predicate MatchesQuery(doc: ProductDoc, key: string, includeInactive: bool) {
    doc.key == Str(key) && (includeInactive || doc.isActive == Bool(true))
  }

  /** `findOne`: the first document in the collection's order that matches. */
  function FindOne(docs: seq<ProductDoc>, key: string, includeInactive: bool): (r: Option<ProductDoc>)
    ensures r.Some? ==> r.value in docs && MatchesQuery(r.value, key, includeInactive)
    ensures r.None? ==> forall d :: d in docs ==> !MatchesQuery(d, key, includeInactive)
  {
    if docs == [] then None
    else if MatchesQuery(docs[0], key, includeInactive) then Some(docs[0])
    else FindOne(docs[1..], key, includeInactive)
  }

  /** `getProductByKey`: a blank key is answered with nothing before any query. */
  function GetProductByKey(docs: seq<ProductDoc>, key: JsValue, includeInactive: bool): (r: Option<ProductInfo>)
    ensures NormalizeKey(key) == "" ==> r.None?
  {
    var normalizedKey := NormalizeKey(key);
    if normalizedKey == "" then None
    else
      match FindOne(docs, normalizedKey, includeInactive)
      case None => None
      case Some(doc) => Some(ToProductInfo(doc))
  }

  /** A product found by key carries that key, normalised, and is active unless
      inactive products were asked for; nothing is found only when no stored
      product has the normalised key (and is active, when that is required). */
  lemma ProductByKeyFound(docs: seq<ProductDoc>, key: JsValue, includeInactive: bool)
    ensures var r := GetProductByKey(docs, key, includeInactive);
      (r.Some? ==> r.value.key == NormalizeKey(key) && (!includeInactive ==> r.value.isActive))
      && (r.None? && NormalizeKey(key) != "" ==>
            forall d :: d in docs ==> !MatchesQuery(d, NormalizeKey(key), includeInactive))
  {
    var nk := NormalizeKey(key);
    if nk != "" {
      match FindOne(docs, nk, includeInactive)
      case None =>
      case Some(doc) =>
        assert doc.key == Str(nk);
        NormalizeKeyIdempotent(key);
        assert ToProductInfo(doc).key == nk;
    }
  }

  /** Looking a product up with any spelling of its key that trims and lower-cases
      to the same text finds the same product. */
  lemma KeySpellingIrrelevant(docs: seq<ProductDoc>, a: JsValue, b: JsValue, includeInactive: bool)
    requires NormalizeKey(a) == NormalizeKey(b)
    ensures GetProductByKey(docs, a, includeInactive) == GetProductByKey(docs, b, includeInactive)
  {
  }

  // ---------------------------------------------------------------- seeding

  /** The two default products, in insertion order. */
  datatype DefaultProduct = DefaultProduct(key: string, name: string, shortLabel: string, amount: int, sortOrder: int)

  const DefaultProducts: seq<DefaultProduct> := [
    DefaultProduct("premium", "네이버 dre수학 교사용 프리미엄회원 인증", "프리미엄회원 인증", 50000, 1),
    DefaultProduct("regular", "네이버 dre수학 교사용 정회원 인증", "정회원 인증", 10000, 2)
  ]

  /** The document `insertMany` is given for a default product: active, stamped now. */
  function SeedDoc(p: DefaultProduct, now: int): ProductDoc {
    ProductDoc(Undefined, Str(p.key), Str(p.name), Str(p.shortLabel),
      Number(Fin(p.amount as real)), Number(Fin(p.sortOrder as real)), Bool(true),
      None, Some(now))
  }

  /** How `insertMany` ended: `None` when it succeeded, else the error it threw. */
  datatype SeedOutcome = Seeded(inserted: seq<ProductDoc>) | NotSeeded | Threw(error: JsValue)

  /** `seedDefaultCommunityUpgradeProductsIfEmpty`: `count` is the number of stored
      products, `insertError` what `insertMany` threw, if anything. */
  function SeedIfEmpty(count: nat, now: int, insertError: Option<JsValue>): (r: SeedOutcome)
    ensures count > 0 ==> r == NotSeeded
    ensures count == 0 && insertError.None? ==>
      r.Seeded? && |r.inserted| == 2 && forall i :: 0 <= i < 2 ==> r.inserted[i] == SeedDoc(DefaultProducts[i], now)
    ensures count == 0 && insertError.Some? ==>
      (r == NotSeeded <==> IsDuplicateKeyError(insertError.value))
      && (r.Threw? <==> !IsDuplicateKeyError(insertError.value))
  {
    if count > 0 then NotSeeded
    else
      match insertError
      case None => Seeded(seq(|DefaultProducts|, i requires 0 <= i < |DefaultProducts| => SeedDoc(DefaultProducts[i], now)))
      case Some(e) => if IsDuplicateKeyError(e) then NotSeeded else Threw(e)
  }

  lemma PremiumKeyNormal()
    ensures NormalizeKey(Str("premium")) == "premium"
  {
    NormalizeKeyPlain("premium");
  }

  lemma RegularKeyNormal()
    ensures NormalizeKey(Str("regular")) == "regular"
  {
    NormalizeKeyPlain("regular");
  }

  /** After a successful seed each default product can be looked up by its key as an
      active product, with its name and amount. */
  lemma SeededProductsFound(now: int, i: nat)
    requires i < |DefaultProducts|
    ensures var docs := SeedIfEmpty(0, now, None).inserted;
      var found := GetProductByKey(docs, Str(DefaultProducts[i].key), false);
      found.Some? && found.value.key == DefaultProducts[i].key && found.value.isActive
      && found.value.amount == DefaultProducts[i].amount as real
  {
    var docs := SeedIfEmpty(0, now, None).inserted;
    var p := DefaultProducts[i];
    SeededDocs(now);
    PremiumKeyNormal();
    RegularKeyNormal();
    DefaultKeys();
    if i == 0 {
      FoundFirst(docs, p.key);
    } else {
      FoundSecond(docs, p.key);
    }
    ActiveDocInfo(docs[i], p.key, p.amount as real);
  }

  /** A successful seed inserts the two default products in order. */
  lemma SeededDocs(now: int)
    ensures SeedIfEmpty(0, now, None).inserted == [SeedDoc(DefaultProducts[0], now), SeedDoc(DefaultProducts[1], now)]
  {
  }

  lemma DefaultKeys()
    ensures DefaultProducts[0].key == "premium" && DefaultProducts[1].key == "regular"
    ensures "premium" != "regular"
  {
    assert "premium"[0] != "regular"[0];
  }

  /** The first of two seeded documents is found by its own key. */
  lemma FoundFirst(docs: seq<ProductDoc>, key: string)
    requires |docs| == 2 && docs[0].key == Str(key) && docs[0].isActive == Bool(true)
    ensures FindOne(docs, key, false) == Some(docs[0])
  {
  }

  /** The second of two seeded documents is found by its own key when the first has another. */
  lemma FoundSecond(docs: seq<ProductDoc>, key: string)
    requires |docs| == 2 && docs[0].key != Str(key) && docs[1].key == Str(key) && docs[1].isActive == Bool(true)
    ensures FindOne(docs, key, false) == Some(docs[1])
  {
    assert docs[1..][0] == docs[1];
  }

  /** An active document with a normal key and a finite amount reads back with that
      key, active, and with that amount. */
  lemma ActiveDocInfo(doc: ProductDoc, key: string, amount: real)
    requires doc.key == Str(key) && NormalizeKey(Str(key)) == key
    requires doc.isActive == Bool(true) && doc.amount == Number(Fin(amount))
    ensures ToProductInfo(doc).key == key && ToProductInfo(doc).isActive && ToProductInfo(doc).amount == amount
  {
  }
}
