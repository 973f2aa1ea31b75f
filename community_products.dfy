/**
 * The administrators' catalogue of community upgrade products
 * (`/api/m/admin/community-products`): listing the stored products and
 * registering a new one, with a key of lower-case letters, digits, `_` and
 * `-`, bounded name and label lengths, an integer amount up to 1e9 and a
 * finite sort order. The key is unique in the collection.
 */
module CommunityProducts {
  import opened Optional
  import opened JsText
  import opened JsCore
  import opened ApiHelpers
  import CommunityUpgrade

  const MaxNameLength := 120
  const MaxLabelLength := 40
  const MinKeyLength := 2
  const MaxKeyLength := 40

  /** `toProductDTO`: a stored product as the admin pages receive it. The dates are
      passed through as stored. */
  datatype ProductDTO = ProductDTO(
    productId: string, key: string, name: string, shortLabel: string,
    amount: real, sortOrder: real, isActive: bool,
    createdAt: Option<int>, updatedAt: Option<int>)

  function ToProductDTO(doc: CommunityUpgrade.ProductDoc): ProductDTO {
    ProductDTO(
      NormalizeText(doc.productId), NormalizeKey(doc.key), NormalizeText(doc.name),
      NormalizeText(doc.shortLabel),
      CommunityUpgrade.FiniteOrZero(doc.amount), CommunityUpgrade.FiniteOrZero(doc.sortOrder),
      doc.isActive != Bool(false), doc.createdAt, doc.updatedAt)
  }

  /** The admin view agrees with the shared product reading on every field but the
      dates: a non-finite or non-number amount or sort order reads as 0, and a
      product is active unless it is stored as `false`. */
  lemma DTOAgreesWithInfo(doc: CommunityUpgrade.ProductDoc)
    ensures var d := ToProductDTO(doc);
      var info := CommunityUpgrade.ToProductInfo(doc);
      d.productId == info.productId && d.key == info.key && d.name == info.name
      && d.shortLabel == info.shortLabel && d.amount == info.amount
      && d.sortOrder == info.sortOrder && d.isActive == info.isActive
      && (!(doc.amount.Number? && doc.amount.n.Fin?) ==> d.amount == 0.0)
      && (!(doc.sortOrder.Number? && doc.sortOrder.n.Fin?) ==> d.sortOrder == 0.0)
      && (d.isActive <==> doc.isActive != Bool(false))
  {
  }

  /** `GET`: administrators receive every product, in the order the database sorts
      them (by sort order, then creation time); others are refused. */
  function List(isAdmin: bool, sortedDocs: seq<CommunityUpgrade.ProductDoc>): (r: Option<seq<ProductDTO>>)
    ensures r.Some? <==> isAdmin
    ensures r.Some? ==> |r.value| == |sortedDocs| && forall k :: 0 <= k < |r.value| ==> r.value[k] == ToProductDTO(sortedDocs[k])
  {
    if !isAdmin then None
    else Some(seq(|sortedDocs|, k requires 0 <= k < |sortedDocs| => ToProductDTO(sortedDocs[k])))
  }

  // ---------------------------------------------------------------- the key pattern

  predicate IsKeyHead(c: char) {
    ('a' <= c <= 'z') || ('0' <= c <= '9')
  }

  predicate IsKeyChar(c: char) {
    IsKeyHead(c) || c == '_' || c == '-'
  }

  /** `/^[a-z0-9][a-z0-9_-]{1,39}$/`. */
  predicate ValidKey(k: string) {
    MinKeyLength <= |k| <= MaxKeyLength && IsKeyHead(k[0])
    && forall i :: 1 <= i < |k| ==> IsKeyChar(k[i])
  }

  /** A valid key is already normal: normalising it gives it back. */
  lemma ValidKeyIsNormal(k: string)
    requires ValidKey(k)
    ensures NormalizeKey(Str(k)) == k
  {
    assert !IsWhitespace(k[0]) && !IsWhitespace(k[|k| - 1]);
    forall i | 0 <= i < |k|
      ensures !IsAsciiUpper(k[i])
    {
      assert IsKeyChar(k[i]);
    }
    NormalizeKeyPlain(k);
  }

  lemma KeyExamples()
    ensures ValidKey("premium") && ValidKey("vip-2026_a")
    ensures !ValidKey("a") && !ValidKey("-vip") && !ValidKey("VIP")
  {
    assert !IsKeyHead('-') && !IsKeyHead('V');
  }

  // ---------------------------------------------------------------- POST

  /** The fields of the JSON body the POST reads. */
  datatype CreateBody = CreateBody(key: JsValue, name: JsValue, shortLabel: JsValue, amount: JsValue,
                                   sortOrder: JsValue, isActive: JsValue)

  datatype CreateError = Forbidden | BadJson | BadKey | BadName | BadShortLabel | BadAmount | BadSortOrder | DuplicateKey

  function ErrorStatus(e: CreateError): int {
    match e
    case Forbidden => 403
    case DuplicateKey => 409
    case _ => 400
  }

  /** A refusal, or the stored document of the new product (answered as
      `ToProductDTO(doc)`) and the products stored afterwards. */
  datatype CreateResult = Refused(error: CreateError) | Created(doc: CommunityUpgrade.ProductDoc, store: seq<CommunityUpgrade.ProductDoc>)

  /** A stored product already holds the key (the collection's unique index). */
  predicate KeyTaken(store: seq<CommunityUpgrade.ProductDoc>, key: string) {
    exists d :: d in store && d.key == Str(key)
  }

  /** The body as the handler reads it: the key trimmed and lower-cased, the name
      and label trimmed, the amount and sort order parsed, active unless `false`. */
  datatype Fields = Fields(key: string, name: string, shortLabel: string,
                           amount: Option<int>, sortOrder: Option<int>, isActive: bool)

  function ReadBody(b: CreateBody): (f: Fields)
    ensures Normal(f)
    ensures f.isActive <==> b.isActive != Bool(false)
  {
    Fields(NormalizeKey(b.key), NormalizeText(b.name), NormalizeText(b.shortLabel),
           ParseAmount(b.amount), ParseSortOrder(b.sortOrder), b.isActive != Bool(false))
  }

  /** What reading guarantees: the name and label have no surrounding whitespace,
      the key has no capital letter, and a parsed amount lies in [0, 1e9]. */
  predicate Normal(f: Fields) {
    CommunityUpgrade.Trimmed(f.name) && CommunityUpgrade.Trimmed(f.shortLabel)
    && (forall i :: 0 <= i < |f.key| ==> !IsAsciiUpper(f.key[i]))
    && (f.amount.Some? ==> 0 <= f.amount.value <= MaxAmount)
  }

  /** The checks of the POST in order. */
  function Validate(f: Fields): (r: Option<CreateError>)
    ensures r.None? <==>
      ValidKey(f.key) && 1 <= |f.name| <= MaxNameLength && 1 <= |f.shortLabel| <= MaxLabelLength
      && f.amount.Some? && f.sortOrder.Some?
  {
    if !ValidKey(f.key) then Some(BadKey)
    else if f.name == "" || |f.name| > MaxNameLength then Some(BadName)
    else if f.shortLabel == "" || |f.shortLabel| > MaxLabelLength then Some(BadShortLabel)
    else if f.amount.None? then Some(BadAmount)
    else if f.sortOrder.None? then Some(BadSortOrder)
    else None
  }

  /** The document `create` stores for validated fields, with the generated product
      id and both dates `now`. */
  function NewDoc(f: Fields, productId: string, now: int): CommunityUpgrade.ProductDoc
    requires f.amount.Some? && f.sortOrder.Some?
  {
    CommunityUpgrade.ProductDoc(
      Str(productId), Str(f.key), Str(f.name), Str(f.shortLabel),
      Number(Fin(f.amount.value as real)), Number(Fin(f.sortOrder.value as real)),
      Bool(f.isActive), Some(now), Some(now))
  }

  /** `POST`: `body` is `None` when the request is not JSON; `store` the stored
      products, `productId` and `now` the new product's generated id and time. */
  function Post(isAdmin: bool, body: Option<CreateBody>, store: seq<CommunityUpgrade.ProductDoc>,
                productId: string, now: int): CreateResult {
    Create(isAdmin, if body.Some? then Some(ReadBody(body.value)) else None, store, productId, now)
  }

  /** The POST after reading the body (`None` when it is not JSON). */
  function Create(isAdmin: bool, fields: Option<Fields>, store: seq<CommunityUpgrade.ProductDoc>,
                  productId: string, now: int): CreateResult {
    if !isAdmin then Refused(Forbidden)
    else if fields.None? then Refused(BadJson)
    else match Validate(fields.value)
      case Some(e) => Refused(e)
      case None =>
        if KeyTaken(store, fields.value.key) then Refused(DuplicateKey)
        else
          var doc := NewDoc(fields.value, productId, now);
          Created(doc, store + [doc])
  }

  /** A product is registered exactly when an administrator sends a body that passes
      every check and whose key is not taken; a taken key is answered with 409. */
  lemma CreatedIff(isAdmin: bool, fields: Option<Fields>, store: seq<CommunityUpgrade.ProductDoc>, productId: string, now: int)
    ensures Create(isAdmin, fields, store, productId, now).Created? <==>
      isAdmin && fields.Some? && Validate(fields.value).None? && !KeyTaken(store, fields.value.key)
    ensures Create(isAdmin, fields, store, productId, now) == Refused(DuplicateKey) <==>
      isAdmin && fields.Some? && Validate(fields.value).None? && KeyTaken(store, fields.value.key)
  {
  }

  /** The registered product shows the fields as read: the key (valid, hence
      already normal), the name and label (already trimmed), the amount in [0, 1e9]
      and the sort order; it is appended to the store, whose keys stay unique. */
  lemma CreatedProduct(isAdmin: bool, fields: Option<Fields>, store: seq<CommunityUpgrade.ProductDoc>, productId: string, now: int)
    requires fields.Some? ==> Normal(fields.value)
    requires Create(isAdmin, fields, store, productId, now).Created?
    ensures var r := Create(isAdmin, fields, store, productId, now);
      var f := fields.value;
      var product := ToProductDTO(r.doc);
      product.key == f.key && ValidKey(product.key)
      && product.name == f.name && product.shortLabel == f.shortLabel
      && product.amount == f.amount.value as real
      && 0.0 <= product.amount <= MaxAmount as real
      && product.sortOrder == f.sortOrder.value as real
      && product.isActive == f.isActive
      && |r.store| == |store| + 1 && r.store[..|store|] == store
      && !KeyTaken(store, product.key)
  {
    var f := fields.value;
    CreatedShape(isAdmin, fields, store, productId, now);
    var r := Create(isAdmin, fields, store, productId, now);
    DocReadBack(f, productId, now, ToProductDTO(r.doc));
    assert r.store[..|store|] == store;
  }

  /** What `Create` does when it succeeds. */
  lemma CreatedShape(isAdmin: bool, fields: Option<Fields>, store: seq<CommunityUpgrade.ProductDoc>, productId: string, now: int)
    requires Create(isAdmin, fields, store, productId, now).Created?
    ensures fields.Some? && Validate(fields.value).None? && !KeyTaken(store, fields.value.key)
    ensures var r := Create(isAdmin, fields, store, productId, now);
      var doc := NewDoc(fields.value, productId, now);
      r.doc == doc && r.store == store + [doc]
  {
  }

  /** The admin view of a stored new product gives back the fields it was made from. */
  lemma DocReadBack(f: Fields, productId: string, now: int, d: ProductDTO)
    requires Normal(f) && Validate(f).None?
    requires d == ToProductDTO(NewDoc(f, productId, now))
    ensures d.key == f.key && d.name == f.name && d.shortLabel == f.shortLabel
      && d.amount == f.amount.value as real && d.sortOrder == f.sortOrder.value as real
      && d.isActive == f.isActive
  {
    assert d.key == f.key by {
      ValidKeyIsNormal(f.key);
    }
    assert d.name == f.name by {
      CommunityUpgrade.StoredTextReadBack(f.name);
    }
    assert d.shortLabel == f.shortLabel by {
      CommunityUpgrade.StoredTextReadBack(f.shortLabel);
    }
  }

  /** Once a product is registered (`CreatedShape`: the store gains `NewDoc`), it is
      found by its key, whether or not it is active, and reads back as the stored
      document, which the admin view shows with the same fields (`DTOAgreesWithInfo`).
      A valid key is normal (`ValidKeyIsNormal`), which is all the lookup needs. */
  lemma CreatedFoundByKey(f: Fields, store: seq<CommunityUpgrade.ProductDoc>, productId: string, now: int)
    requires f.amount.Some? && f.sortOrder.Some? && !KeyTaken(store, f.key)
    requires f.key != "" && NormalizeKey(Str(f.key)) == f.key
    ensures var doc := NewDoc(f, productId, now);
      CommunityUpgrade.GetProductByKey(store + [doc], Str(f.key), true) == Some(CommunityUpgrade.ToProductInfo(doc))
  {
    var doc := NewDoc(f, productId, now);
    FoundAfterAppend(store, doc, f.key, store + [doc]);
  }

  lemma FoundAfterAppend(store: seq<CommunityUpgrade.ProductDoc>, doc: CommunityUpgrade.ProductDoc, key: string,
                         after: seq<CommunityUpgrade.ProductDoc>)
    requires !KeyTaken(store, key) && doc.key == Str(key) && after == store + [doc]
    requires key != "" && NormalizeKey(Str(key)) == key
    ensures CommunityUpgrade.GetProductByKey(after, Str(key), true) == Some(CommunityUpgrade.ToProductInfo(doc))
  {
    FindOneAppended(store, doc, key);
  }

  /** `findOne` over a store extended with a document that matches, where no earlier
      document matches, finds that document. */
  lemma {:induction false} FindOneAppended(store: seq<CommunityUpgrade.ProductDoc>, doc: CommunityUpgrade.ProductDoc, key: string)
    requires !KeyTaken(store, key) && doc.key == Str(key)
    ensures CommunityUpgrade.FindOne(store + [doc], key, true) == Some(doc)
  {
    if store == [] {
      assert store + [doc] == [doc];
    } else {
      assert (store + [doc])[1..] == store[1..] + [doc];
      assert store[0] in store;
      assert !KeyTaken(store[1..], key) by {
        forall d | d in store[1..]
          ensures d.key != Str(key)
        {
          assert d in store;
        }
      }
      FindOneAppended(store[1..], doc, key);
    }
  }
}
