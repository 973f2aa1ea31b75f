/**
 * Ordering a community upgrade (`POST /api/community/orders`): a visitor
 * names an active product by key and gives their name, phone number and
 * community nickname; the product is looked up (seeding the default
 * products into an empty catalogue first when it is not found), the fields
 * are checked for length, and a pending order copying the product's key,
 * name and amount is stored.
 */
module CommunityOrders {
  import opened Optional
  import opened JsText
  import opened JsCore
  import opened ApiHelpers
  import CommunityUpgrade

  const MaxNameLength := 30
  const MinPhoneLength := 8
  const MaxPhoneLength := 20
  const MaxNicknameLength := 40

  predicate IsPhoneChar(c: char) {
    IsDigit(c) || c == '-'
  }

  /** `normalizePhone`: the digits and hyphens of the trimmed text, in order. */
  function NormalizePhone(v: JsValue): (r: string)
    ensures forall i :: 0 <= i < |r| ==> IsPhoneChar(r[i])
    ensures |r| <= |NormalizeText(v)|
  {
    PhoneChars(NormalizeText(v))
  }

  function PhoneChars(s: string): (r: string)
    ensures forall i :: 0 <= i < |r| ==> IsPhoneChar(r[i])
    ensures |r| <= |s|
  {
    if s == [] then ""
    else if IsPhoneChar(s[0]) then [s[0]] + PhoneChars(s[1..])
    else PhoneChars(s[1..])
  }

  /** Keeping the digits and hyphens keeps every digit and hyphen, in order, and a
      text made only of them is kept whole. */
  lemma {:induction false} PhoneCharsKeeps(a: string, b: string)
    ensures PhoneChars(a + b) == PhoneChars(a) + PhoneChars(b)
    decreases |a|
  {
    if a == [] {
      assert a + b == b;
    } else {
      assert (a + b)[1..] == a[1..] + b;
      PhoneCharsKeeps(a[1..], b);
    }
  }

  lemma {:induction false} PhoneCharsOfPhone(s: string)
    requires forall i :: 0 <= i < |s| ==> IsPhoneChar(s[i])
    ensures PhoneChars(s) == s
    decreases |s|
  {
    if s != [] {
      PhoneCharsOfPhone(s[1..]);
    }
  }

  /** A normalised phone normalises to itself: it has no whitespace to trim and
      nothing to remove. */
  lemma NormalizePhoneIdempotent(v: JsValue)
    ensures NormalizePhone(Str(NormalizePhone(v))) == NormalizePhone(v)
  {
    var p := NormalizePhone(v);
    assert NormalizeText(Str(p)) == p by {
      PhoneTrimsToItself(p);
    }
    PhoneCharsOfPhone(p);
  }

  lemma PhoneTrimsToItself(p: string)
    requires forall i :: 0 <= i < |p| ==> IsPhoneChar(p[i])
    ensures Trim(p) == p
  {
    if p != [] {
      assert IsPhoneChar(p[0]) && IsPhoneChar(p[|p| - 1]);
    }
    TrimPlain(p);
  }

  // ---------------------------------------------------------------- the order

  /** The fields of the JSON body the POST reads. */
  datatype OrderBody = OrderBody(productKey: JsValue, applicantName: JsValue, phone: JsValue, cafeNickname: JsValue)

  /** The order stored for the visitor. */
  datatype CommunityOrder = CommunityOrder(
    orderId: string, productKey: string, productName: string, amount: real,
    applicantName: string, phone: string, cafeNickname: string,
    status: string, processStatus: string, updatedAt: int)

  datatype OrderError = BadJson | UnknownProduct | BadName | BadPhone | BadNickname

  /** The answer: a refusal (400), a failure of the default-product seeding that is
      not a duplicate-key error (it propagates: 500), or the stored order and the
      label the answer calls it by. */
  datatype OrderResult =
    | Refused(error: OrderError)
    | SeedFailed(thrown: JsValue)
    | Ordered(order: CommunityOrder, orderName: string)

  /** How the product lookup ends. */
  datatype Lookup = Found(product: CommunityUpgrade.ProductInfo) | Missing | Threw(error: JsValue)

  /** The active product with the key, looked up once more after seeding the
      defaults when it is not found. `insertError` is what inserting the defaults
      throws, if anything. */
  function FindProduct(products: seq<CommunityUpgrade.ProductDoc>, key: string, now: int, insertError: Option<JsValue>): (r: Lookup)
    ensures CommunityUpgrade.GetProductByKey(products, Str(key), false).Some? ==>
      r == Found(CommunityUpgrade.GetProductByKey(products, Str(key), false).value)
  {
    match CommunityUpgrade.GetProductByKey(products, Str(key), false)
    case Some(p) => Found(p)
    case None =>
      match CommunityUpgrade.SeedIfEmpty(|products|, now, insertError)
      case Threw(e) => Threw(e)
      case NotSeeded =>
        // the second lookup sees the same products
        Missing
      case Seeded(inserted) =>
        match CommunityUpgrade.GetProductByKey(products + inserted, Str(key), false)
        case Some(p) => Found(p)
        case None => Missing
  }

  /** The length checks of the POST in order. */
  function CheckApplicant(name: string, phone: string, nickname: string): (r: Option<OrderError>)
    ensures r.None? <==>
      1 <= |name| <= MaxNameLength && MinPhoneLength <= |phone| <= MaxPhoneLength
      && 1 <= |nickname| <= MaxNicknameLength
  {
    if name == "" || |name| > MaxNameLength then Some(BadName)
    else if phone == "" || |phone| < MinPhoneLength || |phone| > MaxPhoneLength then Some(BadPhone)
    else if nickname == "" || |nickname| > MaxNicknameLength then Some(BadNickname)
    else None
  }

  /** `POST /api/community/orders`: `body` is `None` when the request is not JSON;
      `products` the stored products; `orderId` and `now` the new order's generated
      id and time. */
  function Post(body: Option<OrderBody>, products: seq<CommunityUpgrade.ProductDoc>, insertError: Option<JsValue>,
                orderId: string, now: int): OrderResult {
    if body.None? then Refused(BadJson)
    else
      var key := NormalizeKey(body.value.productKey);
      if key == "" then Refused(UnknownProduct)
      else match FindProduct(products, key, now, insertError)
        case Threw(e) => SeedFailed(e)
        case Missing => Refused(UnknownProduct)
        case Found(product) =>
          PlaceOrder(product, NormalizeText(body.value.applicantName), NormalizePhone(body.value.phone),
                     NormalizeText(body.value.cafeNickname), orderId, now)
  }

  /** The order for a found product and the read applicant fields. */
  function PlaceOrder(product: CommunityUpgrade.ProductInfo, name: string, phone: string, nickname: string,
                      orderId: string, now: int): (r: OrderResult)
    ensures r.Ordered? <==> CheckApplicant(name, phone, nickname).None?
  {
    match CheckApplicant(name, phone, nickname)
    case Some(e) => Refused(e)
    case None =>
      Ordered(CommunityOrder(orderId, product.key, product.name, product.amount, name, phone, nickname,
                             "pending", "pending", now),
              product.shortLabel)
  }

  /** A placed order is pending in both senses, copies the product's key, name and
      amount, is answered with the product's short label, and holds applicant fields
      that passed the length checks, the phone made of digits and hyphens only. */
  lemma PlacedOrder(product: CommunityUpgrade.ProductInfo, name: string, phone: string, nickname: string, orderId: string, now: int)
    requires forall i :: 0 <= i < |phone| ==> IsPhoneChar(phone[i])
    requires PlaceOrder(product, name, phone, nickname, orderId, now).Ordered?
    ensures var r := PlaceOrder(product, name, phone, nickname, orderId, now);
      r.order.status == "pending" && r.order.processStatus == "pending"
      && r.order.productKey == product.key && r.order.productName == product.name
      && r.order.amount == product.amount && r.orderName == product.shortLabel
      && 1 <= |r.order.applicantName| <= MaxNameLength
      && MinPhoneLength <= |r.order.phone| <= MaxPhoneLength
      && (forall i :: 0 <= i < |r.order.phone| ==> IsPhoneChar(r.order.phone[i]))
      && 1 <= |r.order.cafeNickname| <= MaxNicknameLength
  {
  }

  /** An order is only ever placed for an active product found under the key as
      given, trimmed and lower-cased; an inactive product is never sold. */
  lemma FoundIsActive(products: seq<CommunityUpgrade.ProductDoc>, key: string, now: int, insertError: Option<JsValue>)
    requires FindProduct(products, key, now, insertError).Found?
    ensures var p := FindProduct(products, key, now, insertError).product;
      p.isActive && p.key == NormalizeKey(Str(key))
  {
    match CommunityUpgrade.GetProductByKey(products, Str(key), false)
    case Some(p) =>
      CommunityUpgrade.ProductByKeyFound(products, Str(key), false);
    case None =>
      var seeded := CommunityUpgrade.SeedIfEmpty(|products|, now, insertError);
      CommunityUpgrade.ProductByKeyFound(products + seeded.inserted, Str(key), false);
  }

  /** In an empty catalogue each default product can be ordered by its key. */
  lemma DefaultsOrderable(now: int, i: nat)
    requires i < |CommunityUpgrade.DefaultProducts|
    ensures var found := FindProduct([], CommunityUpgrade.DefaultProducts[i].key, now, None);
      found.Found? && found.product.key == CommunityUpgrade.DefaultProducts[i].key
      && found.product.amount == CommunityUpgrade.DefaultProducts[i].amount as real
  {
    var key := CommunityUpgrade.DefaultProducts[i].key;
    var docs := CommunityUpgrade.SeedIfEmpty(0, now, None).inserted;
    assert CommunityUpgrade.GetProductByKey([], Str(key), false).None?;
    assert [] + docs == docs;
    CommunityUpgrade.SeededProductsFound(now, i);
  }
}
