/**
 * Orders for paid exam materials (`/api/m/orders`): a signed-in member orders
 * the problem file, the extra file or both of a material; the amount is the
 * sum of the chosen files' prices, earlier unpaid orders of the same material
 * are replaced, and a material already paid for or free cannot be ordered.
 * The listing shows members their own orders and administrators all orders,
 * newest first, 20 to a page.
 */
module Orders {
  import opened Optional
  import opened JsText
  import opened JsCore
  import Paging
  import Sorting
  import MaterialDisplay

  const PageLimit := 20

  /** The fields of a stored material the order reads (`price*` default to 0). */
  datatype MaterialDoc = MaterialDoc(
    isFree: bool, priceProblem: Option<int>, priceEtc: Option<int>,
    schoolName: Option<string>, year: Option<int>, gradeNumber: Option<int>,
    subject: Option<string>, topic: Option<string>)

  /** A stored order. */
  datatype StoredOrder = StoredOrder(
    orderId: string, userId: string, materialId: JsValue, materialTitle: string,
    fileTypes: seq<JsValue>, amount: int, status: string, createdAt: int,
    userEmail: string, userName: string, paymentMethod: JsValue, paymentNote: JsValue)

  /** The JSON body of the POST. */
  datatype OrderRequest = OrderRequest(materialId: JsValue, fileTypes: JsValue, paymentMethod: JsValue, paymentNote: JsValue)

  /** The signed-in member (`id` is always present in a session). */
  datatype Caller = Caller(id: string, email: Option<string>, name: Option<string>, role: Option<string>)

  // ---------------------------------------------------------------- amount and title

  /** `price || 0`. */
  function OrZero(p: Option<int>): int {
    if p.Some? then p.value else 0
  }

  /** The price of the problem file if `'problem'` is chosen, plus that of the extra
      file if `'etc'` is chosen. */
  function Amount(fileTypes: seq<JsValue>, m: MaterialDoc): int {
    (if Str("problem") in fileTypes then OrZero(m.priceProblem) else 0)
    + (if Str("etc") in fileTypes then OrZero(m.priceEtc) else 0)
  }

  /** Each chosen file adds its price once, however often it is listed, and nothing
      else adds anything. */
  lemma AmountOfChoice(fileTypes: seq<JsValue>, m: MaterialDoc)
    ensures Str("problem") !in fileTypes && Str("etc") !in fileTypes ==> Amount(fileTypes, m) == 0
    ensures Amount(fileTypes, m) == Amount(fileTypes + fileTypes, m)
    ensures Amount(fileTypes + [Str("problem")], m) - Amount(fileTypes, m)
            == (if Str("problem") in fileTypes then 0 else OrZero(m.priceProblem))
  {
    assert forall v :: v in fileTypes + fileTypes <==> v in fileTypes;
    assert forall v :: v in fileTypes + [Str("problem")] <==> v in fileTypes || v == Str("problem");
  }

  /** `[...].filter(Boolean)`. */
  function NonEmpty(parts: seq<string>): (r: seq<string>)
    ensures forall k :: 0 <= k < |r| ==> r[k] != "" && r[k] in parts
    ensures |r| <= |parts|
  {
    if parts == [] then []
    else if parts[0] == "" then NonEmpty(parts[1..])
    else [parts[0]] + NonEmpty(parts[1..])
  }

  function TitleParts(m: MaterialDoc): seq<string> {
    [ if m.schoolName.Some? then m.schoolName.value else "",
      MaterialDisplay.NumberLabel(m.year, "년"),
      MaterialDisplay.NumberLabel(m.gradeNumber, "학년"),
      if m.subject.Some? then m.subject.value else "",
      if m.topic.Some? then m.topic.value else "" ]
  }

  /** The order's title: school, year, grade, subject and topic, the empty ones
      left out, joined with single spaces. */
  function MaterialTitle(m: MaterialDoc): string {
    Join(NonEmpty(TitleParts(m)), " ")
  }

  /** When no part holds a space, splitting the title at spaces gives back exactly
      the non-empty parts. */
  lemma TitleWords(m: MaterialDoc)
    requires forall k :: 0 <= k < 5 ==> ' ' !in TitleParts(m)[k]
    requires NonEmpty(TitleParts(m)) != []
    ensures Split(MaterialTitle(m), ' ') == NonEmpty(TitleParts(m))
  {
    SplitJoin(NonEmpty(TitleParts(m)));
  }

  lemma {:induction false} SplitJoin(parts: seq<string>)
    requires parts != []
    requires forall k :: 0 <= k < |parts| ==> ' ' !in parts[k]
    ensures Split(Join(parts, " "), ' ') == parts
  {
    if |parts| == 1 {
      NoSpaceIndex(parts[0], "");
      assert parts[0] + "" == parts[0];
    } else {
      var rest := Join(parts[1..], " ");
      var s := parts[0] + " " + rest;
      NoSpaceIndex(parts[0], " " + rest);
      assert parts[0] + (" " + rest) == s;
      assert s[..|parts[0]|] == parts[0];
      assert s[|parts[0]| + 1..] == rest;
      SplitJoin(parts[1..]);
    }
  }

  /** The first space of `a + b` is the first space of `b` when `a` has none. */
  lemma NoSpaceIndex(a: string, b: string)
    requires ' ' !in a
    ensures IndexOf(a + b, ' ') == |a| + IndexOf(b, ' ')
  {
    var s := a + b;
    var j := IndexOf(b, ' ');
    assert forall k :: 0 <= k < |a| ==> s[k] == a[k];
    assert forall k :: 0 <= k < |b| ==> s[|a| + k] == b[k];
    assert forall k :: 0 <= k < |a| + j ==> s[k] != ' ';
    assert |a| + j < |s| ==> s[|a| + j] == ' ';
  }

  // ---------------------------------------------------------------- placing an order

  datatype OrderError = MissingFields | MaterialNotFound | FreeMaterial | AlreadyPaid(orderId: string) | NoAmount

  function ErrorStatus(e: OrderError): int {
    if e == MaterialNotFound then 404 else 400
  }

  /** What the POST answers and the orders stored afterwards. */
  datatype PlaceResult = Refused(error: OrderError, store: seq<StoredOrder>) | Placed(order: StoredOrder, store: seq<StoredOrder>)

  predicate SameItem(o: StoredOrder, userId: string, materialId: JsValue) {
    o.userId == userId && o.materialId == materialId
  }

  /** `Order.findOne({ userId, materialId, status: 'paid' })`. */
  function FindPaid(orders: seq<StoredOrder>, userId: string, materialId: JsValue): (r: Option<StoredOrder>)
    ensures r.Some? ==> r.value in orders && SameItem(r.value, userId, materialId) && r.value.status == "paid"
    ensures r.None? ==> forall o :: o in orders && SameItem(o, userId, materialId) ==> o.status != "paid"
  {
    if orders == [] then None
    else if SameItem(orders[0], userId, materialId) && orders[0].status == "paid" then Some(orders[0])
    else
      var r := FindPaid(orders[1..], userId, materialId);
      assert forall o :: o in orders ==> o == orders[0] || o in orders[1..];
      r
  }

  /** `Order.deleteMany({ userId, materialId, status: 'pending' })`. */
  function DeletePending(orders: seq<StoredOrder>, userId: string, materialId: JsValue): (r: seq<StoredOrder>)
    ensures forall o :: o in r <==> o in orders && !(SameItem(o, userId, materialId) && o.status == "pending")
  {
    if orders == [] then []
    else
      var rest := DeletePending(orders[1..], userId, materialId);
      assert forall o :: o in orders <==> o == orders[0] || o in orders[1..];
      if SameItem(orders[0], userId, materialId) && orders[0].status == "pending" then rest
      else [orders[0]] + rest
  }

  /** `POST /api/m/orders` for a signed-in caller. `material` is what the lookup of an
      active material with that id returns; `orders` the stored orders; `orderId`
      and `now` the new order's generated id and creation time. */
  function Place(req: OrderRequest, caller: Caller, material: Option<MaterialDoc>, orders: seq<StoredOrder>,
                 orderId: string, now: int): PlaceResult {
    if !Truthy(req.materialId) || !req.fileTypes.Arr? || |req.fileTypes.items| == 0 then Refused(MissingFields, orders)
    else if material.None? then Refused(MaterialNotFound, orders)
    else if material.value.isFree then Refused(FreeMaterial, orders)
    else match FindPaid(orders, caller.id, req.materialId)
      case Some(paid) => Refused(AlreadyPaid(paid.orderId), orders)
      case None =>
        var kept := DeletePending(orders, caller.id, req.materialId);
        var amount := Amount(req.fileTypes.items, material.value);
        if amount <= 0 then Refused(NoAmount, kept)
        else
          var order := StoredOrder(
            orderId, caller.id, req.materialId, MaterialTitle(material.value), req.fileTypes.items, amount, "pending", now,
            if caller.email.Some? then caller.email.value else "",
            if caller.name.Some? then caller.name.value else "",
            Or(req.paymentMethod, Str("bank_transfer")), Or(req.paymentNote, Str("")));
          Placed(order, kept + [order])
  }

  /** An order is placed exactly when a material id and a non-empty list of files are
      given, the material exists and is not free, the caller has not paid for it, and
      the chosen files cost something. */
  lemma PlacedIff(req: OrderRequest, caller: Caller, material: Option<MaterialDoc>, orders: seq<StoredOrder>, orderId: string, now: int)
    ensures Place(req, caller, material, orders, orderId, now).Placed? <==>
      Truthy(req.materialId) && req.fileTypes.Arr? && |req.fileTypes.items| > 0
      && material.Some? && !material.value.isFree
      && (forall o :: o in orders && SameItem(o, caller.id, req.materialId) ==> o.status != "paid")
      && Amount(req.fileTypes.items, material.value) > 0
  {
    if Truthy(req.materialId) && req.fileTypes.Arr? && |req.fileTypes.items| > 0 && material.Some? && !material.value.isFree {
      var paid := FindPaid(orders, caller.id, req.materialId);
    }
  }

  /** The POST's answer: 401 without a session, an uncaught error (500) when the
      body is not JSON or is `null` (there is nothing to destructure), otherwise
      what placing the order gives. */
  datatype PostResult = Unauthorized | Crashed | Answered(result: PlaceResult)

  /** The fields the POST destructures from its body (absent ones are `undefined`). */
  function RequestOf(body: JsValue): (req: OrderRequest)
    ensures !body.Obj? ==> req == OrderRequest(Undefined, Undefined, Undefined, Undefined)
  {
    OrderRequest(Get(body, "materialId"), Get(body, "fileTypes"), Get(body, "paymentMethod"), Get(body, "paymentNote"))
  }

  /** `POST /api/m/orders`. `session` is the signed-in caller, `None` without a session. */
  function Post(session: Option<Caller>, body: Body, material: Option<MaterialDoc>, orders: seq<StoredOrder>,
                orderId: string, now: int): (r: PostResult)
    ensures r == Unauthorized <==> session.None?
    ensures r == Crashed <==> session.Some? && (body.NotJson? || body.value.Null?)
    ensures !r.Answered? ==> session.None? || body.NotJson? || body.value.Null?
    ensures r.Answered? && r.result.Placed? <==>
      session.Some? && body.Json? && !body.value.Null?
      && var req := RequestOf(body.value);
      Truthy(req.materialId) && req.fileTypes.Arr? && |req.fileTypes.items| > 0
      && material.Some? && !material.value.isFree
      && (forall o :: o in orders && SameItem(o, session.value.id, req.materialId) ==> o.status != "paid")
      && Amount(req.fileTypes.items, material.value) > 0
  {
    if session.None? then Unauthorized
    else if body.NotJson? || body.value.Null? then Crashed
    else
      PlacedIff(RequestOf(body.value), session.value, material, orders, orderId, now);
      Answered(Place(RequestOf(body.value), session.value, material, orders, orderId, now))
  }

  /** A body that is JSON but not an object (a number, a text, an array) has no
      `materialId`, so the order is refused as missing fields and nothing is stored. */
  lemma NonObjectBodyRefused(caller: Caller, v: JsValue, material: Option<MaterialDoc>, orders: seq<StoredOrder>, orderId: string, now: int)
    requires !v.Obj? && !v.Null?
    ensures Post(Some(caller), Json(v), material, orders, orderId, now) == Answered(Refused(MissingFields, orders))
  {
  }

  /** A placed order is pending, costs the chosen files' prices and is the caller's
      only pending order of that material; every other stored order stays. */
  lemma PlacedOrder(req: OrderRequest, caller: Caller, material: Option<MaterialDoc>, orders: seq<StoredOrder>, orderId: string, now: int)
    requires Place(req, caller, material, orders, orderId, now).Placed?
    ensures var r := Place(req, caller, material, orders, orderId, now);
      r.order.status == "pending" && r.order.userId == caller.id && r.order.materialId == req.materialId
      && r.order.amount == Amount(req.fileTypes.items, material.value) > 0
      && r.order.materialTitle == MaterialTitle(material.value)
      && r.order in r.store
      && (forall o :: o in r.store && o != r.order && SameItem(o, caller.id, req.materialId) ==> o.status != "pending")
      && (forall o :: o in orders && !(SameItem(o, caller.id, req.materialId) && o.status == "pending") ==> o in r.store)
  {
  }

  /** The caller's pending orders of the material are deleted before the amount is
      checked, so a request refused for a zero amount still removes them. */
  lemma NoAmountStillDeletes(req: OrderRequest, caller: Caller, material: Option<MaterialDoc>, orders: seq<StoredOrder>, orderId: string, now: int)
    requires Place(req, caller, material, orders, orderId, now) == Refused(NoAmount, Place(req, caller, material, orders, orderId, now).store)
    ensures var store := Place(req, caller, material, orders, orderId, now).store;
      forall o :: o in store ==> !(SameItem(o, caller.id, req.materialId) && o.status == "pending")
  {
  }

  /** Every other refusal leaves the stored orders as they were. */
  lemma OtherRefusalsChangeNothing(req: OrderRequest, caller: Caller, material: Option<MaterialDoc>, orders: seq<StoredOrder>, orderId: string, now: int)
    requires Place(req, caller, material, orders, orderId, now).Refused?
    requires Place(req, caller, material, orders, orderId, now).error != NoAmount
    ensures Place(req, caller, material, orders, orderId, now).store == orders
  {
  }

  // ---------------------------------------------------------------- listing

  /** The listing filter: administrators see every order, other callers their own;
      a non-empty status parameter keeps orders with that status. */
  predicate Listed(o: StoredOrder, caller: Caller, status: string) {
    (Paging.ParamOr(caller.role, "student") == "admin" || o.userId == caller.id)
    && (status != "" ==> o.status == status)
  }

  function Filter(orders: seq<StoredOrder>, caller: Caller, status: string): (r: seq<StoredOrder>)
    ensures forall o :: o in r <==> o in orders && Listed(o, caller, status)
    ensures |r| <= |orders|
  {
    if orders == [] then []
    else
      var rest := Filter(orders[1..], caller, status);
      assert forall o :: o in orders <==> o == orders[0] || o in orders[1..];
      if Listed(orders[0], caller, status) then [orders[0]] + rest else rest
  }

  datatype OrderList = OrderList(orders: seq<StoredOrder>, total: nat, page: int, totalPage: nat)

  function NewestFirst(o: StoredOrder): int {
    -o.createdAt
  }

  /** `GET /api/m/orders`: the matching orders newest first, the page's window of 20,
      the number of matches and the page count. */
  function List(orders: seq<StoredOrder>, caller: Caller, statusParam: Option<string>, pageParam: Option<string>): OrderList {
    var matching := Filter(orders, caller, Paging.ParamOr(statusParam, ""));
    var page := Paging.Page(pageParam, Paging.Unspecified);
    OrderList(
      Paging.Window(Sorting.SortBy(matching, NewestFirst), page, PageLimit),
      |matching|, page, Paging.TotalPage(|matching|, PageLimit))
  }

  /** `GET /api/m/orders`: 401 (`None`) without a session, otherwise the listing. */
  function ListRoute(session: Option<Caller>, orders: seq<StoredOrder>, statusParam: Option<string>, pageParam: Option<string>): (r: Option<OrderList>)
    ensures r.None? <==> session.None?
    ensures r.Some? ==> r.value.page >= 1 && |r.value.orders| <= PageLimit
    ensures r.Some? && Paging.ParamOr(session.value.role, "student") != "admin" ==>
      forall k :: 0 <= k < |r.value.orders| ==> r.value.orders[k].userId == session.value.id
  {
    if session.None? then None
    else
      var r := List(orders, session.value, statusParam, pageParam);
      assert Paging.ParamOr(session.value.role, "student") != "admin" ==>
        forall k :: 0 <= k < |r.orders| ==> r.orders[k].userId == session.value.id
      by {
        if Paging.ParamOr(session.value.role, "student") != "admin" {
          ListShowsOwnOrders(orders, session.value, statusParam, pageParam);
        }
      }
      Some(r)
  }

  /** A caller who is not an administrator only ever sees their own orders, with the
      requested status; the page is at least 1 and the pages cover every match. */
  lemma ListShowsOwnOrders(orders: seq<StoredOrder>, caller: Caller, statusParam: Option<string>, pageParam: Option<string>)
    requires Paging.ParamOr(caller.role, "student") != "admin"
    ensures var r := List(orders, caller, statusParam, pageParam);
      (forall k :: 0 <= k < |r.orders| ==>
         r.orders[k].userId == caller.id
         && (Paging.ParamOr(statusParam, "") != "" ==> r.orders[k].status == Paging.ParamOr(statusParam, "")))
      && |r.orders| <= PageLimit && r.page >= 1
      && r.totalPage * PageLimit >= r.total
  {
    var status := Paging.ParamOr(statusParam, "");
    var page := Paging.Page(pageParam, Paging.Unspecified);
    var matching := Filter(orders, caller, status);
    var r := List(orders, caller, statusParam, pageParam);
    assert r == OrderList(Paging.Window(Sorting.SortBy(matching, NewestFirst), page, PageLimit),
      |matching|, page, Paging.TotalPage(|matching|, PageLimit));
    WindowListed(orders, caller, status, page, r.orders);
    assert forall k :: 0 <= k < |r.orders| ==> Listed(r.orders[k], caller, status);
  }

  lemma WindowListed(orders: seq<StoredOrder>, caller: Caller, status: string, page: int, w: seq<StoredOrder>)
    requires page >= 1
    requires w == Paging.Window(Sorting.SortBy(Filter(orders, caller, status), NewestFirst), page, PageLimit)
    ensures forall k :: 0 <= k < |w| ==> Listed(w[k], caller, status)
  {
    var matching := Filter(orders, caller, status);
    var sorted := Sorting.SortBy(matching, NewestFirst);
    forall k | 0 <= k < |w|
      ensures Listed(w[k], caller, status)
    {
      assert w[k] in multiset(sorted);
      assert w[k] in matching;
    }
  }

  /** The window is in newest-first order. */
  lemma ListNewestFirst(orders: seq<StoredOrder>, caller: Caller, statusParam: Option<string>, pageParam: Option<string>)
    ensures var r := List(orders, caller, statusParam, pageParam);
      forall i, j :: 0 <= i < j < |r.orders| ==> r.orders[i].createdAt >= r.orders[j].createdAt
  {
    var matching := Filter(orders, caller, Paging.ParamOr(statusParam, ""));
    var page := Paging.Page(pageParam, Paging.Unspecified);
    var r := List(orders, caller, statusParam, pageParam);
    assert r.orders == Paging.Window(Sorting.SortBy(matching, NewestFirst), page, PageLimit);
    WindowNewestFirst(matching, page, r.orders);
  }

  lemma WindowNewestFirst(matching: seq<StoredOrder>, page: int, w: seq<StoredOrder>)
    requires page >= 1
    requires w == Paging.Window(Sorting.SortBy(matching, NewestFirst), page, PageLimit)
    ensures forall i, j :: 0 <= i < j < |w| ==> w[i].createdAt >= w[j].createdAt
  {
    Sorting.SortBySorted(matching, NewestFirst);
    Paging.WindowSorted(Sorting.SortBy(matching, NewestFirst), NewestFirst, page, PageLimit, w);
    forall i, j | 0 <= i < j < |w|
      ensures w[i].createdAt >= w[j].createdAt
    {
      assert NewestFirst(w[i]) <= NewestFirst(w[j]);
    }
  }
}
