/**
 * The page arithmetic shared by the listing endpoints: the `page` query
 * parameter read with `Math.max(1, parseInt(...))`, the window
 * `skip((page - 1) * limit).limit(limit)` and `Math.ceil(total / limit)` pages.
 */
module Paging {
  import opened JsText
  import opened JsCore
  import opened Optional
  import Sorting

  /** `searchParams.get(name) || fallback`: a missing or empty parameter reads as the fallback. */
  function ParamOr(raw: Option<string>, fallback: string): (r: string)
    ensures raw.Some? && raw.value != "" ==> r == raw.value
    ensures raw.None? || raw.value == "" ==> r == fallback
  {
    if raw.Some? && raw.value != "" then raw.value else fallback
  }

  /** How a route calls `parseInt`: without a radix (`0x` text is read in base 16)
      or with radix 10. */
  datatype Radix = Unspecified | Ten

  function ParseIntIn(radix: Radix, t: string): Option<int> {
    match radix
    case Unspecified => ParseIntAuto(t)
    case Ten => ParseIntText(t)
  }

  /** `Math.max(1, parseInt(searchParams.get('page') || '1'))` as the listing routes
      write it: `None` stands for NaN, which `Math.max` passes through when the
      parameter has no leading digits. */
  function PageAsWritten(raw: Option<string>, radix: Radix): (r: Option<int>)
    ensures r.None? <==> ParseIntIn(radix, ParamOr(raw, "1")).None?
    ensures r.Some? ==> r.value >= 1 && r.value >= ParseIntIn(radix, ParamOr(raw, "1")).value
    ensures r.Some? && ParseIntIn(radix, ParamOr(raw, "1")).value >= 1 ==> r.value == ParseIntIn(radix, ParamOr(raw, "1")).value
  {
    match ParseIntIn(radix, ParamOr(raw, "1"))
    case None => None
    case Some(n) => Some(if n < 1 then 1 else n)
  }

  /** `?page=abc` gives NaN as the page, which the routes then use for `skip` and
      echo back in the response. */
  lemma PageAsWrittenNaN(radix: Radix)
    ensures PageAsWritten(Some("abc"), radix) == None
  {
    assert ParamOr(Some("abc"), "1") == "abc";
    ParseIntLetterStart("abc");
    assert !HexPrefixed(SignStripped(TrimStart("abc"))) by {
      assert TrimStart("abc") == "abc" by { TrimStartNoLead("abc"); }
    }
  }

  /** The page the routes evidently intend: at least 1, and 1 when the parameter
      is not a number. */
  function Page(raw: Option<string>, radix: Radix): (r: int)
    ensures r >= 1
    ensures PageAsWritten(raw, radix).Some? ==> r == PageAsWritten(raw, radix).value
    ensures PageAsWritten(raw, radix).None? ==> r == 1
  {
    match PageAsWritten(raw, radix)
    case None => 1
    case Some(p) => p
  }

  /** A missing page parameter is page 1, and so is `?page=abc`. */
  lemma PageDefaults(radix: Radix)
    ensures Page(None, radix) == 1
    ensures Page(Some("abc"), radix) == 1
  {
    ParseIntOfNatToString(1);
    assert NatToString(1) == "1";
    ParseIntAutoOfDigits("1");
    PageAsWrittenNaN(radix);
  }

  /** A page number is kept; a page below 1 becomes page 1. */
  lemma PageOfNumber(n: nat, radix: Radix)
    ensures Page(Some(NatToString(n)), radix) == if n == 0 then 1 else n
  {
    ParseIntOfNatToString(n);
    ParseIntAutoOfDigits(NatToString(n));
  }

  /** Without a radix, `?page=0x10` is page 16. */
  lemma PageOfHex()
    ensures Page(Some("0x10"), Unspecified) == 16
    ensures Page(Some("0x10"), Ten) == 1
  {
    ParseIntAutoHex();
  }

  /** `Math.ceil(total / limit)`. */
  function TotalPage(total: nat, limit: nat): (r: nat)
    requires limit > 0
    ensures (r as int) * limit >= total
    ensures r > 0 ==> (r - 1) * limit < total
  {
    (total + limit - 1) / limit
  }

  /** The documents shown on `page`: `skip((page - 1) * limit).limit(limit)` over the
      matching documents in the listing's order. */
  function Window<T>(items: seq<T>, page: int, limit: nat): (r: seq<T>)
    requires page >= 1
    ensures |r| <= limit
    ensures forall k :: 0 <= k < |r| ==> (page - 1) * limit + k < |items| && r[k] == items[(page - 1) * limit + k]
  {
    var start := (page - 1) * limit;
    if start >= |items| then []
    else if start + limit <= |items| then items[start..start + limit]
    else items[start..]
  }

  /** Every matching document appears on exactly one of the pages 1..totalPage, at
      the position its rank gives it. */
  lemma {:induction false} EveryItemOnItsPage<T>(items: seq<T>, limit: nat, i: nat)
    requires limit > 0 && i < |items|
    ensures var page := i / limit + 1;
      1 <= page <= TotalPage(|items|, limit)
      && i % limit < |Window(items, page, limit)|
      && Window(items, page, limit)[i % limit] == items[i]
  {
    var page := i / limit + 1;
    assert (page - 1) * limit + i % limit == i;
    var t := TotalPage(|items|, limit);
    assert (page - 1) * limit <= i;
    if page - 1 >= t {
      MulMonotone(t, page - 1, limit);
      assert false;
    }
  }

  /** A page of a sorted listing is itself sorted. */
  lemma WindowSorted<T>(sorted: seq<T>, key: T -> int, page: int, limit: nat, w: seq<T>)
    requires page >= 1 && Sorting.SortedBy(sorted, key)
    requires w == Window(sorted, page, limit)
    ensures Sorting.SortedBy(w, key)
  {
    var start := (page - 1) * limit;
    forall i, j | 0 <= i < j < |w|
      ensures key(w[i]) <= key(w[j])
    {
      assert w[i] == sorted[start + i] && w[j] == sorted[start + j];
    }
  }

  /** A page shows only documents of the listing. */
  lemma WindowFrom<T>(items: seq<T>, page: int, limit: nat, w: seq<T>)
    requires page >= 1
    requires w == Window(items, page, limit)
    ensures forall k :: 0 <= k < |w| ==> w[k] in items
  {
  }

  /** A page of a listing in some order is in that order. */
  lemma WindowInOrder<T>(items: seq<T>, before: (T, T) -> bool, page: int, limit: nat, w: seq<T>)
    requires page >= 1 && Sorting.InOrder(items, before)
    requires w == Window(items, page, limit)
    ensures Sorting.InOrder(w, before)
  {
    var start := (page - 1) * limit;
    forall i, j | 0 <= i < j < |w|
      ensures before(w[i], w[j])
    {
      assert w[i] == items[start + i] && w[j] == items[start + j];
    }
  }

  lemma MulMonotone(a: nat, b: nat, c: nat)
    requires a <= b
    ensures a * c <= b * c
  {
  }
}
