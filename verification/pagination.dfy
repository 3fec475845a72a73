/** `paginatedList` of api/helpers/generic.js: the page arithmetic over a query's matching
    documents. The documents are given already filtered and sorted (the `find(query)` and
    `sort(sortBy)` of MongoDB), so the model is about which slice comes back and what `meta`
    reports. */
module Pagination {
  import opened Wrappers
  import opened JsRuntime

  datatype Meta = Meta(page: int, perPage: int, totalPages: int, total: nat)
  datatype Page<T> = Page(data: seq<T>, meta: Meta)

  /** MongoDB refuses a negative `skip`, and `paginatedList` rejects with that error. */
  datatype QueryError = NegativeSkip

  function Abs(x: int): nat {
    if x < 0 then -x else x
  }

  function Min(a: int, b: int): int {
    if a <= b then a else b
  }

  /** `parseInt(raw || "") || fallback`: an absent or empty parameter, one with no leading
      number, and one that reads as zero all give the fallback; any other integer read,
      negative ones included, is kept. */
  function QueryNumber(raw: Option<string>, fallback: int): (v: int)
    ensures raw.None? ==> v == fallback
    ensures raw.Some? && (ParseInt(raw.value).None? || ParseInt(raw.value) == Some(0)) ==> v == fallback
    ensures raw.Some? && ParseInt(raw.value).Some? && ParseInt(raw.value).value != 0 ==>
      v == ParseInt(raw.value).value
    ensures fallback != 0 ==> v != 0
  {
    var parsed := if raw.None? then None else ParseInt(raw.value);
    if parsed.None? || parsed.value == 0 then fallback else parsed.value
  }

  /** `Math.ceil(n / d)` for a count `n` and a non-zero `d`, stated by the bounds that define
      the ceiling. */
  function CeilDiv(n: nat, d: int): (q: int)
    requires d != 0
    ensures d > 0 ==> (q - 1) * d < n <= q * d
    ensures d < 0 ==> q * d <= n < (q - 1) * d
    ensures d > 0 ==> q >= 0 && (n == 0 <==> q == 0)
  {
    var q := if d < 0 || n % d == 0 then n / d else n / d + 1;
    assert n == (n / d) * d + n % d;
    assert (q - 1) * d == q * d - d;
    assert d > 0 && n % d != 0 ==> q * d == (n / d) * d + d;
    assert d > 0 && q < 0 ==> q * d < 0;
    assert d > 0 && q > 0 ==> (q - 1) * d >= 0;
    q
  }

  /** `.skip(skip).limit(limit)` over the matching documents. A negative limit is read as a
      single batch of `|limit|` documents and a zero limit as no limit, as MongoDB does. */
  function Window<T>(items: seq<T>, skip: int, limit: int): (r: Result<seq<T>, QueryError>)
    ensures r.Failure? <==> skip < 0
    ensures r.Success? && skip <= |items| ==>
      skip + |r.value| <= |items| && r.value == items[skip..skip + |r.value|]
    ensures r.Success? && skip >= |items| ==> r.value == []
    ensures r.Success? && limit != 0 && skip <= |items| ==> |r.value| == Min(Abs(limit), |items| - skip)
  {
    if skip < 0 then Failure(NegativeSkip)
    else
      var rest := if skip <= |items| then items[skip..] else [];
      var take := if limit == 0 then |rest| else Min(Abs(limit), |rest|);
      Success(rest[..take])
  }

  lemma WindowSlice<T>(items: seq<T>, skip: int, limit: int)
    requires skip >= 0 && limit >= 1
    ensures Window(items, skip, limit) == Success(items[Min(skip, |items|)..Min(skip + limit, |items|)])
  {
    if skip <= |items| {
      var take := Min(Abs(limit), |items| - skip);
      assert items[skip..][..take] == items[skip..skip + take];
    } else {
      assert items[|items|..|items|] == [];
    }
  }

  lemma ProductSign(a: int, b: int)
    requires b != 0
    ensures a * b < 0 <==> (a < 0 && b > 0) || (a > 0 && b < 0)
  {
    if a < 0 && b > 0 {
      assert a * b <= -b;
    } else if a > 0 && b < 0 {
      assert a * b <= b;
    } else if a < 0 {
      assert a * b >= -b;
    } else if a > 0 {
      assert a * b >= b;
    }
  }

  lemma MulStep(n: int, d: int)
    ensures (n - 1) * d + d == n * d
  {
  }

  /** `(page - 1) * perPage`, the number of documents before the page. */
  function SkipOf(page: int, perPage: int): (skip: int)
    requires perPage != 0
    ensures skip < 0 <==> (page < 1 && perPage > 0) || (page > 1 && perPage < 0)
    ensures skip + perPage == SkipOfNext(page, perPage)
  {
    ProductSign(page - 1, perPage);
    MulStep(page, perPage);
    (page - 1) * perPage
  }

  /** `page * perPage`, the number of documents up to the end of the page. */
  function SkipOfNext(page: int, perPage: int): int {
    page * perPage
  }

  lemma SkipOfSucc(n: int, perPage: int)
    requires perPage != 0
    ensures SkipOf(n + 1, perPage) == SkipOfNext(n, perPage)
  {
  }

  /** The page for already-parsed `page` and `perPage`: a negative skip, that is a page below 1
      with a positive size or above 1 with a negative size, is rejected. */
  function PageOf<T>(items: seq<T>, page: int, perPage: int): (r: Result<Page<T>, QueryError>)
    requires perPage != 0
    ensures r.Failure? <==> (page < 1 && perPage > 0) || (page > 1 && perPage < 0)
    ensures r.Success? ==> r.value.meta == Meta(page, perPage, CeilDiv(|items|, perPage), |items|)
    ensures page >= 1 && perPage >= 1 ==>
      var skip := SkipOf(page, perPage);
      && r.Success?
      && r.value.data == items[Min(skip, |items|)..Min(skip + perPage, |items|)]
  {
    var skip := SkipOf(page, perPage);
    var w := Window(items, skip, perPage);
    if w.Failure? then Failure(w.error)
    else
      var r := Success(Page(w.value, Meta(page, perPage, CeilDiv(|items|, perPage), |items|)));
      if page >= 1 && perPage >= 1 then
        WindowSlice(items, skip, perPage);
        r
      else r
  }

  /** `paginatedList(req, model, query, sortBy)` with `req.query.page` and `req.query.perPage`
      as given (absent when `None`). */
  function PaginatedList<T>(items: seq<T>, pageParam: Option<string>, perPageParam: Option<string>): (r: Result<Page<T>, QueryError>)
    ensures r.Success? ==> r.value.meta.page != 0 && r.value.meta.perPage != 0
    ensures r.Success? ==> r.value.meta.total == |items|
    ensures pageParam.None? && perPageParam.None? ==>
      r == Success(Page(items[..Min(10, |items|)], Meta(1, 10, CeilDiv(|items|, 10), |items|)))
  {
    PageOf(items, QueryNumber(pageParam, 1), QueryNumber(perPageParam, 10))
  }

  /** The data of pages 1 to `n`, one after the other. */
  function PagesUpTo<T>(items: seq<T>, perPage: int, n: nat): seq<T>
    requires perPage >= 1
  {
    if n == 0 then [] else PagesUpTo(items, perPage, n - 1) + PageOf(items, n, perPage).value.data
  }

  lemma AdjacentSlices<T>(items: seq<T>, a: int, b: int)
    requires 0 <= a <= b
    ensures items[..Min(a, |items|)] + items[Min(a, |items|)..Min(b, |items|)] == items[..Min(b, |items|)]
  {
  }

  lemma {:induction false} PagesUpToIsPrefix<T>(items: seq<T>, perPage: int, n: nat)
    requires perPage >= 1
    ensures PagesUpTo(items, perPage, n) == items[..Min(SkipOfNext(n, perPage), |items|)]
  {
    if n == 0 {
      assert SkipOfNext(0, perPage) == 0;
    } else {
      PagesUpToIsPrefix(items, perPage, n - 1);
      SkipOfSucc(n - 1, perPage);
      var a := SkipOf(n, perPage);
      var b := SkipOfNext(n, perPage);
      assert a >= 0 && b == a + perPage;
      assert PageOf(items, n, perPage).value.data == items[Min(a, |items|)..Min(b, |items|)];
      AdjacentSlices(items, a, b);
    }
  }

  /** For a positive page size, pages 1 to `totalPages` hold every matching document exactly
      once and in order. */
  lemma PagesCoverItems<T>(items: seq<T>, perPage: int)
    requires perPage >= 1
    ensures PagesUpTo(items, perPage, CeilDiv(|items|, perPage)) == items
  {
    var n := CeilDiv(|items|, perPage);
    PagesUpToIsPrefix(items, perPage, n);
    assert SkipOfNext(n, perPage) == n * perPage;
  }

  /** A parameter that reads as a non-zero integer, negative ones included, is kept, whatever
      non-digit text follows it. */
  lemma NonZeroParameterKept(n: int, rest: string, fallback: int)
    requires n != 0
    requires rest == [] || (!IsDecimalDigit(rest[0]) && rest[0] != 'x' && rest[0] != 'X')
    ensures QueryNumber(Some(IntToString(n) + rest), fallback) == n
  {
    ParseIntReadsPrintedInt(n, rest);
  }

  /** A parameter that reads as zero gives the fallback. */
  lemma ZeroParameterFallsBack(rest: string, fallback: int)
    requires rest == [] || (!IsDecimalDigit(rest[0]) && rest[0] != 'x' && rest[0] != 'X')
    ensures QueryNumber(Some(IntToString(0) + rest), fallback) == fallback
  {
    ParseIntReadsPrintedInt(0, rest);
  }
}
