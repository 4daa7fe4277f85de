/** The list/search/paginate arithmetic shared by the item and user listings:
    defaults, `skip`, the returned window and `totalPages`. */
module Paging {
  import opened Base
  import opened Text

  /** `page ? parseInt(page) : 1`; an absent or empty parameter is `None`. */
  const DefaultPage: int := 1
  /** `limit ? parseInt(limit) : 10`. */
  const DefaultLimit: int := 10

  /** The query string of a listing: the search term and the already parsed
      `page` and `limit`; an absent or empty parameter is `None`. */
  datatype ListQuery = ListQuery(q: Option<string>, page: Option<int>, limit: Option<int>)

  function OrDefault(v: Option<int>, default: int): int {
    if v.Some? then v.value else default
  }

  /** `(currentPage - 1) * perPage`. */
  function Skip(page: int, perPage: int): int {
    (page - 1) * perPage
  }

  /** `find(filter).skip(skip).limit(perPage)`: the matching documents at
      positions `skip`, `skip + 1`, ..., at most `perPage` of them. */
  function Window<T>(s: seq<T>, skip: nat, perPage: nat): (w: seq<T>)
    ensures |w| == if skip >= |s| then 0 else if |s| - skip < perPage then |s| - skip else perPage
    ensures forall i :: 0 <= i < |w| ==> w[i] == s[skip + i]
  {
    if skip >= |s| then []
    else if |s| - skip < perPage then s[skip..]
    else s[skip..skip + perPage]
  }

  /** `Math.ceil(count / perPage)` for a positive `perPage`: the fewest pages
      of `perPage` documents that hold `count` documents. */
  function CeilDiv(count: nat, perPage: nat): (pages: nat)
    requires perPage >= 1
    ensures pages * perPage >= count
    ensures pages == 0 || (pages - 1) * perPage < count
  {
    if count == 0 then 0
    else if count <= perPage then 1
    else 1 + CeilDiv(count - perPage, perPage)
  }

  /** The response of a listing. */
  datatype Page<T> = Page(results: seq<T>, currentPage: int, totalPages: nat, totalCount: nat)

  /** `p` is page `page` of `matching`: it echoes the page, counts every
      match, reports the ceiling of the count over `perPage` as the number of
      pages, and shows the matches from position `(page - 1) * perPage` on,
      `perPage` of them or as many as are left. */
  ghost predicate IsPage<T>(p: Page<T>, matching: seq<T>, page: int, perPage: int)
    requires perPage >= 1
  {
    && p.currentPage == page && p.totalCount == |matching|
    && p.totalPages == CeilDiv(|matching|, perPage)
    && |p.results| <= perPage
    && |p.results| == (var skip := Skip(page, perPage);
                       if skip >= |matching| then 0
                       else if |matching| - skip < perPage then |matching| - skip else perPage)
    && 0 <= Skip(page, perPage) && (|p.results| > 0 ==> Skip(page, perPage) + |p.results| <= |matching|)
    && forall i :: 0 <= i < |p.results| ==> p.results[i] == matching[Skip(page, perPage) + i]
  }

  /** One page of the matching documents. */
  function Paginate<T>(matching: seq<T>, page: int, perPage: int): (p: Page<T>)
    requires page >= 1 && perPage >= 1
    ensures IsPage(p, matching, page, perPage)
    ensures |p.results| > 0 <==> page <= p.totalPages
    ensures page < p.totalPages ==> |p.results| == perPage
  {
    var skip := Skip(page, perPage);
    PageBounds(|matching|, page, perPage);
    var w := Window(matching, skip, perPage);
    Page(w, page, CeilDiv(|matching|, perPage), |matching|)
  }

  /** `IsPage` leaves no freedom: the one page it describes is `Paginate`'s. */
  lemma IsPagePaginate<T>(p: Page<T>, matching: seq<T>, page: int, perPage: int)
    requires page >= 1 && perPage >= 1
    requires IsPage(p, matching, page, perPage)
    ensures p == Paginate(matching, page, perPage)
  {
    var w := Paginate(matching, page, perPage);
    assert |p.results| == |w.results|;
    assert forall i :: 0 <= i < |p.results| ==> p.results[i] == w.results[i];
    assert p.results == w.results;
  }

  /** Where page `page` starts relative to the end of the matching documents. */
  lemma PageBounds(count: nat, page: int, perPage: int)
    requires page >= 1 && perPage >= 1
    ensures Skip(page, perPage) >= 0
    ensures page <= CeilDiv(count, perPage) <==> Skip(page, perPage) < count
    ensures page < CeilDiv(count, perPage) ==> Skip(page, perPage) + perPage < count
  {
    var pages := CeilDiv(count, perPage);
    var skip := Skip(page, perPage);
    MulMono(0, page - 1, perPage);
    if page <= pages {
      MulMono(page - 1, pages - 1, perPage);
    } else {
      MulMono(pages, page - 1, perPage);
    }
    if page < pages {
      MulMono(page, pages - 1, perPage);
      assert skip + perPage == page * perPage;
    }
  }

  lemma MulMono(a: int, b: int, c: nat)
    requires a <= b
    ensures a * c <= b * c
  {
  }

  /** The pages `first`, `first + 1`, ... up to the last one, concatenated. */
  function PagesFrom<T>(matching: seq<T>, first: int, perPage: int): seq<T>
    requires first >= 1 && perPage >= 1
    decreases CeilDiv(|matching|, perPage) - first
  {
    if first > CeilDiv(|matching|, perPage) then []
    else Paginate(matching, first, perPage).results + PagesFrom(matching, first + 1, perPage)
  }

  /** Walking every page from the first to `totalPages` returns each matching
      document exactly once, in store order. */
  lemma {:induction false} PagesCoverAll<T>(matching: seq<T>, perPage: int)
    requires perPage >= 1
    ensures PagesFrom(matching, 1, perPage) == matching
  {
    PagesFromSuffix(matching, 1, perPage);
    assert matching[0..] == matching;
  }

  lemma {:induction false} PagesFromSuffix<T>(matching: seq<T>, first: int, perPage: int)
    requires first >= 1 && perPage >= 1
    ensures Skip(first, perPage) <= |matching| ==> PagesFrom(matching, first, perPage) == matching[Skip(first, perPage)..]
    ensures Skip(first, perPage) > |matching| ==> PagesFrom(matching, first, perPage) == []
    decreases CeilDiv(|matching|, perPage) - first
  {
    var pages := CeilDiv(|matching|, perPage);
    var skip := Skip(first, perPage);
    if first <= pages {
      var w := Paginate(matching, first, perPage).results;
      PagesFromSuffix(matching, first + 1, perPage);
      assert Skip(first + 1, perPage) == skip + perPage;
      assert skip < |matching|;
      if skip + perPage <= |matching| {
        assert w == matching[skip..skip + perPage];
        assert matching[skip..] == matching[skip..skip + perPage] + matching[skip + perPage..];
      } else {
        assert w == matching[skip..];
      }
    } else {
      assert skip >= pages * perPage by { MulMono(pages, first - 1, perPage); }
      if skip == |matching| { assert matching[skip..] == []; }
    }
  }

  /** The listing filter: no search term (absent or empty) matches every
      document; otherwise the searched path must contain the term, ignoring
      case. */
  predicate Matches(path: Option<string>, q: Option<string>) {
    q.None? || q.value == "" || (path.Some? && ContainsIgnoringCase(path.value, q.value))
  }

  /** The documents of `docs`, in order, whose `key` path matches `q`. */
  function Search<T(==,!new)>(docs: seq<(Id, T)>, key: T -> Option<string>, q: Option<string>): (r: seq<(Id, T)>)
    ensures |r| <= |docs|
    ensures forall e :: e in r <==> e in docs && Matches(key(e.1), q)
  {
    if docs == [] then []
    else
      var rest := Search(docs[1..], key, q);
      if Matches(key(docs[0].1), q) then [docs[0]] + rest else rest
  }

  /** The filter works document by document: searching a concatenation
      searches each part, and one document is kept exactly when it matches.
      Together these fix the result, order and multiplicity included. */
  lemma {:induction false} SearchAppend<T(!new)>(x: seq<(Id, T)>, y: seq<(Id, T)>, key: T -> Option<string>,
                                                 q: Option<string>)
    ensures Search(x + y, key, q) == Search(x, key, q) + Search(y, key, q)
    decreases |x|
  {
    if x == [] {
      assert x + y == y;
    } else {
      var d, xs := x[0], x[1..];
      var head := if Matches(key(d.1), q) then [d] else [];
      var sx, sy := Search(xs, key, q), Search(y, key, q);
      TailAppend(x, y);
      SearchAppend(xs, y, key, q);
      AppendAssoc(head, sx, sy);
    }
  }

  /** The first document is kept exactly when its key matches. */
  lemma SearchCons<T(!new)>(d: (Id, T), rest: seq<(Id, T)>, key: T -> Option<string>, q: Option<string>)
    ensures Search([d] + rest, key, q) == (if Matches(key(d.1), q) then [d] else []) + Search(rest, key, q)
  {
    assert ([d] + rest)[0] == d && ([d] + rest)[1..] == rest;
  }

  /** Without a search term the filter keeps every document in order. */
  lemma {:induction false} SearchWithoutTerm<T(!new)>(docs: seq<(Id, T)>, key: T -> Option<string>, q: Option<string>)
    requires q.None? || q.value == ""
    ensures Search(docs, key, q) == docs
  {
    if docs != [] {
      SearchWithoutTerm(docs[1..], key, q);
      assert docs == [docs[0]] + docs[1..];
    }
  }
}
