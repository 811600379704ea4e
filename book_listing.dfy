/** Book records and the arithmetic of listing them: the newest-first order that every
    listing uses, the page window of the paginated list, and the page count. */
module BookListing {
  import opened Common
  import opened AuthMiddleware

  /** The id the store assigns to a book when it is saved. */
  type BookId = nat

  /** A stored book. `cloudinaryId` is the image store's deletion handle, which older
      records may lack; `createdAt` is the save time, the only sort key. */
  datatype Book = Book(
    title: string,
    caption: string,
    rating: int,
    image: string,
    cloudinaryId: Option<string>,
    user: UserId,
    createdAt: int)

  /** A book together with its id, as listings return it. */
  datatype Stored = Stored(id: BookId, book: Book)

  function IdsOf(es: seq<Stored>): set<BookId> {
    set e | e in es :: e.id
  }

  /** Creation times never increase along the sequence; ties may come in any order. */
  ghost predicate NewestFirst(es: seq<Stored>) {
    forall i, j :: 0 <= i < j < |es| ==> es[j].book.createdAt <= es[i].book.createdAt
  }

  /** `es` lists every book of `m` exactly once, each with its own record, newest first. */
  ghost predicate IsListing(m: map<BookId, Book>, es: seq<Stored>) {
    && (forall i :: 0 <= i < |es| ==> es[i].id in m && m[es[i].id] == es[i].book)
    && (forall i, j :: 0 <= i < j < |es| ==> es[i].id != es[j].id)
    && IdsOf(es) == m.Keys
    && NewestFirst(es)
  }

  /** `top` is a newest book among the ids in `s`. */
  predicate IsNewestIn(m: map<BookId, Book>, s: set<BookId>, top: BookId)
    requires s <= m.Keys
  {
    top in s && forall o :: o in s ==> m[o].createdAt <= m[top].createdAt
  }

  /** Every non-empty set of stored books has a newest one. */
  lemma {:induction false} NewestExists(m: map<BookId, Book>, s: set<BookId>)
    requires s != {} && s <= m.Keys
    ensures exists top :: IsNewestIn(m, s, top)
    decreases s
  {
    var x :| x in s;
    if s != {x} {
      NewestExists(m, s - {x});
      var t :| IsNewestIn(m, s - {x}, t);
      if m[t].createdAt < m[x].createdAt {
        assert IsNewestIn(m, s, x);
      } else {
        assert IsNewestIn(m, s, t);
      }
    } else {
      assert IsNewestIn(m, s, x);
    }
  }

  /** The store's `sort({ createdAt: -1 })` over the books of `m`. Books with equal
      creation times come out in an order the caller cannot rely on. */
  method RankNewestFirst(m: map<BookId, Book>) returns (es: seq<Stored>)
    ensures IsListing(m, es)
  {
    es := [];
    var rest := m.Keys;
    while rest != {}
      invariant rest <= m.Keys
      invariant IdsOf(es) !! rest && IdsOf(es) + rest == m.Keys
      invariant forall i :: 0 <= i < |es| ==> es[i].id in m && m[es[i].id] == es[i].book
      invariant forall i, j :: 0 <= i < j < |es| ==> es[i].id != es[j].id
      invariant NewestFirst(es)
      invariant forall i, r :: 0 <= i < |es| && r in rest ==> m[r].createdAt <= es[i].book.createdAt
      decreases rest
    {
      NewestExists(m, rest);
      var top :| IsNewestIn(m, rest, top);
      assert IdsOf(es + [Stored(top, m[top])]) == IdsOf(es) + {top};
      es := es + [Stored(top, m[top])];
      rest := rest - {top};
    }
  }

  /** A listing has exactly as many entries as the store has books. */
  lemma ListingSize(m: map<BookId, Book>, es: seq<Stored>)
    requires IsListing(m, es)
    ensures |es| == |m|
  {
    DistinctIds(es);
    assert |m.Keys| == |m|;
  }

  /** Entries with pairwise distinct ids have as many ids as entries. */
  lemma {:induction false} DistinctIds(es: seq<Stored>)
    requires forall i, j :: 0 <= i < j < |es| ==> es[i].id != es[j].id
    ensures |IdsOf(es)| == |es|
  {
    if es != [] {
      var tail := es[1..];
      DistinctIds(tail);
      assert IdsOf(es) == {es[0].id} + IdsOf(tail);
      forall e | e in tail
        ensures e.id != es[0].id
      {
        var k :| 0 <= k < |tail| && tail[k] == e;
        assert es[k + 1] == e;
      }
    }
  }

  /** `parseInt(q) || fallback`: a parameter that is absent, not a number, or zero takes the
      fallback; any other integer, negative ones included, is kept. */
  function QueryInt(q: Option<int>, fallback: int): (v: int)
    ensures q.Some? && q.value != 0 ==> v == q.value
    ensures (q.None? || q.value == 0) ==> v == fallback
    ensures fallback != 0 ==> v != 0
  {
    match q
    case Some(n) => if n != 0 then n else fallback
    case None => fallback
  }

  /** The list route's reading of its query: page and limit with their defaults, the
      number of books to skip, and how many the database returns at most (`|limit|`). */
  datatype PageQuery = PageQuery(page: int, limit: int, skip: int, take: nat)

  /** `page = parseInt(page) || 1`, `limit = parseInt(limit) || 5`, `skip = (page - 1) * limit`. */
  function ParsePage(pageQ: Option<int>, limitQ: Option<int>): (q: PageQuery)
    ensures q.page == QueryInt(pageQ, 1) && q.limit == QueryInt(limitQ, 5)
    ensures q.page != 0 && q.limit != 0 && q.take > 0
    ensures q.skip == (q.page - 1) * q.limit
    ensures q.take == if q.limit < 0 then -q.limit else q.limit
  {
    var page := QueryInt(pageQ, 1);
    var limit := QueryInt(limitQ, 5);
    PageQuery(page, limit, (page - 1) * limit, if limit < 0 then -limit else limit)
  }

  function Min(a: int, b: int): (m: int) { if a <= b then a else b }

  /** `.skip(skip).limit(take)` over a ranked listing: the entries of rank `skip + 1` up to
      `skip + take`, as many of them as exist. */
  function Window(es: seq<Stored>, skip: nat, take: nat): (w: seq<Stored>)
    ensures |w| <= take
    ensures |w| == if skip >= |es| then 0 else Min(take, |es| - skip)
    ensures forall k :: 0 <= k < |w| ==> w[k] == es[skip + k]
    ensures NewestFirst(es) ==> NewestFirst(w)
  {
    es[Min(skip, |es|)..Min(skip + take, |es|)]
  }

  /** A page of a full listing holds stored records only, as many as remain after the
      skip up to `take`, newest first. */
  lemma PageOfListing(m: map<BookId, Book>, es: seq<Stored>, skip: nat, take: nat)
    requires IsListing(m, es)
    ensures var w := Window(es, skip, take);
            && |w| == (if skip >= |m| then 0 else Min(take, |m| - skip))
            && NewestFirst(w)
            && (forall e :: e in w ==> e.id in m && m[e.id] == e.book)
  {
    ListingSize(m, es);
    var w := Window(es, skip, take);
    forall e | e in w
      ensures e.id in m && m[e.id] == e.book
    {
      var k :| 0 <= k < |w| && w[k] == e;
      assert es[skip + k] == e;
    }
  }

  /** `Math.ceil(total / limit)` for a non-zero integer limit: the least whole number
      `pages` with `pages >= total / limit`. */
  function TotalPages(total: nat, limit: int): (pages: int)
    requires limit != 0
    ensures limit > 0 ==> pages >= 0 && pages * limit >= total && (pages - 1) * limit < total
    ensures limit < 0 ==> pages <= 0 && pages * limit <= total && (pages - 1) * limit > total
  {
    if limit > 0 then CeilDiv(total, limit) else -(total / -limit)
  }

  function CeilDiv(total: nat, n: int): (q: nat)
    requires n > 0
    ensures q * n >= total && (q - 1) * n < total
  {
    var q := (total + n - 1) / n;
    assert q * n + (total + n - 1) % n == total + n - 1;
    q
  }

  /** With a positive limit there is exactly one page per `limit` books or part thereof:
      a store without books has no pages, and the last page is never empty. */
  lemma PagesCoverExactly(total: nat, limit: int)
    requires limit > 0
    ensures TotalPages(total, limit) == 0 <==> total == 0
    ensures total > 0 ==> 0 < total - (TotalPages(total, limit) - 1) * limit <= limit
  {
  }

  /** Twelve books, page 2 of 5: ranks 6 to 10 of the newest-first order, three pages. */
  lemma SecondPageOfTwelve(es: seq<Stored>)
    requires |es| == 12
    ensures var q := ParsePage(Some(2), Some(5));
            q.skip == 5 && Window(es, q.skip, q.take) == es[5..10] && TotalPages(12, q.limit) == 3
  {
  }

  /** No query parameters on an empty store: page 1, no books, no pages. */
  lemma DefaultsOnEmptyStore()
    ensures var q := ParsePage(None, None);
            q.page == 1 && q.limit == 5 && q.skip == 0
            && Window([], q.skip, q.take) == [] && TotalPages(0, q.limit) == 0
  {
  }
}
