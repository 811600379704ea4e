/** The book routes mounted under `/api/books`. Each handler runs after the gate has let
    the request through, so it receives the resolved caller. The store keeps the book
    collection and the set of image handles the image host currently holds; the outcome of
    each call to the image host or to the database is a parameter. */
module BookRoutes {
  import opened Common
  import opened AuthMiddleware
  import opened BookListing

  const MissingFieldsMessage: string := "Please provide all fields"
  const NotFoundMessage: string := "Book not found"
  const UnauthorizedMessage: string := "Unauthorized"
  const DeletedMessage: string := "Book deleted successfully"
  const InternalErrorMessage: string := "Internal server error"

  /** The JSON body of a create request; an absent or null field is `None`. */
  datatype CreateBody = CreateBody(
    title: Option<string>,
    caption: Option<string>,
    rating: Option<int>,
    image: Option<string>)

  /** What the image host returns for a successful upload. */
  datatype Upload = Upload(secureUrl: string, publicId: string)

  /** The `:id` path segment: an id the store can look up, or text that is not one. */
  datatype IdParam = WellFormed(id: BookId) | Malformed

  /** Response bodies. `CollaboratorError` is a message copied from a failing collaborator. */
  datatype Payload =
    | Message(text: string)
    | CollaboratorError
    | CreatedBook(id: BookId, book: Book)
    | BookPage(books: seq<Stored>, currentPage: int, totalBooks: nat, totalPages: int)
    | BookList(books: seq<Stored>)

  datatype Reply = Reply(status: int, payload: Payload)

  /** JavaScript truthiness of an optional text field: present and not empty. */
  predicate TruthyText(s: Option<string>) {
    s.Some? && s.value != ""
  }

  /** JavaScript truthiness of an optional number: present and not zero. */
  predicate TruthyNumber(n: Option<int>) {
    n.Some? && n.value != 0
  }

  /** The create handler's guard: every one of the four fields is truthy. */
  predicate HasAllFields(body: CreateBody) {
    TruthyText(body.title) && TruthyText(body.caption) && TruthyNumber(body.rating) && TruthyText(body.image)
  }

  /** The record a successful create saves. */
  function NewBook(body: CreateBody, upload: Upload, caller: PublicUser, now: int): (b: Book)
    requires HasAllFields(body)
    ensures b.user == caller.id && b.image == upload.secureUrl && b.cloudinaryId == Some(upload.publicId)
    ensures b.title == body.title.value && b.caption == body.caption.value && b.rating == body.rating.value
    ensures b.createdAt == now
  {
    Book(body.title.value, body.caption.value, body.rating.value, upload.secureUrl, Some(upload.publicId), caller.id, now)
  }

  /** A book whose image the delete handler asks the image host to destroy. */
  predicate HasImageHandle(b: Book) {
    b.cloudinaryId.Some? && b.cloudinaryId.value != ""
  }

  /** The books of `m` owned by `owner`: the filter `{ user: owner }`. */
  function OwnedBy(m: map<BookId, Book>, owner: UserId): (r: map<BookId, Book>)
    ensures forall id :: id in r <==> id in m && m[id].user == owner
    ensures forall id :: id in r ==> r[id] == m[id]
  {
    map id | id in m && m[id].user == owner :: m[id]
  }

  class BookStore {
    /** The book collection. */
    var books: map<BookId, Book>
    /** Deletion handles of the images the image host holds. */
    var hosted: set<string>
    /** The next id the store assigns; every stored id is below it. */
    var nextId: nat

    ghost predicate Valid()
      reads this
    {
      forall id :: id in books ==> id < nextId
    }

    constructor ()
      ensures Valid() && books == map[] && hosted == {}
    {
      books := map[];
      hosted := {};
      nextId := 0;
    }

    /** `POST /api/books`. A missing or falsy field answers 400 before anything is
        uploaded. Otherwise the image is uploaded first and the book saved second: a failed
        upload leaves both stores as they were, a failed save leaves the uploaded image
        behind, and a successful save adds exactly one new book owned by the caller. */
    method Create(caller: PublicUser, body: CreateBody, upload: Option<Upload>, saveOk: bool, now: int)
      returns (reply: Reply)
      requires Valid()
      modifies this
      ensures Valid()
      ensures !HasAllFields(body) ==>
        reply == Reply(400, Message(MissingFieldsMessage)) && books == old(books) && hosted == old(hosted)
      ensures HasAllFields(body) && upload.None? ==>
        reply == Reply(500, CollaboratorError) && books == old(books) && hosted == old(hosted)
      ensures HasAllFields(body) && upload.Some? ==> hosted == old(hosted) + {upload.value.publicId}
      ensures HasAllFields(body) && upload.Some? && !saveOk ==>
        reply == Reply(500, CollaboratorError) && books == old(books)
      ensures HasAllFields(body) && upload.Some? && saveOk ==>
        && reply.status == 201
        && reply.payload.CreatedBook?
        && reply.payload.id !in old(books)
        && reply.payload.book == NewBook(body, upload.value, caller, now)
        && books == old(books)[reply.payload.id := reply.payload.book]
    {
      if !HasAllFields(body) {
        return Reply(400, Message(MissingFieldsMessage));
      }
      if upload.None? {
        return Reply(500, CollaboratorError);
      }
      hosted := hosted + {upload.value.publicId};
      if !saveOk {
        return Reply(500, CollaboratorError);
      }
      var id := nextId;
      var book := NewBook(body, upload.value, caller, now);
      books := books[id := book];
      nextId := nextId + 1;
      reply := Reply(201, CreatedBook(id, book));
    }

    /** `GET /api/books?page=&limit=`. Absent, non-numeric or zero parameters default to
        page 1 and limit 5. A negative skip is refused by the database (500). Otherwise the
        answer is the window of a newest-first ranking that starts after `skip` books and
        holds at most `|limit|` of them, the parsed page, the number of all books and
        `ceil(totalBooks / limit)`. */
    method List(pageQ: Option<int>, limitQ: Option<int>) returns (reply: Reply, ghost ranked: seq<Stored>)
      ensures var q := ParsePage(pageQ, limitQ);
              && (q.skip < 0 ==> reply == Reply(500, Message(InternalErrorMessage)))
              && (q.skip >= 0 ==>
                    && IsListing(books, ranked)
                    && reply == Reply(200, BookPage(Window(ranked, q.skip, q.take), q.page, |books|,
                                                   TotalPages(|books|, q.limit))))
      ensures var q := ParsePage(pageQ, limitQ);
              q.skip >= 0 ==>
                && reply.status == 200 && reply.payload.BookPage?
                && reply.payload.currentPage == q.page
                && reply.payload.totalBooks == |books|
                && |reply.payload.books| == (if q.skip >= |books| then 0 else Min(q.take, |books| - q.skip))
                && NewestFirst(reply.payload.books)
                && (forall e :: e in reply.payload.books ==> e.id in books && books[e.id] == e.book)
    {
      var q := ParsePage(pageQ, limitQ);
      if q.skip < 0 {
        return Reply(500, Message(InternalErrorMessage)), [];
      }
      var all := RankNewestFirst(books);
      PageOfListing(books, all, q.skip, q.take);
      ranked := all;
      var totalBooks := |books|;
      reply := Reply(200, BookPage(Window(all, q.skip, q.take), q.page, totalBooks, TotalPages(totalBooks, q.limit)));
    }

    /** `GET /api/books/users`: every book the caller owns and no other, newest first,
        without pagination. */
    method ListMine(caller: PublicUser) returns (reply: Reply)
      ensures reply.status == 200 && reply.payload.BookList?
      ensures IsListing(OwnedBy(books, caller.id), reply.payload.books)
      ensures forall e :: e in reply.payload.books ==> e.id in books && books[e.id] == e.book && e.book.user == caller.id
      ensures forall id :: id in books && books[id].user == caller.id ==> id in IdsOf(reply.payload.books)
    {
      var mine := RankNewestFirst(OwnedBy(books, caller.id));
      forall e | e in mine
        ensures e.id in books && books[e.id] == e.book && e.book.user == caller.id
      {
        var k :| 0 <= k < |mine| && mine[k] == e;
      }
      reply := Reply(200, BookList(mine));
    }

    /** `DELETE /api/books/:id`. A malformed id fails the lookup (500) and an absent one
        answers 404; a book owned by someone else answers 401. In none of these cases does
        anything change. For the owner, the image is destroyed first if the book has a
        handle, and a failure there is ignored; then the record is removed, and only that
        record. If the removal fails the answer is 500 and the record stays. */
    method Delete(caller: PublicUser, param: IdParam, destroyOk: bool, removeOk: bool) returns (reply: Reply)
      requires Valid()
      modifies this
      ensures Valid()
      ensures param.Malformed? ==>
        reply == Reply(500, Message(InternalErrorMessage)) && books == old(books) && hosted == old(hosted)
      ensures param.WellFormed? && param.id !in old(books) ==>
        reply == Reply(404, Message(NotFoundMessage)) && books == old(books) && hosted == old(hosted)
      ensures param.WellFormed? && param.id in old(books) && old(books)[param.id].user != caller.id ==>
        reply == Reply(401, Message(UnauthorizedMessage)) && books == old(books) && hosted == old(hosted)
      ensures param.WellFormed? && param.id in old(books) && old(books)[param.id].user == caller.id ==>
        var b := old(books)[param.id];
        && hosted == (if HasImageHandle(b) && destroyOk then old(hosted) - {b.cloudinaryId.value} else old(hosted))
        && (removeOk ==> reply == Reply(200, Message(DeletedMessage)) && books == old(books) - {param.id})
        && (!removeOk ==> reply == Reply(500, Message(InternalErrorMessage)) && books == old(books))
    {
      if param.Malformed? {
        return Reply(500, Message(InternalErrorMessage));
      }
      var id := param.id;
      if id !in books {
        return Reply(404, Message(NotFoundMessage));
      }
      var book := books[id];
      if book.user != caller.id {
        return Reply(401, Message(UnauthorizedMessage));
      }
      if HasImageHandle(book) && destroyOk {
        hosted := hosted - {book.cloudinaryId.value};
      }
      if !removeOk {
        return Reply(500, Message(InternalErrorMessage));
      }
      books := books - {id};
      reply := Reply(200, Message(DeletedMessage));
    }
  }

  /** Deleting the same book twice: the owner's first delete succeeds and removes the
      record, so the second finds nothing and answers 404. */
  method DeleteTwice(store: BookStore, owner: PublicUser, id: BookId, destroyOk: bool)
    returns (first: Reply, second: Reply)
    requires store.Valid() && id in store.books && store.books[id].user == owner.id
    modifies store
    ensures first == Reply(200, Message(DeletedMessage))
    ensures second == Reply(404, Message(NotFoundMessage))
    ensures store.books == old(store.books) - {id}
  {
    first := store.Delete(owner, WellFormed(id), destroyOk, true);
    second := store.Delete(owner, WellFormed(id), destroyOk, true);
  }

  /** A delete by anyone but the owner keeps the book and its image, whatever the
      collaborators would have done. */
  method DeleteByStranger(store: BookStore, stranger: PublicUser, id: BookId, destroyOk: bool, removeOk: bool)
    returns (reply: Reply)
    requires store.Valid() && id in store.books && store.books[id].user != stranger.id
    modifies store
    ensures reply.status == 401
    ensures store.books == old(store.books) && store.hosted == old(store.hosted)
  {
    reply := store.Delete(stranger, WellFormed(id), destroyOk, removeOk);
  }

  /** `router.post("/", protectRoute, handler)`: a request the gate refuses gets the gate's
      401 and touches neither store; one it lets through is handled for the resolved user.
      Every answer is one of 201, 400, 401 and 500. */
  method CreateRoute(store: BookStore, req: Request, verify: string -> Option<UserId>, users: map<UserId, UserRecord>,
                     body: CreateBody, upload: Option<Upload>, saveOk: bool, now: int)
    returns (reply: Reply)
    requires store.Valid()
    modifies store, req
    ensures store.Valid()
    ensures var gate := Authenticate(req.authorization, verify, users);
            && (gate.Reject? ==> reply == Reply(401, Message(gate.message))
                                 && store.books == old(store.books) && store.hosted == old(store.hosted))
            && (gate.Next? ==> req.user == Some(gate.user))
    ensures reply.status in {201, 400, 401, 500}
  {
    var gate := ProtectRoute(req, verify, users);
    if gate.Reject? {
      return Reply(gate.status, Message(gate.message));
    }
    reply := store.Create(gate.user, body, upload, saveOk, now);
  }

  /** `router.delete("/:id", protectRoute, handler)`: a request the gate refuses gets the
      gate's 401 and touches neither store; one it lets through is handled for the resolved
      user. Every answer is one of 200, 401, 404 and 500. */
  method DeleteRoute(store: BookStore, req: Request, verify: string -> Option<UserId>, users: map<UserId, UserRecord>,
                     param: IdParam, destroyOk: bool, removeOk: bool)
    returns (reply: Reply)
    requires store.Valid()
    modifies store, req
    ensures store.Valid()
    ensures var gate := Authenticate(req.authorization, verify, users);
            && (gate.Reject? ==> reply == Reply(401, Message(gate.message))
                                 && store.books == old(store.books) && store.hosted == old(store.hosted))
            && (gate.Next? ==> req.user == Some(gate.user))
    ensures reply.status in {200, 401, 404, 500}
  {
    var gate := ProtectRoute(req, verify, users);
    if gate.Reject? {
      return Reply(gate.status, Message(gate.message));
    }
    reply := store.Delete(gate.user, param, destroyOk, removeOk);
  }
}
