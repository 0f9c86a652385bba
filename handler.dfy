/**
 * The five request handlers of the bookshelf API over the shared store.
 * The web framework is reduced to a Reply value carrying the HTTP status code,
 * the `status` field ('success' or 'fail'), the message and the data.
 * The fresh id (from nanoid) and the current ISO time are parameters.
 */
module Handler {
  import opened Options
  import opened Seqs
  import opened Text
  import opened Books

  /** The query string of GET /books; an omitted parameter is None. */
  datatype Query = Query(name: Option<string>, reading: Option<bool>, finished: Option<bool>)

  /** The listing view of a book: `{id, name, publisher}`. */
  datatype Summary = Summary(id: string, name: string, publisher: Option<string>)

  datatype Data = NoData | BookId(bookId: string) | BookList(books: seq<Summary>) | BookDetail(book: Book)

  /** A response: status 'success' with an optional message and data, or 'fail' with a message. */
  datatype Reply =
    | Success(code: int, message: Option<string>, data: Data)
    | Fail(code: int, reason: string)

  const AddNameMissing := "Gagal menambahkan buku. Mohon isi nama buku"
  const AddReadPageTooLarge := "Gagal menambahkan buku. readPage tidak boleh lebih besar dari pageCount"
  const AddSucceeded := "Buku berhasil ditambahkan"
  const AddFailed := "Buku gagal ditambahkan"
  const BookNotFound := "Buku tidak ditemukan"
  const EditNameMissing := "Gagal memperbarui buku. Mohon isi nama buku"
  const EditReadPageTooLarge := "Gagal memperbarui buku. readPage tidak boleh lebih besar dari pageCount"
  const EditSucceeded := "Buku berhasil diperbarui"
  const EditIdNotFound := "Gagal memperbarui buku. Id tidak ditemukan"
  const DeleteSucceeded := "Buku berhasil dihapus"
  const DeleteIdNotFound := "Buku gagal dihapus. Id tidak ditemukan"

  // ---------------------------------------------------------------------------
  // Records built by the writes

  /** The record the add handler pushes. */
  function NewBook(p: Payload, id: string, now: string): Book
    requires !NameMissing(p.name)
  {
    Book(id, p.name.value, p.year, p.author, p.summary, p.publisher,
         p.pageCount, p.readPage, p.pageCount == p.readPage, p.reading, now, now)
  }

  /** `{...book, name, year, ..., finished, reading, updatedAt}`: the record the edit handler stores. */
  function Revised(b: Book, p: Payload, now: string): Book
    requires !NameMissing(p.name)
  {
    b.(name := p.name.value, year := p.year, author := p.author, summary := p.summary,
       publisher := p.publisher, pageCount := p.pageCount, readPage := p.readPage,
       finished := p.pageCount == p.readPage, reading := p.reading, updatedAt := now)
  }

  /** An accepted payload yields a well-formed new record with equal timestamps. */
  lemma NewBookWellFormed(p: Payload, id: string, now: string)
    requires Accepted(p)
    ensures var b := NewBook(p, id, now);
      WellFormed(b) && b.id == id && b.insertedAt == b.updatedAt == now &&
      b.finished == (b.pageCount == b.readPage) &&
      b.name == p.name.value && b.year == p.year && b.author == p.author && b.summary == p.summary &&
      b.publisher == p.publisher && b.pageCount == p.pageCount && b.readPage == p.readPage &&
      b.reading == p.reading
  {
  }

  /** An accepted payload yields a well-formed revision that keeps `id` and `insertedAt`. */
  lemma RevisedWellFormed(b: Book, p: Payload, now: string)
    requires Accepted(p)
    ensures var r := Revised(b, p, now);
      WellFormed(r) && r.id == b.id && r.insertedAt == b.insertedAt && r.updatedAt == now &&
      r.finished == (r.pageCount == r.readPage) &&
      r.name == p.name.value && r.year == p.year && r.author == p.author && r.summary == p.summary &&
      r.publisher == p.publisher && r.pageCount == p.pageCount && r.readPage == p.readPage &&
      r.reading == p.reading
  {
  }

  // ---------------------------------------------------------------------------
  // GET /books

  function Summarize(b: Book): Summary
  {
    Summary(b.id, b.name, b.publisher)
  }

  /** `books.map((book) => ({id, name, publisher}))`. */
  function Summaries(books: seq<Book>): seq<Summary>
  {
    seq(|books|, i requires 0 <= i < |books| => Summarize(books[i]))
  }

  /** The name filter: the lower-cased book name includes the lower-cased query. */
  predicate NameMatches(b: Book, name: string)
  {
    Includes(ToLower(b.name), ToLower(name))
  }

  function ByName(name: string): Book -> bool
  {
    (b: Book) => NameMatches(b, name)
  }

  function ByReading(reading: bool): Book -> bool
  {
    (b: Book) => b.reading == Some(reading)
  }

  function ByFinished(finished: bool): Book -> bool
  {
    (b: Book) => b.finished == finished
  }

  /** The listing condition stated at once: every supplied filter holds, omitted ones impose nothing. */
  predicate Passes(b: Book, q: Query)
  {
    (q.name.None? || NameMatches(b, q.name.value)) &&
    (q.reading.None? || b.reading == Some(q.reading.value)) &&
    (q.finished.None? || b.finished == q.finished.value)
  }

  function ByQuery(q: Query): Book -> bool
  {
    (b: Book) => Passes(b, q)
  }

  /** The three filters applied one after the other, as the handler chains them, then projected. */
  function ListedBooks(books: seq<Book>, q: Query): seq<Summary>
  {
    var byName := if q.name.Some? then Filter(books, ByName(q.name.value)) else books;
    var byReading := if q.reading.Some? then Filter(byName, ByReading(q.reading.value)) else byName;
    var byFinished := if q.finished.Some? then Filter(byReading, ByFinished(q.finished.value)) else byReading;
    Summaries(byFinished)
  }

  /** getAllBooksHandler: listing never fails. */
  function ListBooks(books: seq<Book>, q: Query): (r: Reply)
    ensures r.Success? && r.code == 200 && r.message.None? && r.data.BookList?
    ensures r.data.books == Summaries(Filter(books, ByQuery(q)))
  {
    ListedBooksSpec(books, q);
    Success(200, None, BookList(ListedBooks(books, q)))
  }

  /** Two callbacks that agree everywhere filter alike. */
  lemma {:induction false} FilterAgree(s: seq<Book>, p: Book -> bool, q: Book -> bool)
    requires forall b :: p(b) == q(b)
    ensures Filter(s, p) == Filter(s, q)
  {
    FilterTwice(s, p, (b: Book) => true, q);
    FilterKeepsAll(Filter(s, p), (b: Book) => true);
  }

  /** A filter applied only when its parameter is supplied is a filter by "not supplied, or accepted". */
  lemma OptionalFilter(s: seq<Book>, supplied: bool, p: Book -> bool, g: Book -> bool)
    requires forall b :: g(b) == (!supplied || p(b))
    ensures (if supplied then Filter(s, p) else s) == Filter(s, g)
  {
    if supplied {
      FilterAgree(s, p, g);
    } else {
      FilterKeepsAll(s, g);
    }
  }

  /** The chained filters keep exactly the books passing the combined condition, in store order. */
  lemma ListedBooksSpec(books: seq<Book>, q: Query)
    ensures ListedBooks(books, q) == Summaries(Filter(books, ByQuery(q)))
  {
    var p1 := (b: Book) => q.name.None? || NameMatches(b, q.name.value);
    var p2 := (b: Book) => q.reading.None? || b.reading == Some(q.reading.value);
    var p3 := (b: Book) => q.finished.None? || b.finished == q.finished.value;
    var p12 := (b: Book) => p1(b) && p2(b);
    var s1 := if q.name.Some? then Filter(books, ByName(q.name.value)) else books;
    var s2 := if q.reading.Some? then Filter(s1, ByReading(q.reading.value)) else s1;
    var s3 := if q.finished.Some? then Filter(s2, ByFinished(q.finished.value)) else s2;
    var name := if q.name.Some? then q.name.value else "";
    var reading := if q.reading.Some? then q.reading.value else false;
    var finished := if q.finished.Some? then q.finished.value else false;
    OptionalFilter(books, q.name.Some?, ByName(name), p1);
    OptionalFilter(s1, q.reading.Some?, ByReading(reading), p2);
    OptionalFilter(s2, q.finished.Some?, ByFinished(finished), p3);
    FilterTwice(books, p1, p2, p12);
    FilterTwice(books, p12, p3, ByQuery(q));
    assert ListedBooks(books, q) == Summaries(s3);
  }

  /** Projection keeps the subsequence relation. */
  lemma {:induction false} SummariesSubsequence(r: seq<Book>, s: seq<Book>)
    requires IsSubsequence(r, s)
    ensures IsSubsequence(Summaries(r), Summaries(s))
    decreases |s|
  {
    if r != [] {
      assert Summaries(s)[1..] == Summaries(s[1..]);
      assert Summaries(r)[1..] == Summaries(r[1..]);
      if r[0] == s[0] {
        SummariesSubsequence(r[1..], s[1..]);
      } else {
        SummariesSubsequence(r, s[1..]);
        SubsequenceSkip(Summaries(r), Summaries(s));
      }
    }
  }

  /**
   * The listing is, in store order, a subsequence of the store's projections;
   * a stored book is listed exactly when it passes every supplied filter.
   */
  lemma ListedBooksMembers(books: seq<Book>, q: Query)
    ensures IsSubsequence(ListedBooks(books, q), Summaries(books))
    ensures forall b :: b in books && Passes(b, q) ==> Summarize(b) in ListedBooks(books, q)
    ensures forall x :: x in ListedBooks(books, q) ==> exists b :: b in books && Passes(b, q) && x == Summarize(b)
  {
    ListedBooksSpec(books, q);
    var kept := Filter(books, ByQuery(q));
    SummariesSubsequence(kept, books);
    forall b | b in books && Passes(b, q)
      ensures Summarize(b) in ListedBooks(books, q)
    {
      var i :| 0 <= i < |kept| && kept[i] == b;
      assert Summaries(kept)[i] == Summarize(b);
    }
    forall x | x in ListedBooks(books, q)
      ensures exists b :: b in books && Passes(b, q) && x == Summarize(b)
    {
      var i :| 0 <= i < |Summaries(kept)| && Summaries(kept)[i] == x;
      assert kept[i] in kept;
    }
  }

  /** Without filters the whole store is listed, in order. */
  lemma ListWithoutFilters(books: seq<Book>)
    ensures ListedBooks(books, Query(None, None, None)) == Summaries(books)
  {
  }

  /** The name filter ignores case on both sides. */
  lemma NameMatchIgnoresCase(b: Book, name: string)
    ensures NameMatches(b, name) == NameMatches(b, ToLower(name))
    ensures NameMatches(b, name) == NameMatches(b.(name := ToLower(b.name)), name)
  {
    ToLowerIdempotent(name);
    ToLowerIdempotent(b.name);
  }

  /** Two queries that lower-case alike select the same books. */
  lemma NameMatchByLowerCase(b: Book, name1: string, name2: string)
    requires ToLower(name1) == ToLower(name2)
    ensures NameMatches(b, name1) == NameMatches(b, name2)
  {
  }

  /** `name=ABC` and `name=abc` select the same books. */
  lemma NameMatchCaseExample(b: Book)
    ensures NameMatches(b, "ABC") == NameMatches(b, "abc")
  {
    ToLowerExample();
  }

  // ---------------------------------------------------------------------------
  // GET /books/{bookId}

  /** getBookByIdHandler: `books.filter((b) => b.id === bookId)[0]`, or 404. */
  function GetBook(books: seq<Book>, bookId: string): (r: Reply)
    ensures r.Success? ==> r.code == 200 && r.data.BookDetail? && r.data.book in books
    ensures r.Fail? ==> r == Fail(404, BookNotFound)
  {
    var matches := Filter(books, WithId(bookId));
    if |matches| > 0 then Success(200, None, BookDetail(matches[0])) else Fail(404, BookNotFound)
  }

  /** Get answers with the first record carrying the id, and 404 exactly when there is none. */
  lemma GetBookSpec(books: seq<Book>, bookId: string)
    ensures HasId(books, bookId) ==>
      GetBook(books, bookId) == Success(200, None, BookDetail(books[FirstIndex(books, bookId)]))
    ensures !HasId(books, bookId) ==> GetBook(books, bookId) == Fail(404, BookNotFound)
  {
    var k := FirstIndex(books, bookId);
    if HasId(books, bookId) {
      FilterHead(books, WithId(bookId), k);
    } else {
      FilterNone(books, WithId(bookId));
    }
  }

  // ---------------------------------------------------------------------------
  // The shared store and the writing handlers

  /** The module-level `books` array the handlers share. */
  class BookStore {
    var books: seq<Book>

    ghost predicate Valid()
      reads this
    {
      StoreInvariant(books)
    }

    constructor ()
      ensures Valid() && books == []
    {
      books := [];
    }

    /**
     * addBookHandler. `id` is the fresh nanoid, assumed not to collide with a
     * stored id; `now` is the current ISO time.
     */
    method AddBook(p: Payload, id: string, now: string) returns (reply: Reply)
      requires Valid()
      requires !HasId(books, id)
      modifies this
      ensures Valid()
      ensures NameMissing(p.name) ==>
        reply == Fail(400, AddNameMissing) && books == old(books)
      ensures !NameMissing(p.name) && ReadPageExceeds(p.pageCount, p.readPage) ==>
        reply == Fail(400, AddReadPageTooLarge) && books == old(books)
      ensures Accepted(p) ==>
        reply == Success(201, Some(AddSucceeded), BookId(id)) &&
        |books| == |old(books)| + 1 && books[..|old(books)|] == old(books) &&
        books[|old(books)|] == NewBook(p, id, now)
      ensures Accepted(p) ==>
        var b := books[|old(books)|];
        b.id == id && b.finished == (b.pageCount == b.readPage) && b.insertedAt == b.updatedAt == now
    {
      if NameMissing(p.name) {
        return Fail(400, AddNameMissing);
      }
      if ReadPageExceeds(p.pageCount, p.readPage) {
        return Fail(400, AddReadPageTooLarge);
      }
      var book := NewBook(p, id, now);
      books := books + [book];
      assert books[|books| - 1] == book && WithId(id)(book);
      var isSuccess := |Filter(books, WithId(id))| > 0;
      if isSuccess {
        reply := Success(201, Some(AddSucceeded), BookId(id));
      } else {
        assert false;
        reply := Fail(500, AddFailed);
      }
    }

    /** editBookByIdHandler: both payload checks come before the lookup. */
    method EditBookById(bookId: string, p: Payload, now: string) returns (reply: Reply)
      requires Valid()
      modifies this
      ensures Valid()
      ensures NameMissing(p.name) ==>
        reply == Fail(400, EditNameMissing) && books == old(books)
      ensures !NameMissing(p.name) && ReadPageExceeds(p.pageCount, p.readPage) ==>
        reply == Fail(400, EditReadPageTooLarge) && books == old(books)
      ensures Accepted(p) && !HasId(old(books), bookId) ==>
        reply == Fail(404, EditIdNotFound) && books == old(books)
      ensures Accepted(p) && HasId(old(books), bookId) ==>
        var i := FirstIndex(old(books), bookId);
        reply == Success(200, Some(EditSucceeded), NoData) &&
        |books| == |old(books)| &&
        books[i] == Revised(old(books)[i], p, now) &&
        (forall j :: 0 <= j < |books| && j != i ==> books[j] == old(books)[j])
    {
      if NameMissing(p.name) {
        return Fail(400, EditNameMissing);
      }
      if ReadPageExceeds(p.pageCount, p.readPage) {
        return Fail(400, EditReadPageTooLarge);
      }
      var index := FindIndex(books, bookId);
      if index != -1 {
        RevisedWellFormed(books[index], p, now);
        books := books[index := Revised(books[index], p, now)];
        return Success(200, Some(EditSucceeded), NoData);
      }
      return Fail(404, EditIdNotFound);
    }

    /** deleteBookByIdHandler: `books.splice(index, 1)` on the found index. */
    method DeleteBookById(bookId: string) returns (reply: Reply)
      requires Valid()
      modifies this
      ensures Valid()
      ensures !HasId(old(books), bookId) ==>
        reply == Fail(404, DeleteIdNotFound) && books == old(books)
      ensures HasId(old(books), bookId) ==>
        var i := FirstIndex(old(books), bookId);
        reply == Success(200, Some(DeleteSucceeded), NoData) &&
        books == old(books)[..i] + old(books)[i + 1..]
    {
      var index := FindIndex(books, bookId);
      if index != -1 {
        books := books[..index] + books[index + 1..];
        return Success(200, Some(DeleteSucceeded), NoData);
      }
      return Fail(404, DeleteIdNotFound);
    }
  }

  // ---------------------------------------------------------------------------
  // Properties across operations

  /** After a delete the id is gone: a later get answers 404, and one record fewer is stored. */
  lemma DeleteThenGetNotFound(books: seq<Book>, bookId: string)
    requires StoreInvariant(books)
    requires HasId(books, bookId)
    ensures var i := FirstIndex(books, bookId);
      var rest := books[..i] + books[i + 1..];
      |rest| == |books| - 1 && !HasId(rest, bookId) && GetBook(rest, bookId) == Fail(404, BookNotFound)
  {
    var i := FirstIndex(books, bookId);
    var rest := books[..i] + books[i + 1..];
    forall j | 0 <= j < |rest|
      ensures rest[j].id != bookId
    {
      if j < i {
        assert rest[j] == books[j];
      } else {
        assert rest[j] == books[j + 1];
      }
    }
    GetBookSpec(rest, bookId);
  }

  /** A freshly added finished book is listed under `finished=true` and not under `finished=false`. */
  lemma AddedFinishedBookListed(books: seq<Book>, p: Payload, id: string, now: string)
    requires Accepted(p) && p.pageCount == p.readPage
    requires !HasId(books, id)
    ensures var b := NewBook(p, id, now);
      Summarize(b) in ListedBooks(books + [b], Query(None, None, Some(true))) &&
      Summarize(b) !in ListedBooks(books + [b], Query(None, None, Some(false)))
  {
    var b := NewBook(p, id, now);
    var after := books + [b];
    ListedBooksMembers(after, Query(None, None, Some(true)));
    ListedBooksMembers(after, Query(None, None, Some(false)));
  }

}
