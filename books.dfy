/**
 * The book record, the payload a client sends, and the in-memory store the
 * handlers share: an ordered sequence of books scanned by id.
 */
module Books {
  import opened Options

  /**
   * A stored book. Every property except `id`, `name`, `finished` and the two
   * timestamps is copied from the request payload as it came, so it may be absent.
   */
  datatype Book = Book(
    id: string,
    name: string,
    year: Option<int>,
    author: Option<string>,
    summary: Option<string>,
    publisher: Option<string>,
    pageCount: Option<int>,
    readPage: Option<int>,
    finished: bool,
    reading: Option<bool>,
    insertedAt: string,
    updatedAt: string)

  /** The JSON body of POST /books and PUT /books/{bookId}; a missing property is None. */
  datatype Payload = Payload(
    name: Option<string>,
    year: Option<int>,
    author: Option<string>,
    summary: Option<string>,
    publisher: Option<string>,
    pageCount: Option<int>,
    readPage: Option<int>,
    reading: Option<bool>)

  /** `!name`: the name is absent or the empty string. */
  predicate NameMissing(name: Option<string>)
  {
    name.None? || name.value == ""
  }

  /**
   * `readPage > pageCount`. A comparison with an absent (undefined) operand is
   * false in JavaScript, so only two present numbers can fail it.
   */
  predicate ReadPageExceeds(pageCount: Option<int>, readPage: Option<int>)
  {
    pageCount.Some? && readPage.Some? && readPage.value > pageCount.value
  }

  /** The payload passes both checks the add and edit handlers make. */
  predicate Accepted(p: Payload)
  {
    !NameMissing(p.name) && !ReadPageExceeds(p.pageCount, p.readPage)
  }

  /** What every write leaves behind in a record. */
  predicate WellFormed(b: Book)
  {
    b.name != "" &&
    b.finished == (b.pageCount == b.readPage) &&
    !ReadPageExceeds(b.pageCount, b.readPage)
  }

  /** Ids are pairwise distinct and every record is well formed. */
  predicate StoreInvariant(books: seq<Book>)
  {
    (forall i, j :: 0 <= i < j < |books| ==> books[i].id != books[j].id) &&
    (forall i :: 0 <= i < |books| ==> WellFormed(books[i]))
  }

  /** Some record carries this id. */
  predicate HasId(books: seq<Book>, id: string)
  {
    exists i :: 0 <= i < |books| && books[i].id == id
  }

  /** The callback `(book) => book.id === id`. */
  function WithId(id: string): Book -> bool
  {
    (b: Book) => b.id == id
  }

  /** The index of the first record with this id, or -1: what `books.findIndex` answers. */
  function FirstIndex(books: seq<Book>, id: string): (r: int)
    ensures -1 <= r < |books|
    ensures r == -1 <==> !HasId(books, id)
    ensures 0 <= r ==> books[r].id == id && forall j :: 0 <= j < r ==> books[j].id != id
  {
    if books == [] then -1
    else if books[0].id == id then 0
    else
      var k := FirstIndex(books[1..], id);
      assert forall j :: 1 <= j < |books| ==> books[j] == books[1..][j - 1];
      if k == -1 then -1 else k + 1
  }

  /** `books.findIndex((book) => book.id === id)`, a left-to-right scan. */
  method FindIndex(books: seq<Book>, id: string) returns (index: int)
    ensures index == FirstIndex(books, id)
  {
    var i := 0;
    while i < |books|
      invariant 0 <= i <= |books|
      invariant forall j :: 0 <= j < i ==> books[j].id != id
    {
      if books[i].id == id {
        return i;
      }
      i := i + 1;
    }
    return -1;
  }
}
