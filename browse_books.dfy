/** The catalog tab: a case-insensitive search over title and author, and one card per match. */
module BrowseBooks {
  import opened Wrappers
  import opened JsArray
  import opened JsString
  import opened Catalog
  import opened BookCard

  /** The search test: the lower-cased title or author includes the lower-cased query. */
  predicate MatchesQuery(book: Book, query: string) {
    Includes(ToLowerCase(book.title), ToLowerCase(query))
    || Includes(ToLowerCase(book.author), ToLowerCase(query))
  }

  function QueryTest(query: string): Book -> bool {
    book => MatchesQuery(book, query)
  }

  /** `filteredBooks`. */
  function FilteredBooks(books: seq<Book>, query: string): (r: seq<Book>)
    ensures |r| <= |books|
    ensures forall i :: 0 <= i < |r| ==> r[i] in books && MatchesQuery(r[i], query)
    ensures forall i :: 0 <= i < |books| && MatchesQuery(books[i], query) ==> books[i] in r
  {
    Filter(books, QueryTest(query))
  }

  /** A book matches exactly when the lower-cased query occurs somewhere in its lower-cased title or author. */
  lemma MatchesQueryIffOccurs(book: Book, query: string)
    ensures MatchesQuery(book, query) <==>
      (exists i :: OccursAt(ToLowerCase(book.title), ToLowerCase(query), i))
      || (exists i :: OccursAt(ToLowerCase(book.author), ToLowerCase(query), i))
  {
    IncludesIffOccurs(ToLowerCase(book.title), ToLowerCase(query));
    IncludesIffOccurs(ToLowerCase(book.author), ToLowerCase(query));
  }

  /** The results are the matching books, each as often as listed, in list order, and nothing else. */
  lemma SearchKeepsOrder(books: seq<Book>, query: string)
    ensures var r := FilteredBooks(books, query);
      IsSubsequence(r, books)
      && forall b :: multiset(r)[b] == if MatchesQuery(b, query) then multiset(books)[b] else 0
  {
    FilterIsSubsequence(books, QueryTest(query));
    FilterCounts(books, QueryTest(query));
  }

  /** An empty query keeps every book. */
  lemma EmptyQueryKeepsAll(books: seq<Book>)
    ensures FilteredBooks(books, "") == books
  {
    forall i | 0 <= i < |books|
      ensures QueryTest("")(books[i])
    {
      IncludesEmpty(ToLowerCase(books[i].title));
    }
    FilterKeepsAll(books, QueryTest(""));
  }

  /** Queries that lower-case alike give the same results. */
  lemma SearchIgnoresQueryCase(books: seq<Book>, query: string, query': string)
    requires ToLowerCase(query) == ToLowerCase(query')
    ensures FilteredBooks(books, query) == FilteredBooks(books, query')
  {
    FilterAgrees(books, QueryTest(query), QueryTest(query'));
  }

  /** In particular, typing the query in capitals changes nothing. */
  lemma UpperCaseQuerySameResults(books: seq<Book>, query: string)
    ensures FilteredBooks(books, ToUpperCase(query)) == FilteredBooks(books, query)
  {
    LowerCaseIgnoresCase(query);
    SearchIgnoresQueryCase(books, ToUpperCase(query), query);
  }

  /** Searching the results again with the same query returns them unchanged. */
  lemma SearchIdempotent(books: seq<Book>, query: string)
    ensures FilteredBooks(FilteredBooks(books, query), query) == FilteredBooks(books, query)
  {
    FilterIdempotent(books, QueryTest(query));
  }

  /** The card grid: the "No books found" message, or the cards. */
  datatype Listing = NoBooksFound | Cards(cards: seq<CardView>)

  /** The tab: whether the "connect your wallet" hint shows, and the grid. */
  datatype BrowseView = BrowseView(connectHint: bool, listing: Listing)

  /** The catalog tab's rendering for a list, a query and the connection state. */
  function View(books: seq<Book>, query: string, connected: bool): (v: BrowseView)
    ensures v.connectHint <==> !connected
    ensures v.listing.NoBooksFound? <==> forall i :: 0 <= i < |books| ==> !MatchesQuery(books[i], query)
  {
    var shown := FilteredBooks(books, query);
    assert |shown| > 0 ==> exists j :: 0 <= j < |books| && books[j] == shown[0] && MatchesQuery(books[j], query);
    BrowseView(
      !connected,
      if |shown| == 0 then NoBooksFound
      else Cards(seq(|shown|, i requires 0 <= i < |shown| => Card(shown[i], connected))))
  }

  /** "No books found" shows exactly when nothing matches; otherwise one card per match, in order. */
  lemma ViewListsMatches(books: seq<Book>, query: string, connected: bool)
    ensures var v := View(books, query, connected);
      var shown := FilteredBooks(books, query);
      v.connectHint == !connected
      && (v.listing.NoBooksFound? <==> shown == [])
      && (v.listing.Cards? ==>
            |v.listing.cards| == |shown|
            && forall i :: 0 <= i < |shown| ==> v.listing.cards[i] == Card(shown[i], connected))
  {
  }

  /**
   * A click on a card of the catalog tab borrows that card's book: on a
   * well-numbered list it is the book at index `id - 1`, it was available, a
   * wallet is connected, and the borrow handler marks it unavailable and
   * counts one more borrow.
   */
  lemma ClickBorrowsShownBook(books: seq<Book>, query: string, connected: bool, k: nat, id: int)
    requires WellNumbered(books)
    requires View(books, query, connected).listing.Cards?
    requires k < |View(books, query, connected).listing.cards|
    requires ClickRequest(View(books, query, connected).listing.cards[k]) == Some(id)
    ensures var book := FilteredBooks(books, query)[k];
      connected && book.isAvailable && book.id == id
      && 1 <= id <= |books| && books[id - 1] == book
      && !WithBorrowed(books, id)[id - 1].isAvailable
      && WithBorrowed(books, id)[id - 1].totalBorrows == book.totalBorrows + 1
  {
    var shown := FilteredBooks(books, query);
    var book := shown[k];
    ClickBorrowsThisBook(book, connected);
    assert book in books;
    var j :| 0 <= j < |books| && books[j] == book;
    assert id == j + 1;
  }
}
