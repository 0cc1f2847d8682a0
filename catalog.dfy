/**
 * The home page's book list: the `books` and `activeTab` state of the page
 * component, the three handlers that replace the list, and the borrowed view
 * derived from it.
 */
module Catalog {
  import opened Wrappers
  import opened JsArray
  import opened AddBookForm

  /** A book record as the page holds it (`"is-available"`, `"total-borrows"`). */
  datatype Book = Book(id: int, title: string, author: string, isAvailable: bool, totalBorrows: nat)

  /** The page's tabs: "browse", "add" and "myborrow". */
  datatype Tab = BrowseTab | AddTab | MyBorrowTab

  /** The three books the page starts with. */
  function InitialBooks(): seq<Book> {
    [ Book(1, "The Bitcoin Standard", "Saifedean Ammous", true, 5),
      Book(2, "Mastering Bitcoin", "Andreas Antonopoulos", false, 12),
      Book(3, "The Blocksize War", "Jonathan Bier", true, 3) ]
  }

  /** Each book's id is its position plus one: the ids are exactly 1..n. */
  ghost predicate WellNumbered(books: seq<Book>) {
    forall i :: 0 <= i < |books| ==> books[i].id == i + 1
  }

  /** The list after `handleAddBook(title, author)`: a fresh available book with id `length + 1` at the end. */
  function WithBookAdded(books: seq<Book>, title: string, author: string): (r: seq<Book>)
    ensures |r| == |books| + 1 && r[..|books|] == books
    ensures r[|books|].id == |books| + 1 && r[|books|].isAvailable
  {
    books + [Book(|books| + 1, title, author, true, 0)]
  }

  /** One element of the `map` in `handleBorrowBook(id)`. */
  function BorrowIfMatches(book: Book, id: int): Book {
    if book.id == id then book.(isAvailable := false, totalBorrows := book.totalBorrows + 1) else book
  }

  /** The list after `handleBorrowBook(id)`. */
  function WithBorrowed(books: seq<Book>, id: int): (r: seq<Book>)
    ensures |r| == |books|
    ensures forall i :: 0 <= i < |r| ==> r[i].id == books[i].id && r[i].totalBorrows >= books[i].totalBorrows
    ensures forall i :: 0 <= i < |r| && books[i].id == id ==> !r[i].isAvailable
  {
    seq(|books|, i requires 0 <= i < |books| => BorrowIfMatches(books[i], id))
  }

  /** One element of the `map` in `handleReturnBook(id)`. */
  function ReturnIfMatches(book: Book, id: int): Book {
    if book.id == id then book.(isAvailable := true) else book
  }

  /** The list after `handleReturnBook(id)`. */
  function WithReturned(books: seq<Book>, id: int): (r: seq<Book>)
    ensures |r| == |books|
    ensures forall i :: 0 <= i < |r| ==> r[i].id == books[i].id && r[i].totalBorrows == books[i].totalBorrows
    ensures forall i :: 0 <= i < |r| && books[i].id == id ==> r[i].isAvailable
  {
    seq(|books|, i requires 0 <= i < |books| => ReturnIfMatches(books[i], id))
  }

  predicate OnLoan(book: Book) {
    !book.isAvailable
  }

  /** `borrowedBooks`: the books not available, in list order. */
  function BorrowedBooks(books: seq<Book>): (r: seq<Book>)
    ensures forall i :: 0 <= i < |r| ==> !r[i].isAvailable && r[i] in books
    ensures forall i :: 0 <= i < |books| && !books[i].isAvailable ==> books[i] in r
  {
    Filter(books, OnLoan)
  }

  /** The initial list is numbered 1..3. */
  lemma InitialWellNumbered()
    ensures WellNumbered(InitialBooks())
  {
  }

  /** Adding appends exactly one book and leaves the earlier ones, in order, as they were. */
  lemma AddAppendsOne(books: seq<Book>, title: string, author: string)
    ensures var r := WithBookAdded(books, title, author);
      |r| == |books| + 1 && r[..|books|] == books
      && r[|books|].id == |books| + 1 && r[|books|].title == title && r[|books|].author == author
      && r[|books|].isAvailable && r[|books|].totalBorrows == 0
  {
  }

  lemma AddKeepsNumbering(books: seq<Book>, title: string, author: string)
    requires WellNumbered(books)
    ensures WellNumbered(WithBookAdded(books, title, author))
  {
  }

  /**
   * Borrowing marks every book with that id unavailable and adds exactly one to
   * its borrow count, whether or not it was available; the other books, the
   * length and the order stay.
   */
  lemma BorrowEffect(books: seq<Book>, id: int)
    ensures var r := WithBorrowed(books, id);
      |r| == |books|
      && (forall i :: 0 <= i < |books| && books[i].id == id ==>
            r[i].id == id && r[i].title == books[i].title && r[i].author == books[i].author
            && !r[i].isAvailable && r[i].totalBorrows == books[i].totalBorrows + 1)
      && (forall i :: 0 <= i < |books| && books[i].id != id ==> r[i] == books[i])
  {
  }

  /** Returning marks every book with that id available; borrow counts and other books stay. */
  lemma ReturnEffect(books: seq<Book>, id: int)
    ensures var r := WithReturned(books, id);
      |r| == |books|
      && (forall i :: 0 <= i < |books| && books[i].id == id ==>
            r[i] == books[i].(isAvailable := true))
      && (forall i :: 0 <= i < |books| && books[i].id != id ==> r[i] == books[i])
  {
  }

  /** On a well-numbered list, a borrow or return touches the book at index `id - 1` and no other. */
  lemma HandlersTouchOneBook(books: seq<Book>, id: int)
    requires WellNumbered(books)
    ensures forall i :: 0 <= i < |books| && i != id - 1 ==>
      WithBorrowed(books, id)[i] == books[i] && WithReturned(books, id)[i] == books[i]
    ensures 1 <= id <= |books| ==>
      WithBorrowed(books, id)[id - 1] == books[id - 1].(isAvailable := false, totalBorrows := books[id - 1].totalBorrows + 1)
      && WithReturned(books, id)[id - 1] == books[id - 1].(isAvailable := true)
  {
  }

  /** An id no book carries leaves the list unchanged. */
  lemma UnknownIdChangesNothing(books: seq<Book>, id: int)
    requires forall i :: 0 <= i < |books| ==> books[i].id != id
    ensures WithBorrowed(books, id) == books
    ensures WithReturned(books, id) == books
  {
  }

  lemma BorrowReturnKeepNumbering(books: seq<Book>, id: int)
    requires WellNumbered(books)
    ensures WellNumbered(WithBorrowed(books, id))
    ensures WellNumbered(WithReturned(books, id))
  {
  }

  /** The borrowed view holds only books on loan, and every book on loan, in list order. */
  lemma BorrowedViewExact(books: seq<Book>)
    ensures var v := BorrowedBooks(books);
      IsSubsequence(v, books)
      && (forall i :: 0 <= i < |v| ==> !v[i].isAvailable)
      && (forall b :: multiset(v)[b] == if b.isAvailable then 0 else multiset(books)[b])
  {
    FilterIsSubsequence(books, OnLoan);
    FilterCounts(books, OnLoan);
  }

  /** Any in-order selection of the books that keeps exactly the ones on loan is the borrowed view. */
  lemma BorrowedViewUnique(v: seq<Book>, books: seq<Book>)
    requires IsSubsequence(v, books)
    requires forall b :: multiset(v)[b] == if b.isAvailable then 0 else multiset(books)[b]
    ensures v == BorrowedBooks(books)
  {
    FilterUnique(v, books, OnLoan);
  }

  /** A newly added book is available, so adding leaves the borrowed view as it was. */
  lemma AddKeepsBorrowedView(books: seq<Book>, title: string, author: string)
    ensures BorrowedBooks(WithBookAdded(books, title, author)) == BorrowedBooks(books)
  {
    var added := Book(|books| + 1, title, author, true, 0);
    FilterAppend(books, [added], OnLoan);
    assert Filter([added], OnLoan) == [];
  }

  /** After borrowing a listed id the book shows in the borrowed view; after returning it, it does not. */
  lemma HandlersMoveBookInView(books: seq<Book>, id: int)
    requires WellNumbered(books)
    requires 1 <= id <= |books|
    ensures WithBorrowed(books, id)[id - 1] in BorrowedBooks(WithBorrowed(books, id))
    ensures WithReturned(books, id)[id - 1] !in BorrowedBooks(WithReturned(books, id))
  {
    var r := WithBorrowed(books, id);
    assert !r[id - 1].isAvailable;
  }

  /** A user action on the page. */
  datatype Action = AddBook(title: string, author: string) | BorrowBook(id: int) | ReturnBook(id: int)

  function Apply(books: seq<Book>, action: Action): seq<Book> {
    match action
    case AddBook(title, author) => WithBookAdded(books, title, author)
    case BorrowBook(id) => WithBorrowed(books, id)
    case ReturnBook(id) => WithReturned(books, id)
  }

  /** The list after the actions, applied in turn. */
  function Replay(books: seq<Book>, actions: seq<Action>): seq<Book>
    decreases |actions|
  {
    if actions == [] then books else Replay(Apply(books, actions[0]), actions[1..])
  }

  /**
   * `after` keeps every book of `before` in place under the same id, title and
   * author, with a borrow count no lower, and may have more books at the end.
   */
  ghost predicate Extends(before: seq<Book>, after: seq<Book>) {
    |before| <= |after|
    && forall i :: 0 <= i < |before| ==>
         after[i].id == before[i].id && after[i].title == before[i].title
         && after[i].author == before[i].author && after[i].totalBorrows >= before[i].totalBorrows
  }

  lemma ApplyExtends(books: seq<Book>, action: Action)
    ensures Extends(books, Apply(books, action))
    ensures WellNumbered(books) ==> WellNumbered(Apply(books, action))
  {
  }

  /**
   * Whatever the user does, the ids stay 1..n, books are never removed,
   * reordered or renamed, and no borrow count ever goes down.
   */
  lemma {:induction false} ReplayKeepsInvariants(books: seq<Book>, actions: seq<Action>)
    requires WellNumbered(books)
    ensures WellNumbered(Replay(books, actions))
    ensures Extends(books, Replay(books, actions))
    decreases |actions|
  {
    if actions != [] {
      var next := Apply(books, actions[0]);
      ApplyExtends(books, actions[0]);
      ReplayKeepsInvariants(next, actions[1..]);
    }
  }

  /** The page component's state. */
  class Home {
    var books: seq<Book>
    var activeTab: Tab

    ghost predicate Valid()
      reads this
    {
      WellNumbered(books)
    }

    /** The initial `useState` values. */
    constructor ()
      ensures books == InitialBooks() && activeTab == BrowseTab
      ensures Valid()
    {
      books := InitialBooks();
      activeTab := BrowseTab;
    }

    /** `handleAddBook`: appends the new book and switches to the browse tab. */
    method HandleAddBook(title: string, author: string)
      requires Valid()
      modifies this
      ensures books == WithBookAdded(old(books), title, author)
      ensures activeTab == BrowseTab
      ensures Valid()
    {
      books := books + [Book(|books| + 1, title, author, true, 0)];
      activeTab := BrowseTab;
    }

    /** `handleBorrowBook`: the tab stays; a listed book moves into the borrowed view. */
    method HandleBorrowBook(id: int)
      requires Valid()
      modifies this
      ensures books == WithBorrowed(old(books), id)
      ensures activeTab == old(activeTab)
      ensures Valid()
      ensures 1 <= id <= |books| ==> books[id - 1] in BorrowedView()
    {
      books := WithBorrowed(books, id);
      BorrowReturnKeepNumbering(old(books), id);
      if 1 <= id <= |books| {
        HandlersMoveBookInView(old(books), id);
      }
    }

    /** `handleReturnBook`: the tab stays; a listed book leaves the borrowed view. */
    method HandleReturnBook(id: int)
      requires Valid()
      modifies this
      ensures books == WithReturned(old(books), id)
      ensures activeTab == old(activeTab)
      ensures Valid()
      ensures 1 <= id <= |books| ==> books[id - 1] !in BorrowedView()
    {
      books := WithReturned(books, id);
      BorrowReturnKeepNumbering(old(books), id);
      if 1 <= id <= |books| {
        HandlersMoveBookInView(old(books), id);
      }
    }

    /** The tab bar's `onTabChange`. */
    method SetActiveTab(tab: Tab)
      modifies this
      ensures activeTab == tab && books == old(books)
    {
      activeTab := tab;
    }

    /** The `borrowedBooks` handed to the "my borrows" tab. */
    function BorrowedView(): seq<Book>
      reads this
    {
      BorrowedBooks(books)
    }

    /**
     * The add form wired to `handleAddBook`: a rejected submit changes neither
     * the form nor the page; an accepted one adds the book and clears the form.
     */
    method SubmitAddForm(form: Form)
      requires Valid()
      modifies this, form
      ensures Accepts(old(form.title), old(form.author)) ==>
        books == WithBookAdded(old(books), old(form.title), old(form.author))
        && activeTab == BrowseTab && form.title == "" && form.author == ""
      ensures !Accepts(old(form.title), old(form.author)) ==>
        books == old(books) && activeTab == old(activeTab)
        && form.title == old(form.title) && form.author == old(form.author)
      ensures Valid()
    {
      var sent := form.HandleSubmit();
      if sent.Some? {
        HandleAddBook(sent.value.title, sent.value.author);
      }
    }
  }
}
