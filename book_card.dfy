/** One catalog card: a status badge and a button whose offer depends on availability and the wallet connection. */
module BookCard {
  import opened Wrappers
  import opened Catalog

  /** The card's button: its caption, whether it is enabled, and the id its click hands to `onBorrow`. */
  datatype CardButton = CardButton(caption: string, enabled: bool, onClick: Option<int>)

  datatype CardView = CardView(badge: string, title: string, author: string, timesBorrowed: nat, button: CardButton)

  /** The card rendered for `book`. */
  function Card(book: Book, connected: bool): (v: CardView)
    ensures v.badge == (if book.isAvailable then "Available" else "Borrowed")
    ensures v.button.onClick.Some? <==> book.isAvailable
    ensures v.button.onClick.Some? ==> v.button.onClick.value == book.id
    ensures v.button.enabled <==> book.isAvailable && connected
    ensures !book.isAvailable ==> v.button.caption == "Currently Borrowed"
    ensures book.isAvailable ==> v.button.caption == (if connected then "Borrow Book" else "Connect Wallet to Borrow")
  {
    CardView(
      if book.isAvailable then "Available" else "Borrowed",
      book.title, book.author, book.totalBorrows,
      if book.isAvailable
      then CardButton(if connected then "Borrow Book" else "Connect Wallet to Borrow", connected, Some(book.id))
      else CardButton("Currently Borrowed", false, None))
  }

  /** The borrow request a click sends: none from a disabled button. */
  function ClickRequest(v: CardView): (r: Option<int>)
    ensures r.Some? ==> v.button.enabled && r == v.button.onClick
    ensures !v.button.enabled ==> r.None?
  {
    if v.button.enabled then v.button.onClick else None
  }

  /** A click borrows exactly this card's book, and only when it is available and a wallet is connected. */
  lemma ClickBorrowsThisBook(book: Book, connected: bool)
    ensures ClickRequest(Card(book, connected)) == if book.isAvailable && connected then Some(book.id) else None
  {
  }

  /** No book in the borrowed view could be borrowed again from its card. */
  lemma BorrowedBooksOfferNoBorrow(books: seq<Book>, connected: bool)
    ensures forall i :: 0 <= i < |BorrowedBooks(books)| ==> ClickRequest(Card(BorrowedBooks(books)[i], connected)).None?
  {
    BorrowedViewExact(books);
  }
}
