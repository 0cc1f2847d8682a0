# Book-lending client: a Dafny model of its state and view rules

This project models the logic of the browser client of a book-lending dApp on
the Stacks chain. The client lets a user connect a wallet, browse a catalog,
search it, add books, borrow them and return them. The lending rules live in
an external smart contract, which is not part of this model. What is modelled
is the client's own sequential logic:

- **Catalog** (`frontend/app/page.tsx`): the page's `books` list and
  `activeTab`. Three handlers replace the list: add, borrow and return. The
  "my borrows" list is derived from it. The class `Catalog.Home` holds the
  state. Its methods are specified by the pure functions `WithBookAdded`,
  `WithBorrowed`, `WithReturned` and `BorrowedBooks`, and lemmas prove
  properties of those functions. One of them replays any sequence of user
  actions: ids stay 1..n, books are never lost, reordered or renamed, and
  borrow counts never go down.
- **Wallet session** (`frontend/providers/stacks-provider.tsx`): the five
  fields `address`, `btcAddress`, `publicKey`, `connected` and `isLoading`.
  `connectWallet`, `disconnectWallet`, `loadUserData` and the mount-time
  check drive them. The class `StacksProvider.Provider` assigns the fields
  step by step, as the source does. Each method is specified by a step
  function on a `SessionState` value. The wallet library's answers
  (`connect()`, `getLocalStorage()`, `isConnected()`) are inputs: a value,
  or "throws". The requests the session sends to the wallet (`connect()`,
  `disconnect()`) are recorded in `walletCalls`. This makes "no wallet
  request" statable.
- **Search** (`BrowseBooks.tsx`): the case-insensitive title/author filter
  and the card grid with its "No books found" branch.
- **Add form** (`AddBookForm.tsx`): the submit guard, the reset, the
  `disabled` rule and the `maxLength` limits.
- **Book card** (`BookCard.tsx`): the badge, and which button a card offers.
- **Header** (`Header.tsx`): `truncateAddress` and the connected and
  disconnected controls.

The JavaScript built-ins the logic relies on are modelled once:
`Array.prototype.filter` and `find` in `JsArray`, and
`String.prototype.toLowerCase`, `includes` and `slice` in `JsString`.
`Filter` is characterised exactly. Its result is an in-order subsequence that
keeps every copy of each kept value and no copy of a dropped one, and it is the
only such subsequence (`FilterUnique`).

Three behaviours of the code are worth stating plainly, because a reader might
expect otherwise:

- The page's `handleBorrowBook` has no availability guard. Borrowing a book
  that is already out still adds one to its count (`BorrowEffect`).
- A failed `connect()` leaves every session field except `isLoading` as it
  was. It does not disconnect an existing session (`ConnectEffect`).
- The "already connected" short-circuit tests `connected && address`. A
  connected session whose address is the empty string connects again
  (`AlreadyConnected`).

## Model

| member | source | states |
|---|---|---|
| `Catalog.WithBookAdded` | frontend/app/page.tsx:50-61 | The new list is the old list followed by one more book. That book has id old length + 1 and is available. |
| `Catalog.WithBorrowed` | frontend/app/page.tsx:65-78 | Borrowing keeps the length and every book's id. It never lowers a borrow count, and a book with the given id ends up unavailable. |
| `Catalog.WithReturned` | frontend/app/page.tsx:80-87 | Returning keeps the length, every id and every borrow count. A book with the given id ends up available. |
| `Catalog.BorrowedBooks` | frontend/app/page.tsx:89 | Every book in the borrowed view is a listed book and unavailable. Every unavailable listed book is in the view. |
| `Catalog.InitialWellNumbered` | frontend/app/page.tsx:16-38 | The three initial books carry ids 1, 2, 3: each id is its position plus one. |
| `Catalog.AddAppendsOne` | frontend/app/page.tsx:50-61 | Adding yields one more book. The earlier books are unchanged and in order. The new last book has id old length + 1, the given title and author, is available and has 0 borrows. |
| `Catalog.AddKeepsNumbering` | frontend/app/page.tsx:50-61 | Adding keeps ids equal to 1..n. |
| `Catalog.BorrowEffect` | frontend/app/page.tsx:65-78 | Borrowing keeps length and order. Every book with that id becomes unavailable with exactly one more borrow, with no availability guard. Every other book is unchanged. |
| `Catalog.ReturnEffect` | frontend/app/page.tsx:80-87 | Returning marks the matching book available and keeps its borrow count. Every other book and the length are unchanged. |
| `Catalog.HandlersTouchOneBook` | frontend/app/page.tsx:65-87 | On a well-numbered list, borrow and return change only the book at index id-1, in the stated way. |
| `Catalog.UnknownIdChangesNothing` | frontend/app/page.tsx:65-87 | An id that no book carries leaves the list unchanged under borrow and under return. |
| `Catalog.BorrowReturnKeepNumbering` | frontend/app/page.tsx:65-87 | Borrow and return keep ids equal to 1..n. |
| `Catalog.BorrowedViewExact` | frontend/app/page.tsx:89 | The borrowed view is an in-order subsequence of the books. It holds no available book, and it holds every copy of every unavailable book. |
| `Catalog.BorrowedViewUnique` | frontend/app/page.tsx:89 | Any in-order selection that keeps exactly the unavailable books equals the borrowed view. |
| `Catalog.AddKeepsBorrowedView` | frontend/app/page.tsx:50-89 | Adding a book leaves the borrowed view unchanged. |
| `Catalog.HandlersMoveBookInView` | frontend/app/page.tsx:65-89 | After borrowing id, the book is in the borrowed view. After returning it, it is not. |
| `Catalog.ApplyExtends` | frontend/app/page.tsx:50-87 | Each handler keeps every existing book's position, id, title and author, never lowers a borrow count, and keeps ids 1..n. |
| `Catalog.ReplayKeepsInvariants` | frontend/app/page.tsx:16-87 | After any sequence of add/borrow/return actions, ids are 1..n and borrow counts have never decreased. No book was removed, moved or renamed. |
| `Catalog.Home.constructor` | frontend/app/page.tsx:16-39 | The page starts with the three initial books on the browse tab. |
| `Catalog.Home.HandleAddBook` | frontend/app/page.tsx:50-63 | The list becomes the old list plus the new book, and the tab becomes browse. |
| `Catalog.Home.HandleBorrowBook` | frontend/app/page.tsx:65-89 | The list becomes the mapped list. The tab is unchanged. A book at index id-1 is then in the page's borrowed view. |
| `Catalog.Home.HandleReturnBook` | frontend/app/page.tsx:80-89 | The list becomes the mapped list. The tab is unchanged. A book at index id-1 is then absent from the page's borrowed view. |
| `Catalog.Home.SetActiveTab` | frontend/app/page.tsx:104 | Changing the tab leaves the books unchanged. |
| `Catalog.Home.SubmitAddForm` | frontend/app/page.tsx:114-119 | A form submit the guard accepts adds exactly the form's title and author, switches to browse and clears the form. A rejected submit changes neither the page nor the form. |
| `JsArray.Filter` | frontend/app/page.tsx:89 | `filter` returns at most as many elements. Every element it returns is an input element that passes the test. Every input element that passes is returned. |
| `JsArray.FilterUnique` | frontend/components/BrowseBooks.tsx:20-24 | The filtered list is the only in-order subsequence that keeps every copy of the passing values and drops the rest. |
| `JsArray.Find` | frontend/providers/stacks-provider.tsx:97-102 | `find` returns nothing iff no element matches. Otherwise it returns the element at the first matching index. |
| `JsString.IncludesIffOccurs` | frontend/components/BrowseBooks.tsx:22-23 | `includes` holds iff the needle occurs at some position of the string. |
| `JsString.LowerCaseIgnoresCase` | frontend/components/BrowseBooks.tsx:22-23 | Lower-casing an upper-cased or a lower-cased string gives its lower-case form. |
| `JsString.Slice` | frontend/components/Header.tsx:18 | `slice` always returns a contiguous piece of the string. `slice(0, k)` is the first min(k, n) characters. |
| `JsString.SliceFrom` | frontend/components/Header.tsx:18 | `slice(-k)` is the last min(k, n) characters, and `slice(k)` for k >= 0 drops the first min(k, n). The result is always a contiguous piece of the string. |
| `JsString.SliceEnds` | frontend/components/Header.tsx:18 | On a string at least as long as both counts, `slice(0, h)` has exactly h characters and `slice(-t)` exactly t. |
| `StacksProvider.ConnectStep` | frontend/providers/stacks-provider.tsx:36-68 | Connecting sends a connect request iff the session is not already connected. When it does, loading ends. It never breaks `connected` iff an address is set. |
| `StacksProvider.DisconnectStep` | frontend/providers/stacks-provider.tsx:70-77 | Disconnecting always ends disconnected with no address, after one disconnect request. Loading is unchanged. |
| `StacksProvider.LoadStep` | frontend/providers/stacks-provider.tsx:79-124 | The restore either is a connect or sends no request. When it changes the session without a request, it connects with an address. |
| `StacksProvider.MountStep` | frontend/providers/stacks-provider.tsx:130-139 | Mounting either does nothing or runs the restore. It runs the restore only when `isConnected()` reports true. |
| `StacksProvider.ConnectShortCircuits` | frontend/providers/stacks-provider.tsx:38-41 | When connected with a non-empty address, connecting changes nothing and sends no request. |
| `StacksProvider.ConnectEffect` | frontend/providers/stacks-provider.tsx:43-67 | Otherwise there is one connect request and loading ends. A throw changes nothing else. A non-null entry at index 2 sets address, public key and connected together. A missing or null one leaves those three unchanged. The BTC address follows a non-null index-0 entry independently. |
| `StacksProvider.DisconnectClears` | frontend/providers/stacks-provider.tsx:70-77 | Disconnecting nulls all three addresses and clears connected, whatever the prior state. It keeps isLoading and is idempotent. |
| `StacksProvider.LoadWithNothingStored` | frontend/providers/stacks-provider.tsx:86-89 | With no persisted data the restore changes nothing and sends no request. |
| `StacksProvider.LoadRestores` | frontend/providers/stacks-provider.tsx:95-113 | If the first STX entry has an address, the restore takes its address and key and connects, with no wallet request. The BTC address is the first BTC entry's address, or null when there is none or it is empty. |
| `StacksProvider.LoadFallsBack` | frontend/providers/stacks-provider.tsx:95-123 | The restore is exactly a connect in these cases: a throwing read, missing or non-array addresses, no STX entry, or a first STX entry with an empty address. |
| `StacksProvider.MountRestoresOnlyWhenConnected` | frontend/providers/stacks-provider.tsx:130-139 | Mounting restores only when `isConnected()` reports true. Otherwise it does nothing. |
| `StacksProvider.StepsKeepInvariant` | frontend/providers/stacks-provider.tsx:36-124 | Every operation keeps `connected` iff an address is set, and ends with loading off. |
| `StacksProvider.RunKeepsInvariant` | frontend/providers/stacks-provider.tsx:30-142 | From any session satisfying the invariant, every sequence of connects, disconnects and mounts keeps `connected` iff an address is set. |
| `StacksProvider.Provider.constructor` | frontend/providers/stacks-provider.tsx:30-34 | The session starts with all fields null or false. |
| `StacksProvider.Provider.ConnectWallet` | frontend/providers/stacks-provider.tsx:36-68 | The imperative connect reaches exactly the state and requests of the connect step. |
| `StacksProvider.Provider.DisconnectWallet` | frontend/providers/stacks-provider.tsx:70-77 | The imperative disconnect reaches the disconnect step's state and sends one disconnect request. |
| `StacksProvider.Provider.LoadUserData` | frontend/providers/stacks-provider.tsx:79-124 | The imperative restore, fallback included, reaches exactly the state and requests of the load step. |
| `StacksProvider.Provider.CheckConnection` | frontend/providers/stacks-provider.tsx:130-139 | The mount check reaches exactly the state and requests of the mount step. |
| `BrowseBooks.FilteredBooks` | frontend/components/BrowseBooks.tsx:20-24 | The results are no longer than the list. A listed book is a result iff it matches the query. |
| `BrowseBooks.MatchesQueryIffOccurs` | frontend/components/BrowseBooks.tsx:21-23 | A book matches iff the lower-cased query occurs in its lower-cased title or its lower-cased author. |
| `BrowseBooks.SearchKeepsOrder` | frontend/components/BrowseBooks.tsx:20-24 | The results are an in-order subsequence with every copy of each matching book and no other book. |
| `BrowseBooks.EmptyQueryKeepsAll` | frontend/components/BrowseBooks.tsx:20-24 | An empty query returns every book. |
| `BrowseBooks.SearchIgnoresQueryCase` | frontend/components/BrowseBooks.tsx:22-23 | Two queries with the same lower-case form give the same results. |
| `BrowseBooks.UpperCaseQuerySameResults` | frontend/components/BrowseBooks.tsx:22-23 | An upper-cased query gives the same results as the original. |
| `BrowseBooks.SearchIdempotent` | frontend/components/BrowseBooks.tsx:20-24 | Filtering the results again with the same query returns them unchanged. |
| `BrowseBooks.View` | frontend/components/BrowseBooks.tsx:28-66 | The connect hint shows iff not connected. "No books found" shows iff no listed book matches the query. |
| `BrowseBooks.ViewListsMatches` | frontend/components/BrowseBooks.tsx:28-66 | The connect hint shows iff not connected. "No books found" shows iff nothing matches. Otherwise there is one card per result, in order. |
| `BrowseBooks.ClickBorrowsShownBook` | frontend/components/BrowseBooks.tsx:58-66 | A click on a catalog card borrows that card's book: available, wallet connected, at index id-1. The handler marks it unavailable with one more borrow. |
| `AddBookForm.DisabledIffRejected` | frontend/components/AddBookForm.tsx:73 | The submit button is disabled iff the submit guard would reject. |
| `AddBookForm.WithinMaxLength` | frontend/components/AddBookForm.tsx:39-60 | An input holds at most `maxLength` characters. It holds a prefix of what was entered, all of it when within the limit. |
| `AddBookForm.Form.constructor` | frontend/components/AddBookForm.tsx:13-14 | Both fields start empty. |
| `AddBookForm.Form.ChangeTitle` | frontend/components/AddBookForm.tsx:41-44 | The title takes the entered value, cut to 200. The author is unchanged. |
| `AddBookForm.Form.ChangeAuthor` | frontend/components/AddBookForm.tsx:55-58 | The author takes the entered value, cut to 100. The title is unchanged. |
| `AddBookForm.Form.HandleSubmit` | frontend/components/AddBookForm.tsx:16-22 | `onAdd` is called iff both fields are non-empty. It receives exactly the current title and author, and both fields are then cleared. Otherwise there is no call and the fields are unchanged. |
| `BookCard.Card` | frontend/components/BookCard.tsx:30-66 | The badge reads "Available" iff the book is available, else "Borrowed". A borrow action carrying this book's id exists iff the book is available. The button is enabled iff available and connected. The caption is "Borrow Book", "Connect Wallet to Borrow" or "Currently Borrowed". |
| `BookCard.ClickRequest` | frontend/components/BookCard.tsx:51-66 | A click sends a request only from an enabled button, and then it is the button's own id. A disabled button sends nothing. |
| `BookCard.ClickBorrowsThisBook` | frontend/components/BookCard.tsx:51-66 | A click requests the borrow of this book's id when the book is available and a wallet is connected, and sends nothing otherwise. |
| `BookCard.BorrowedBooksOfferNoBorrow` | frontend/components/BookCard.tsx:51-66 | No book of the borrowed view offers a borrow click. |
| `Header.TruncateAddress` | frontend/components/Header.tsx:17-19 | The result is the first min(6, n) characters, then "...", then the last min(4, n) characters. |
| `Header.TruncateLongAddress` | frontend/components/Header.tsx:18 | For an address of at least 10 characters the result has 13 characters: its first 6, "...", and its last 4. |
| `Header.TruncateShortAddress` | frontend/components/Header.tsx:18 | Clamping: under 6 characters the head is the whole address, and under 4 the tail is. The length is the two clamped parts plus 3. |
| `Header.HeaderControls` | frontend/components/Header.tsx:40-62 | Connect shows iff not connected. A shown address comes from a set address and has at least the three dots. A connected, non-empty address is always shown. |
| `Header.HeaderFollowsSession` | frontend/components/Header.tsx:40-62 | A composition the page does not make (it passes its own `userData` instead): if the header were fed the wallet session, Disconnect would show iff an address is set, a non-empty address would show truncated, and after a disconnect only Connect would show. |

## Left out

- Wallet library behaviour: `connect()`, `getLocalStorage()` and `isConnected()` are inputs (a value, or "throws"). A connect response's `addresses` may hold null slots, which the truthiness tests skip. A response without `addresses` raises a TypeError in the source that the same `catch` handles, so it is modelled as "throws".
- StacksProvider.LoadStep: null entries inside the persisted address arrays are not modelled. In the source, `find` throws on one only when it reaches it before a match, and the `catch` then falls back to connect.
- StacksProvider.ConnectStep: every wallet entry is taken to carry a string `address`. An entry without one would set `connected` with an undefined address in the source.
- StacksProvider.Provider.DisconnectWallet: assumes the wallet's `disconnect()` does not throw. A throw there would skip the field resets and reach the caller.
- async/await: `connectWallet` is modelled as one atomic step, so the `isLoading = true` window during the `await` is not observable. The unawaited fallback `connectWallet()` inside `loadUserData` runs to completion in place.
- React machinery is not modelled: stale closures, re-render timing and `useStacks` throwing outside a provider. Handler calls are taken as sequential.
- `console.log` and `console.error` output.
- JsString.ToLowerCase: covers ASCII letters only, not Unicode `toLowerCase`.
- AddBookForm.WithinMaxLength: the browser's `maxLength` is modelled as cutting the proposed value. It counts characters, not UTF-16 code units.
- Numbers: ids and borrow counts are unbounded integers, not JavaScript doubles.
- The deposit amount and its `toLocaleString` display, and the card's title, author and count text, which are rendered props only.
- The page's `userData` gate, its TODO `connectWallet` no-op and its Header/BrowseBooks props (which do not match those components' interfaces). The catalog handlers are modelled independently of that gating.
- `frontend/lib/stacks.ts` is not part of this model. It wraps foreign contract calls.
- `navbar.tsx`, `MyBorrows.tsx`, `TabNavigation.tsx`, `WelcomeScreen.tsx`, `Footer.tsx`, `not-found.tsx` and `next.config.ts` are not modelled. They hold routing and presentation only.
- The on-chain contract, catalog fetching from chain, confirmation dialogs, delayed refetch timers and cover images are not part of these files.
