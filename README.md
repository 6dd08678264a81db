# A model of the bookstore's checkout, cart, catalog and account core

This project models the core of a small online bookstore in Dafny. The bookstore is a REST API over MySQL plus a React client. The model covers:

- **Checkout** (`backend/controller/orderController.js`). `buyNow` buys some copies of one book. `buyCart` buys every line of a user's cart. Each runs inside a database transaction: read, check the stock, decrement it, delete cart lines, then record an order and its items. Failures while recording the order are swallowed.
- **Cart handlers** (`backend/controller/cartController.js`): add to cart, update a line's quantity, delete a line.
- **Catalog handlers** (`backend/controller/booksController.js`): add a book, edit a book, look books up by title or by author.
- **Account handlers** (`backend/controller/userController.js`): register and log in.
- **Identifying the user**: the two `resolveUserId` functions. Each looks at six request fields in a fixed order, then at an `Authorization: Bearer` header.
- **Input helpers** (`backend/utils/safe.js`).
- **The order-history page** (`frontend/src/pages/OrderHistory.jsx`): its search filter, its pages of eight, the Prev/Next buttons and the guard in front of a reorder.
- **The cart page** (`frontend/src/pages/Cart.jsx`): the total it shows, and the list it keeps after a delete, a quantity change, a typed quantity or "buy all".

How it is organised:

- `tables.dfy` holds the database tables as values (`Tables.Db`) and the statements the handlers send, as pure functions. Prices are integer cents.
- `store.dfy` holds the handlers as methods of a class `Store.BookStore`. Its fields are the tables. Its invariant `Valid` states the schema's keys and constraints: unique e-mail, one cart line per (user, book), foreign keys, and increasing order ids.
- Each checkout method is proved against a function of the old tables: `BuyNowOutcome` and `BuyCartOutcome`. The lemmas beside those functions state what a checkout does.
- The loops of `buyCart` are value methods (`FindShort`, `DebitAll`, `RecordOrderRows`), each proved against a specification function.
- Database errors are a parameter `fails` that says which statements the database rejects.
- JWT verification and bcrypt are parameters too.

## Where the code falls short of its own intent

The model follows the code. In six places the code's own text shows an intent that the code does not meet:

1. **Quantity 0 in `buyNow`.** The check `quantity <= 0` (orderController.js:51) is meant to reject 0. It never sees a numeric 0, the kind the book card sends (BooksCard.jsx:32, 62): line 48 has already turned that 0 into 1 with `req.body.quantity || 1`. So among numeric quantities only negative ones are rejected (`Store.RequestedQuantity`). A string "0" is truthy, passes line 48 unchanged, becomes 0 through `Number()` and is rejected; string quantities are not modelled (see "Left out").
2. **Order records.** Each checkout opens a transaction (orderController.js:57-58, 103-104) and rolls it back on any error (84-87, 146-149). That is an all-or-nothing intent. The order inserts, though, sit in an inner `try` that swallows errors (73-80, 134-142). So stock and cart changes are committed even when no order is recorded, and items written before a failure stay (`Tables.RecordOrder`).
3. **The schema cannot hold orders.** The checkouts insert into `orders (user_id, total, …)` and into `order_items` (orderController.js:75-77, 135-138). The schema creates `orders` with a `total_price` column and no `total` column, and never creates `order_items` (schema.js:43-52). So with the schema as created, every order insert fails and no order is ever recorded (`Tables.RecordOrderUnderSchema`).
4. **Cart quantities below 1.** Quantities are meant to be 1 or more: the column defaults to 1 (schema.js:35), the cart page ignores a new quantity below 1 (Cart.jsx:69), and its input has `min="1"` (Cart.jsx:155). But `updateCart` checks only that a quantity was sent (cartController.js:102) and stores any value, 0 and negatives included. `buyCart`'s check `stock < quantity` (orderController.js:120) lets a negative line through. Such a purchase raises the book's stock and reports a negative total (`Store.BuyCartNegativeLine`).
5. **Zero-quantity lines on the cart page.** The page asks the user to confirm `totalPrice` as the amount of the purchase (Cart.jsx:107). It counts a quantity of 0 as 1 (`b.quantity || 1`, Cart.jsx:43), while `buyCart` multiplies by the stored 0 (orderController.js:129). For such a line the two totals differ (`CartPage.ZeroQuantityLine`). For every other cart the page's total is what `buyCart` charges (`CartPage.TotalPriceIsCheckoutTotal`).
6. **`sanitizeString` can end in white space.** It trims the string (safe.js:17) so that no surrounding white space is kept, then cuts it to the maximum length (safe.js:18). A cut string can end in white space (`Safe.SanitizeMayEndInSpace`).

## Model

| member | source | states |
|---|---|---|
| Safe.ToInt | backend/utils/safe.js:4-8 | null for undefined/null; otherwise a value exactly when `Number(v)` is an integer, and that value is `Number(v)` |
| Safe.ToPositiveInt | backend/utils/safe.js:10-13 | the value of `toInt` when it is positive, null when `toInt` is null, 0 or negative |
| Safe.Trim | backend/utils/safe.js:17 | `trim` never lengthens a string and leaves a string without white space unchanged |
| Safe.TrimStart | backend/utils/safe.js:17 | the result is a suffix of the input; everything removed is white space; the result does not start with white space |
| Safe.TrimEnd | backend/utils/safe.js:17 | the result is a prefix of the input; everything removed is white space; the result does not end with white space |
| Safe.TrimShape | backend/utils/safe.js:17 | `trim` keeps one contiguous stretch of the input, removes only white space at both ends, and leaves none at either end |
| Safe.TrimIdempotent | backend/utils/safe.js:17 | trimming twice is trimming once |
| Safe.SanitizeString | backend/utils/safe.js:15-19 | "" for undefined/null; otherwise a prefix of the trimmed string, at most `maxLen` long; the whole trimmed string when it fits, exactly `maxLen` characters when it does not |
| Safe.SanitizeMayEndInSpace | backend/utils/safe.js:17-18 | truncation after trimming can leave trailing white space: "a b" cut to 2 is "a " |
| Safe.PositiveId | backend/utils/safe.js:23-26 | an element is kept exactly when `Number(x)` is a positive integer, and is kept as that integer |
| Safe.NumericIds | backend/utils/safe.js:22-28 | the map-then-filter keeps only positive integers and never lengthens the list |
| Safe.FilterNumericIds | backend/utils/safe.js:21-29 | [] for a non-array; otherwise positive integers only, no more than the array had |
| Safe.FilterNumericIdsOrder | backend/utils/safe.js:22-28 | filtering a concatenation is the concatenation of the filtered parts, so the kept ids keep the input's order |
| Safe.FilterNumericIdsSingle | backend/utils/safe.js:22-28 | a one-element array gives its positive integer, or nothing |
| Safe.JoinMarks | backend/utils/safe.js:31 | n marks joined by "," are 2n-1 characters alternating '?' and ',' |
| Safe.Placeholders | backend/utils/safe.js:31 | "" for a non-array or an empty array; otherwise "?,?,…,?" with one mark per element |
| Identity.ExplicitPrecedence | backend/controller/orderController.js:8-13 | the explicit chain returns the value at the first truthy position of body.userId, body.user_id, params.user_id, query.userId, query.user_id, user.userId, and nothing when all six are falsy |
| Identity.ExplicitUserId | backend/controller/orderController.js:8-13 | a found value is truthy and is one of the six explicit fields; nothing is found exactly when all six are falsy |
| Identity.BearerToken | backend/controller/orderController.js:16-20 | a token is found only in a non-empty string header, and it contains no space |
| Identity.OrderTokenUserId | backend/controller/orderController.js:22-29 | the token gives the `userId` claim exactly when that claim is truthy, and null otherwise |
| Identity.CartTokenUserId | backend/controller/cartController.js:22-25 | the token gives the first truthy claim among userId, user_id, id and sub, in that order, and null when all four are falsy |
| Identity.Split | backend/controller/orderController.js:18 | `split(" ")` gives at least one piece, and no piece contains the separator |
| Identity.SplitJoin | backend/controller/orderController.js:18 | joining the pieces of a split with the separator gives the string back |
| Identity.BearerTokenShape | backend/controller/orderController.js:16-20 | a token is found exactly when the header is the string "Bearer " followed by a token that has no space |
| Identity.OrderResolveUserId | backend/controller/orderController.js:6-38 | the result is truthy or null; which value (explicit field, the token's `userId` claim, or null for no header, a malformed header or a rejected token) is stated by `Identity.ResolvePrecedence` |
| Identity.CartResolveUserId | backend/controller/cartController.js:6-34 | the result is truthy or null; which value (explicit field, the first truthy claim among userId, user_id, id and sub, or null) is stated by `Identity.ResolvePrecedence` |
| Identity.ClaimPrecedence | backend/controller/cartController.js:25 | the `a || b || c || d || null` chain yields the first truthy of the four, or null |
| Identity.ResolvePrecedence | backend/controller/cartController.js:8-33 | both resolvers return the first truthy explicit field whatever the token; with none, and no well-formed Bearer header, both return null; with none and a Bearer token, a rejected token gives null and accepted claims give `OrderTokenUserId` / `CartTokenUserId` of them |
| Identity.ResolversAgreeOnUserIdClaim | backend/controller/cartController.js:22-25 | whenever the order resolver finds a user, the cart resolver finds the same one |
| Tables.Consistent | backend/model/schema.js:7-52 | in consistent tables the next book and user ids are unused, and no (user, book) pair has two cart lines |
| Tables.Incremented | backend/controller/cartController.js:56-59 | the increment keeps every line; lines of that (user, book) gain one, all others stay |
| Tables.WithQuantity | backend/controller/cartController.js:109-111 | the UPDATE keeps every line; lines of that (user, book) get the quantity, all others stay |
| Tables.Decrement | backend/controller/orderController.js:70 | the stock update keeps every book; that book loses exactly the quantity in its stock and nothing else; every other book stays |
| Tables.Debit | backend/controller/orderController.js:127-130 | the updates keep every book and change nothing of any book but its stock |
| Tables.RowsTotal | backend/controller/orderController.js:126-130 | with no negative price or quantity the total is not negative |
| Tables.InsertUserConsistent | backend/model/schema.js:7-13 | inserting a user under the next id with an unused e-mail keeps the tables consistent, and that id is fresh |
| Tables.WithoutLine | backend/controller/cartController.js:126-127 | after the DELETE the (user, book) line is gone |
| Tables.WithoutUser | backend/controller/orderController.js:132 | after the DELETE no line of the user is left |
| Tables.KeepKeysUnique | backend/model/schema.js:38 | deleting cart lines keeps at most one line per (user, book) |
| Tables.WithoutLineIdempotent | backend/controller/cartController.js:126-127 | deleting a cart line a second time changes nothing |
| Tables.WithoutUserKeepsOthers | backend/controller/orderController.js:132 | deleting one user's cart leaves every other user's lines as they were, in order, and none of that user's |
| Tables.WithoutLineKeepsOthers | backend/controller/cartController.js:126-127 | deleting one (user, book) line leaves the lines of every other (user, book) as they were |
| Tables.AddToCartQuantities | backend/controller/cartController.js:55-62 | both branches of addToCart raise the (user, book) quantity by exactly one: an increment of an existing line, or a new line with the default quantity 1; every other quantity stays |
| Tables.UpdateCartQuantities | backend/controller/cartController.js:109-111 | the (user, book) quantity becomes the given value when the line exists and stays absent when it does not; every other quantity stays |
| Tables.AddKeepsKeysUnique | backend/model/schema.js:38 | incrementing a line, or inserting a line that was not there, keeps one line per (user, book) |
| Tables.WithQuantityKeepsKeys | backend/controller/cartController.js:109-111 | setting a quantity keeps the keys unique and changes no other line |
| Tables.WithTitle | backend/controller/booksController.js:42-43 | exactly the books with that title, unchanged |
| Tables.ByAuthor | backend/controller/booksController.js:59-60 | exactly the books by that author, unchanged |
| Tables.GetBookByTitle | backend/controller/booksController.js:39-53 | "No book found" exactly when no book has the title; otherwise exactly the books with it, unchanged; there is no other answer |
| Tables.GetBooksByAuthor | backend/controller/booksController.js:56-70 | "No book found" exactly when no book is by the author; otherwise exactly that author's books, unchanged; there is no other answer |
| Tables.DebitConsistent | backend/controller/orderController.js:70-71 | stock changes that keep the set of books, plus cart deletions, keep the tables consistent |
| Tables.RecordOrder | backend/controller/orderController.js:134-142 | a failed order insert leaves everything; otherwise one order under the next id with the total, then one item per row at the row's price, stopping at the first failing insert, so the items grow by exactly the number of inserts that succeeded; books, cart and users untouched |
| Tables.RecordOrderConsistent | backend/controller/orderController.js:134-142 | recording an order keeps the tables consistent |
| Tables.RecordOrderUnderSchema | backend/model/schema.js:43-52 | with the schema as created (no `total` column, no `order_items` table), recording an order changes nothing |
| Tables.CartRows | backend/controller/orderController.js:106-112 | the join gives at most one row per cart line, each carrying its book's current price and stock |
| Tables.FirstShort | backend/controller/orderController.js:119-124 | the first row whose stock is below its quantity, with every earlier row covered; none when every row is covered |
| Tables.ShortestFirst | backend/controller/orderController.js:119-124 | a short row preceded only by covered rows is the one the check reports |
| Tables.ItemsFor | backend/controller/orderController.js:137-139 | one order item per row, in row order, with the row's book, quantity and price |
| Tables.RecordedItems | backend/controller/orderController.js:137-139 | the inserts before the count all succeed, and the one at the count (if any) fails |
| Tables.RecordedItemsAt | backend/controller/orderController.js:137-139 | a loop that stops at the first failing insert has written RecordedItems items |
| Tables.ItemsAddUp | backend/controller/orderController.js:126-139 | the items recorded for the rows add up to the total buyCart accumulates |
| Tables.DebitStock | backend/controller/orderController.js:127-130 | the stock updates keep every book and change only stock, each book losing the total quantity the rows take from it |
| Tables.CartRowsOrdered | backend/controller/orderController.js:106-112 | the join takes from each book exactly the quantity of the user's lines for it |
| Tables.QuantityOfLine | backend/model/schema.js:38 | with one line per (user, book), the quantity for a book is that line's, or 0 without a line |
| Tables.CartRowsFromLines | backend/controller/orderController.js:106-112 | every joined row comes from one of the user's lines, with its quantity |
| Tables.CartRowsInclude | backend/controller/orderController.js:106-112 | every line of the user whose book exists yields a joined row with its quantity |
| Tables.BuyCartStock | backend/controller/orderController.js:119-130 | after the checks pass, each book loses exactly the user's cart quantity for it, books not in the cart keep theirs, and no bought book goes below zero |
| Store.RequestedQuantity | backend/controller/orderController.js:48 | a missing or zero quantity means 1, any other value is kept, and only a negative one is not positive |
| Store.RegistrationOf | backend/controller/userController.js:10-12 | the name and e-mail are at most 100 characters and prefixes of the trimmed inputs, the e-mail taken from `useremail` or else `email`; a non-empty `userpassword` is the password |
| Store.LoginOf | backend/controller/userController.js:38-39 | no name; the e-mail is at most 100 characters and a prefix of the trimmed input; a non-empty `userpassword` is the password |
| Store.Acceptable | backend/controller/userController.js:14-16 | input is accepted exactly when the name and e-mail are non-empty and the password has at least 6 characters |
| Store.AcceptedRegistration | backend/controller/userController.js:10-16 | an accepted registration has a user name and an e-mail, each 1 to 100 characters, each a prefix of the trimmed input and so not starting with white space, and a password of at least 6 characters |
| Store.BuyNowOutcome | backend/controller/orderController.js:45-91 | anything but a purchase leaves every table as it was; a purchase needs both ids, an existing book and enough stock, and reports price × quantity |
| Store.BuyCartOutcome | backend/controller/orderController.js:97-153 | anything but a purchase leaves every table as it was; a purchase needs a user with a non-empty cart whose every line is covered, and reports the sum of price × quantity |
| Store.BuyNowKeepsConsistent | backend/controller/orderController.js:56-83 | buyNow keeps the tables consistent |
| Store.BuyCartKeepsConsistent | backend/controller/orderController.js:102-145 | buyCart keeps the tables consistent |
| Store.BuyNowReplies | backend/controller/orderController.js:50-87 | each reply of buyNow, exactly when its check decides: invalid input, a failed read, a missing book, short stock, a purchase; nothing else is replied |
| Store.BuyNowEffect | backend/controller/orderController.js:70-83 | a purchase lowers that book's stock by exactly the quantity and not below zero, changes no other book, removes the user's line for the book and keeps every other line, and records the order and its item at the price of the time unless an insert fails |
| Store.BuyCartReplies | backend/controller/orderController.js:99-149 | each reply of buyCart, exactly when its check decides: no user, empty cart, short stock, purchase |
| Store.BuyCartShortLine | backend/controller/orderController.js:119-124 | short stock names the first of the user's lines in table order whose book is short, every line before it fits, and nothing changes |
| Store.BuyCartStockEffect | backend/controller/orderController.js:126-130 | after a purchase each book's stock is lower by exactly the user's cart quantity for it, books outside the cart keep theirs, and no bought book goes below zero |
| Store.BuyCartCartEffect | backend/controller/orderController.js:132 | after a purchase the user's cart is empty, every other user's lines are as they were, and no user changes |
| Store.BuyCartOrderEffect | backend/controller/orderController.js:134-145 | after a purchase: one order with the reported total unless its insert fails; one item per line up to the first failing insert; with every insert succeeding the items add up to the total |
| Store.BuyCartExample | backend/controller/orderController.js:97-153 | three copies at 10.99 with five in stock: total 32.97, stock 2, empty cart, one order and one item at 10.99 |
| Store.BuyCartNegativeLine | backend/controller/orderController.js:119-130 | a stored quantity of -2 for a book out of stock is "bought": stock goes up to 2, the total is -20.00, and under the schema as created no order is recorded |
| Store.BuyNowShortExample | backend/controller/orderController.js:65-68 | two copies of a book with one in stock: refused, tables unchanged, no order |
| Store.FindShort | backend/controller/orderController.js:119-124 | the scan finds the first short row, or none |
| Store.DebitAll | backend/controller/orderController.js:126-130 | the update loop succeeds exactly when no update fails, and then gives the debited books and the sum of price × quantity |
| Store.RecordOrderRows | backend/controller/orderController.js:134-142 | the insert loop produces the tables RecordOrder describes |
| Store.BookStore.constructor | backend/model/schema.js:4-57 | empty, consistent tables with every AUTO_INCREMENT counter at 1 |
| Store.BookStore.AddToCart | backend/controller/cartController.js:37-68 | missing ids or a missing book leave the cart alone; an existing line is incremented; otherwise a line with quantity 1 is appended, or the foreign key on the user fails; only the cart changes and consistency is kept |
| Store.BookStore.UpdateCart | backend/controller/cartController.js:99-116 | missing ids or quantity leave the cart alone; otherwise the (user, book) line takes the quantity as given; no line is created; only the cart changes |
| Store.BookStore.DeleteCart | backend/controller/cartController.js:119-132 | missing ids leave the cart alone; otherwise the (user, book) line is deleted; only the cart changes |
| Store.BookStore.AddBooks | backend/controller/booksController.js:4-25 | an existing title is refused; a missing NOT NULL column fails; otherwise the book is added under a fresh id and nothing else changes |
| Store.BookStore.EditBook | backend/controller/booksController.js:73-95 | an unknown id is not found; a missing NOT NULL column fails; otherwise all five columns are overwritten and nothing else changes |
| Store.BookStore.UserRegister | backend/controller/userController.js:9-34 | invalid input and a known e-mail are refused with no change; otherwise one user with the sanitized name and e-mail and the password hash is added under a fresh id |
| Store.BookStore.UserLogin | backend/controller/userController.js:37-69 | login succeeds exactly when a user has the sanitized e-mail and the password matches its hash, and then returns that user's id and name; missing input and wrong credentials are told apart |
| Store.BookStore.Install | backend/controller/orderController.js:82 | the commit installs the tables computed inside the transaction |
| Store.BookStore.BuyNow | backend/controller/orderController.js:45-91 | the reply and new tables are BuyNowOutcome of the old tables, and consistency is kept |
| Store.BookStore.BuyCart | backend/controller/orderController.js:97-153 | the reply and new tables are BuyCartOutcome of the old tables, and consistency is kept |
| OrderHistory.NatToString | frontend/src/pages/OrderHistory.jsx:87 | `String(id)` is a non-empty string of decimal digits |
| OrderHistory.Matches | frontend/src/pages/OrderHistory.jsx:83-92 | an empty query matches every order, and so does a query that, lower-cased, begins the id |
| OrderHistory.Step | frontend/src/pages/OrderHistory.jsx:110 | typing a query sets it and goes to page 1; Prev and Next keep the query; Prev goes one page back and never below 1; Next goes one page on and never past the last page |
| OrderHistory.LowerIdempotent | frontend/src/pages/OrderHistory.jsx:85 | lower-casing twice is lower-casing once and keeps the length |
| OrderHistory.LowerDigits | frontend/src/pages/OrderHistory.jsx:87 | an id's digits are unchanged by lower-casing |
| OrderHistory.ContainsAt | frontend/src/pages/OrderHistory.jsx:87-89 | an occurrence at some position makes `includes` true |
| OrderHistory.ContainsWitness | frontend/src/pages/OrderHistory.jsx:87-89 | when `includes` is true the query occurs at some position |
| OrderHistory.Filtered | frontend/src/pages/OrderHistory.jsx:83-92 | the filter keeps exactly the matching orders, in their order, each as many times as it occurs, and no other order |
| OrderHistory.FilterEmptyQuery | frontend/src/pages/OrderHistory.jsx:84 | an empty query shows every order |
| OrderHistory.MatchesIgnoresCase | frontend/src/pages/OrderHistory.jsx:85 | the search ignores the case of the query |
| OrderHistory.MatchesById | frontend/src/pages/OrderHistory.jsx:87 | any piece of an order's id finds the order |
| OrderHistory.MatchesByTitle | frontend/src/pages/OrderHistory.jsx:88-89 | any piece of an item's title finds its order |
| OrderHistory.TotalPages | frontend/src/pages/OrderHistory.jsx:94 | at least one page; the pages hold every order, with no empty page after the first |
| OrderHistory.SliceIndex | frontend/src/pages/OrderHistory.jsx:95 | `slice` clamps an index into the list and keeps one already inside it |
| OrderHistory.JsSlice | frontend/src/pages/OrderHistory.jsx:95 | `slice` never yields more than the range asks for; it is the plain sub-list for an in-range range, and everything from the start when the end is past the list |
| OrderHistory.PageItems | frontend/src/pages/OrderHistory.jsx:95 | a page shows at most eight orders: exactly the page's eight when it is full, the remaining orders on a partial last page, and none past the end |
| OrderHistory.PagesCover | frontend/src/pages/OrderHistory.jsx:94-95 | every filtered order is on exactly the page the arithmetic gives, which is a page the buttons can reach |
| OrderHistory.PagesNonEmpty | frontend/src/pages/OrderHistory.jsx:94-95 | every page up to the last shows at least one order |
| OrderHistory.Prev | frontend/src/pages/OrderHistory.jsx:204 | Prev moves one page back, and never before page 1 |
| OrderHistory.Next | frontend/src/pages/OrderHistory.jsx:206 | Next moves one page on, and never past the last page |
| OrderHistory.InitialInRange | frontend/src/pages/OrderHistory.jsx:11-12 | the page opens on page 1 with no query, which is in range |
| OrderHistory.StepInRange | frontend/src/pages/OrderHistory.jsx:110 | Prev, Next and typing a query keep the page within the current filter's pages; typing goes back to page 1 |
| OrderHistory.EventsInRange | frontend/src/pages/OrderHistory.jsx:110 | any sequence of those events keeps the page in range |
| OrderHistory.ButtonsAtEnds | frontend/src/pages/OrderHistory.jsx:204-206 | Prev on the first page and Next on the last change nothing |
| OrderHistory.ItemBookId | frontend/src/pages/OrderHistory.jsx:59 | an item's book id is the first present of bookId, book_id and id |
| OrderHistory.Reorder | frontend/src/pages/OrderHistory.jsx:41-61 | no user leads to the login page; with a user, an order without items is "nothing to reorder"; otherwise one add-to-cart per item, with that item's book id |
| CartPage.OrElse | frontend/src/pages/Cart.jsx:52 | `a || b` on numbers: `a` when present, else `b` |
| CartPage.Qty | frontend/src/pages/Cart.jsx:43 | a missing or zero quantity counts as 1 and any other is kept |
| CartPage.TotalPrice | frontend/src/pages/Cart.jsx:43 | one line costs its price times its counted quantity; lines without a price cost nothing |
| CartPage.TotalPriceAppend | frontend/src/pages/Cart.jsx:43 | the total of two lists one after the other is the sum of their totals |
| CartPage.TotalPriceNonNegative | frontend/src/pages/Cart.jsx:43 | with no negative prices or quantities the total is not negative |
| CartPage.EntriesOf | frontend/src/pages/Cart.jsx:19 | the page holds one entry per joined cart row |
| CartPage.TotalPriceIsCheckoutTotal | frontend/src/pages/Cart.jsx:43 | the total the page shows is what buyCart charges for the same rows, when no line has quantity 0 |
| CartPage.ZeroQuantityLine | frontend/src/pages/Cart.jsx:43 | a quantity-0 line counts once its price on the page and nothing at the checkout |
| CartPage.AfterDelete | frontend/src/pages/Cart.jsx:49-66 | a declined dialog, a missing id or a failed DELETE leaves the list; otherwise every entry of that (user, book) goes and every other entry stays, in order and as many times as it occurred |
| CartPage.DeleteLowersTotal | frontend/src/pages/Cart.jsx:43-60 | deleting a (user, book) lowers the total by exactly the share of its entries |
| CartPage.SetQuantity | frontend/src/pages/Cart.jsx:78 | the matching entries get the new quantity and nothing else about them changes; other entries stay |
| CartPage.UpdateQuantity | frontend/src/pages/Cart.jsx:68-78 | a quantity below 1 or a missing id leaves the list; otherwise every matching entry gets the new quantity and nothing else about it changes, and every other entry stays |
| CartPage.TypedQuantity | frontend/src/pages/Cart.jsx:98 | a typed quantity is at least 1, and any typed quantity of 1 or more is kept |
| CartPage.HandleQtyInput | frontend/src/pages/Cart.jsx:97-100 | a typed quantity keeps the list's length, writes `TypedQuantity(value)` (at least 1) into every entry of the item's (user, book), and leaves every other entry as it was |
| CartPage.EditsKeepQuantitiesPositive | frontend/src/pages/Cart.jsx:49-100 | delete, the quantity buttons and typing never bring a shown quantity below 1 |
| CartPage.BuyAll | frontend/src/pages/Cart.jsx:102-121 | nothing for an empty list; the login page without a user; the request is sent exactly with a non-empty list, a user and a confirmed dialog; the list empties exactly when the purchase succeeds |

## Left out

- HTTP plumbing: status codes, JSON bodies, connection pooling and release. Replies are the `Store.Reply` datatype.
- JWT verification and decoding are the `decode` parameter of the resolvers. Which one runs depends on whether `JWT_KEY` is set. Token issuing at login is not modelled.
- bcrypt hashing and comparison are parameters: the `hashed` string and the `matches` function.
- Database errors are the `fails` parameter of the checkouts. Of the errors the schema itself causes, the cart, catalog and account handlers model only two: a foreign-key failure in addToCart, and a NULL in a NOT NULL column in addBooks and editBook. The column widths are not modelled (see the INT line and the addBooks/editBook line below).
- The database is modelled only through the values it returns:
  - AUTO_INCREMENT ids are modelled as next-id counters.
  - Rows come back in insertion order.
  - `affectedRows` counts matched rows.
  - MySQL's case-insensitive collation for titles and e-mails is not modelled: comparisons are exact.
- The 32-bit range of the INT columns (schema.js:9-35) is not modelled: integers are unbounded. So four cases succeed in the model where MySQL in strict mode raises an out-of-range error and the handler replies 500 with nothing changed:
  - `quantity + 1` on a line at 2147483647 (cartController.js:57);
  - `updateCart` storing a quantity outside the INT range (cartController.js:109-111);
  - `stock - ?` going above 2147483647 in buyCart, for a stored quantity far below zero that its check lets through (orderController.js:128);
  - a `stock` outside the INT range given to addBooks or editBook (schema.js:25, booksController.js:16, :79).
- Store.BookStore.AddBooks and Store.BookStore.EditBook: the widths of the `books` columns are not modelled. These are `bookImage` and `title` VARCHAR(150), `author` VARCHAR(100), `price` DECIMAL(10,2) and `stock` INT (schema.js:21-25). The connection sets no `sql_mode` (db.js:3-8), so MySQL's default strict mode rejects a value that does not fit. The handler then catches the error and replies 500 with nothing changed (booksController.js:21-24, 91-94). The model instead replies Ok and adds or overwrites the book.
- Concurrency and transaction isolation are not modelled: each handler runs as one sequential step.
- Store.RequestedQuantity: takes the body's quantity as a number or nothing; a string quantity in the JSON body is not modelled. The source passes a non-empty string through `|| 1` unchanged, so a string "0" or an all-blank string becomes 0 through `Number()` and is rejected by the `quantity <= 0` check (orderController.js:48-51).
- `Number()` parsing of strings is not modelled. A string value carries the number `Number()` gives it. `String()` of non-string values passed to `sanitizeString` is left out as well. So is the password's `(… || "").toString()` (userController.js:12, :39): body fields are strings or absent in the model, so a JSON number password such as 1234567, which the source accepts as "1234567", cannot be expressed.
- Safe.SanitizeString: `maxLen` is always passed explicitly. The source's default `maxLen = 255` (safe.js:15) is not modelled; every modelled caller passes 100.
- String lengths count characters, not UTF-16 code units. `toLowerCase` is modelled on the letters A to Z only.
- Non-integer numbers are not modelled:
  - Ids and quantities are integers, so NaN or fractional quantities in buyNow (`quantity <= 0` is false for NaN) are not modelled.
  - A NaN typed into the cart page's quantity box is not modelled.
  - Prices are integer cents, not DECIMAL(10,2) read back as strings.
- Loose and strict equality on ids (`==` and `===` in Cart.jsx:60 and :78) coincide in the model, because ids are numbers on both sides.
- How `updateCart` and `deleteCart` take the user id from the request (`user_id || resolveUserId(req)`, `req.params.user_id || req.body.userId`) is an input: the methods receive the chosen id.
- How `buyNow` and `addToCart` take the book id from the request (`req.body.bookId || req.body.book_id`, orderController.js:47 and cartController.js:39) is an input as well: `Store.BookStore.BuyNow` and `Store.BookStore.AddToCart` receive the chosen `bookId`.
- buyNow's single item insert is modelled by the same order-recording loop as buyCart's, run over one row.
- Not modelled: `getCartItem`, `getBooks`, the order-history endpoint the page loads from, loading states, rendering, alerts, the `cartUpdated` event, and the re-fetch after a failed quantity update.
- Store.BookStore.UserLogin: the model picks any user with the e-mail, not the first row. The two agree because e-mails are unique.
- Store.BookStore.UpdateCart: a JSON `null` quantity is not told apart from a missing one; both are `None` and reply MissingInput. In the source, `null` passes the `quantity === undefined` guard (cartController.js:102). The UPDATE then writes NULL into the NOT NULL `quantity` column (schema.js:35). MySQL in strict mode rejects that, and the handler replies 500 when the line exists. Without such a line it replies 200 and nothing changes. In every case the cart stays as it was, as in the model.
- Tables.RecordOrder: order ids have no gaps in the model. A rollback, or a failed order insert, hands the order-id counter back, and the next order reuses the id. MySQL (InnoDB) never takes back an AUTO_INCREMENT value, so its order ids can have gaps there. In both, each new order's id is above every earlier one.
- Tables.RecordOrder: what buyNow writes in the `created_at` column (`NOW()`) is not modelled.
