/**
 * The bookstore's tables (backend/model/schema.js) as values, and the pure
 * functions the request handlers' SQL statements compute over them.
 * Prices are integer cents: the schema stores them as DECIMAL(10,2).
 */
module Tables {
  import opened Wrappers
  import opened Seqs

  /** A row of `books`. `image` may be NULL; the other columns are NOT NULL. */
  datatype Book = Book(image: Option<string>, title: string, author: string, price: int, stock: int)

  /** A row of `cart`; the schema gives `quantity` the default 1. */
  datatype CartLine = CartLine(userId: int, bookId: int, quantity: int)

  /** A row of `users`; the password is kept as its hash. */
  datatype User = User(name: string, email: string, passwordHash: string)

  /** A row of `orders` as the checkout handlers insert it. */
  datatype Order = Order(id: int, userId: int, total: int)

  /** A row of `order_items`: the price is the book's price at purchase time. */
  datatype OrderItem = OrderItem(orderId: int, bookId: int, quantity: int, price: int)

  /** One row of buyCart's join of the user's cart lines with `books`. */
  datatype Row = Row(bookId: int, quantity: int, price: int, stock: int)

  /** All tables, with the next AUTO_INCREMENT id of each table that has one. */
  datatype Db = Db(
    books: map<int, Book>, nextBookId: int,
    cart: seq<CartLine>,
    users: map<int, User>, nextUserId: int,
    orders: seq<Order>, items: seq<OrderItem>, nextOrderId: int)

  predicate IsKey(l: CartLine, u: int, b: int)
  {
    l.userId == u && l.bookId == b
  }

  /** UNIQUE KEY unique_cart (user_id, book_id). */
  predicate UniqueKeys(cart: seq<CartLine>)
  {
    forall i, j :: 0 <= i < j < |cart| ==> !IsKey(cart[j], cart[i].userId, cart[i].bookId)
  }

  predicate HasLine(cart: seq<CartLine>, u: int, b: int)
  {
    exists i :: 0 <= i < |cart| && IsKey(cart[i], u, b)
  }

  /** Some user has this email. */
  predicate EmailTaken(users: map<int, User>, email: string)
  {
    exists id :: id in users && users[id].email == email
  }

  /** UNIQUE useremail. */
  predicate UniqueEmails(users: map<int, User>)
  {
    forall a, b :: a in users && b in users && a != b ==> users[a].email != users[b].email
  }

  /** The schema's keys and constraints, as far as the handlers rely on them. */
  ghost predicate Consistent(d: Db)
    ensures Consistent(d) ==> d.nextBookId !in d.books && d.nextUserId !in d.users
    ensures Consistent(d) ==> forall k :: 0 <= k < |d.cart| ==> !HasLine(d.cart[k + 1..], d.cart[k].userId, d.cart[k].bookId)
  {
    && d.nextBookId >= 1 && d.nextUserId >= 1 && d.nextOrderId >= 1
    && (forall id :: id in d.books ==> 0 < id < d.nextBookId)
    && (forall id :: id in d.users ==> 0 < id < d.nextUserId)
    && UniqueEmails(d.users)
    && UniqueKeys(d.cart)
    && (forall k :: 0 <= k < |d.cart| ==> d.cart[k].bookId in d.books && d.cart[k].userId in d.users)
    && (forall k :: 0 <= k < |d.orders| ==> 0 < d.orders[k].id < d.nextOrderId)
    && (forall i, j :: 0 <= i < j < |d.orders| ==> d.orders[i].id < d.orders[j].id)
    && (forall k :: 0 <= k < |d.items| ==> 0 < d.items[k].orderId < d.nextOrderId)
  }

  /** Inserting a user with a fresh id and an unused email keeps the tables consistent. */
  lemma InsertUserConsistent(d: Db, x: User)
    requires Consistent(d)
    requires !EmailTaken(d.users, x.email)
    ensures d.nextUserId !in d.users
    ensures Consistent(d.(users := d.users[d.nextUserId := x], nextUserId := d.nextUserId + 1))
  {
    var users := d.users[d.nextUserId := x];
    forall a, b | a in users && b in users && a != b
      ensures users[a].email != users[b].email
    {
      if a != d.nextUserId && b != d.nextUserId {
        assert users[a] == d.users[a] && users[b] == d.users[b];
      }
    }
  }

  // ----- cart statements -----

  /** `UPDATE cart SET quantity = quantity + 1 WHERE user_id = u AND book_id = b`. */
  function Incremented(cart: seq<CartLine>, u: int, b: int): (r: seq<CartLine>)
    ensures |r| == |cart|
    ensures forall k :: 0 <= k < |cart| && IsKey(cart[k], u, b) ==> r[k] == cart[k].(quantity := cart[k].quantity + 1)
    ensures forall k :: 0 <= k < |cart| && !IsKey(cart[k], u, b) ==> r[k] == cart[k]
  {
    seq(|cart|, k requires 0 <= k < |cart| =>
      if IsKey(cart[k], u, b) then cart[k].(quantity := cart[k].quantity + 1) else cart[k])
  }

  /** `UPDATE cart SET quantity = q WHERE user_id = u AND book_id = b`. */
  function WithQuantity(cart: seq<CartLine>, u: int, b: int, q: int): (r: seq<CartLine>)
    ensures |r| == |cart|
    ensures forall k :: 0 <= k < |cart| && IsKey(cart[k], u, b) ==> r[k] == cart[k].(quantity := q)
    ensures forall k :: 0 <= k < |cart| && !IsKey(cart[k], u, b) ==> r[k] == cart[k]
  {
    seq(|cart|, k requires 0 <= k < |cart| =>
      if IsKey(cart[k], u, b) then cart[k].(quantity := q) else cart[k])
  }

  /** `DELETE FROM cart WHERE user_id = u AND book_id = b`. */
  function WithoutLine(cart: seq<CartLine>, u: int, b: int): (r: seq<CartLine>)
    ensures !HasLine(r, u, b)
  {
    Keep(cart, l => !IsKey(l, u, b))
  }

  /** `DELETE FROM cart WHERE user_id = u`. */
  function WithoutUser(cart: seq<CartLine>, u: int): (r: seq<CartLine>)
    ensures forall k :: 0 <= k < |r| ==> r[k].userId != u
  {
    Keep(cart, (l: CartLine) => l.userId != u)
  }

  /** The lines of user `u`, in table order. */
  function LinesOf(cart: seq<CartLine>, u: int): seq<CartLine>
  {
    Keep(cart, (l: CartLine) => l.userId == u)
  }

  /** Deleting lines keeps at most one line per (user, book), and only lines that were there. */
  lemma {:induction false} KeepKeysUnique(cart: seq<CartLine>, p: CartLine -> bool)
    requires UniqueKeys(cart)
    ensures UniqueKeys(Keep(cart, p))
  {
    if |cart| > 0 {
      var tail := cart[1..];
      assert UniqueKeys(tail) by {
        forall i, j | 0 <= i < j < |tail| ensures !IsKey(tail[j], tail[i].userId, tail[i].bookId) {
          assert tail[i] == cart[i + 1] && tail[j] == cart[j + 1];
        }
      }
      KeepKeysUnique(tail, p);
      if p(cart[0]) {
        var r := Keep(cart, p);
        var rest := Keep(tail, p);
        assert r == [cart[0]] + rest;
        forall i, j | 0 <= i < j < |r| ensures !IsKey(r[j], r[i].userId, r[i].bookId) {
          if i == 0 {
            assert r[j] == rest[j - 1] && rest[j - 1] in tail;
            var m :| 0 <= m < |tail| && tail[m] == rest[j - 1];
            assert tail[m] == cart[m + 1];
          } else {
            assert r[i] == rest[i - 1] && r[j] == rest[j - 1];
          }
        }
      }
    }
  }

  /** Deleting a cart line a second time changes nothing. */
  lemma WithoutLineIdempotent(cart: seq<CartLine>, u: int, b: int)
    ensures WithoutLine(WithoutLine(cart, u, b), u, b) == WithoutLine(cart, u, b)
  {
    var r := WithoutLine(cart, u, b);
    KeepAll(r, l => !IsKey(l, u, b));
  }

  /** Deleting one user's cart leaves every other user's lines as they were, in order. */
  lemma {:induction false} WithoutUserKeepsOthers(cart: seq<CartLine>, u: int, v: int)
    requires v != u
    ensures LinesOf(WithoutUser(cart, u), v) == LinesOf(cart, v)
    ensures LinesOf(WithoutUser(cart, u), u) == []
  {
    if |cart| > 0 {
      WithoutUserKeepsOthers(cart[1..], u, v);
    }
  }

  /** Deleting one cart line leaves every other line, in order: only (u, b) lines go. */
  lemma {:induction false} WithoutLineKeepsOthers(cart: seq<CartLine>, u: int, b: int, v: int, c: int)
    requires v != u || c != b
    ensures Keep(WithoutLine(cart, u, b), l => IsKey(l, v, c)) == Keep(cart, l => IsKey(l, v, c))
  {
    if |cart| > 0 {
      WithoutLineKeepsOthers(cart[1..], u, b, v, c);
    }
  }

  /**
   * addToCart's two branches, seen as the quantity of each (user, book): the
   * added book's goes up by exactly one, whether its line existed (and is
   * incremented) or not (and is inserted with the default quantity 1), and
   * every other quantity stays.
   */
  lemma AddToCartQuantities(cart: seq<CartLine>, u: int, b: int)
    requires UniqueKeys(cart)
    ensures var after := if HasLine(cart, u, b) then Incremented(cart, u, b) else cart + [CartLine(u, b, 1)];
      && HasLine(after, u, b)
      && QuantityIn(after, u, b) == QuantityIn(cart, u, b) + 1
      && forall v, c :: (v != u || c != b) ==> QuantityIn(after, v, c) == QuantityIn(cart, v, c)
  {
    AddKeepsKeysUnique(cart, u, b);
    QuantityOfLine(cart, u, b);
    if HasLine(cart, u, b) {
      var inc := Incremented(cart, u, b);
      var k :| 0 <= k < |cart| && IsKey(cart[k], u, b);
      QuantityOfLine(inc, u, b);
      assert IsKey(inc[k], u, b);
      forall v, c | v != u || c != b ensures QuantityIn(inc, v, c) == QuantityIn(cart, v, c) {
        QuantityOfLine(cart, v, c);
        QuantityOfLine(inc, v, c);
        if HasLine(cart, v, c) {
          var j :| 0 <= j < |cart| && IsKey(cart[j], v, c);
          assert inc[j] == cart[j];
        } else {
          forall j | 0 <= j < |inc| ensures !IsKey(inc[j], v, c) {
            assert !IsKey(cart[j], v, c);
          }
        }
      }
    } else {
      var ext := cart + [CartLine(u, b, 1)];
      assert ext[..|cart|] == cart;
      assert IsKey(ext[|cart|], u, b);
    }
  }

  /**
   * updateCart seen as quantities: the (user, book) quantity becomes the
   * given value when the line exists and stays 0 when it does not; every
   * other quantity stays.
   */
  lemma UpdateCartQuantities(cart: seq<CartLine>, u: int, b: int, q: int)
    requires UniqueKeys(cart)
    ensures var after := WithQuantity(cart, u, b, q);
      && |after| == |cart|
      && QuantityIn(after, u, b) == (if HasLine(cart, u, b) then q else 0)
      && forall v, c :: (v != u || c != b) ==> QuantityIn(after, v, c) == QuantityIn(cart, v, c)
  {
    var after := WithQuantity(cart, u, b, q);
    WithQuantityKeepsKeys(cart, u, b, q);
    QuantityOfLine(after, u, b);
    if HasLine(cart, u, b) {
      var k :| 0 <= k < |cart| && IsKey(cart[k], u, b);
      assert IsKey(after[k], u, b);
    } else {
      forall j | 0 <= j < |after| ensures !IsKey(after[j], u, b) {
        assert !IsKey(cart[j], u, b);
      }
    }
    forall v, c | v != u || c != b ensures QuantityIn(after, v, c) == QuantityIn(cart, v, c) {
      QuantityOfLine(cart, v, c);
      QuantityOfLine(after, v, c);
      if HasLine(cart, v, c) {
        var j :| 0 <= j < |cart| && IsKey(cart[j], v, c);
        assert after[j] == cart[j];
      } else {
        forall j | 0 <= j < |after| ensures !IsKey(after[j], v, c) {
          assert !IsKey(cart[j], v, c);
        }
      }
    }
  }

  /** Adding to a cart keeps at most one line per (user, book). */
  lemma AddKeepsKeysUnique(cart: seq<CartLine>, u: int, b: int)
    requires UniqueKeys(cart)
    ensures UniqueKeys(Incremented(cart, u, b))
    ensures !HasLine(cart, u, b) ==> UniqueKeys(cart + [CartLine(u, b, 1)])
  {
    var inc := Incremented(cart, u, b);
    forall i, j | 0 <= i < j < |inc|
      ensures !IsKey(inc[j], inc[i].userId, inc[i].bookId)
    {
      assert !IsKey(cart[j], cart[i].userId, cart[i].bookId);
    }
    if !HasLine(cart, u, b) {
      var ext := cart + [CartLine(u, b, 1)];
      forall i, j | 0 <= i < j < |ext|
        ensures !IsKey(ext[j], ext[i].userId, ext[i].bookId)
      {
        if j < |cart| {
          assert !IsKey(cart[j], cart[i].userId, cart[i].bookId);
        } else {
          assert !IsKey(cart[i], u, b);
        }
      }
    }
  }

  /** Setting a quantity changes only the (u, b) line and keeps the keys. */
  lemma WithQuantityKeepsKeys(cart: seq<CartLine>, u: int, b: int, q: int)
    requires UniqueKeys(cart)
    ensures UniqueKeys(WithQuantity(cart, u, b, q))
    ensures |WithQuantity(cart, u, b, q)| == |cart|
    ensures forall k :: 0 <= k < |cart| && !IsKey(cart[k], u, b) ==> WithQuantity(cart, u, b, q)[k] == cart[k]
  {
    var r := WithQuantity(cart, u, b, q);
    forall i, j | 0 <= i < j < |r|
      ensures !IsKey(r[j], r[i].userId, r[i].bookId)
    {
      assert !IsKey(cart[j], cart[i].userId, cart[i].bookId);
    }
  }

  // ----- catalog queries -----

  /** `SELECT * FROM books WHERE title = t`. */
  function WithTitle(books: map<int, Book>, t: string): (r: map<int, Book>)
    ensures forall id :: id in r <==> id in books && books[id].title == t
    ensures forall id :: id in r ==> r[id] == books[id]
  {
    map id | id in books && books[id].title == t :: books[id]
  }

  /** `SELECT * FROM books WHERE author = a`. */
  function ByAuthor(books: map<int, Book>, a: string): (r: map<int, Book>)
    ensures forall id :: id in r <==> id in books && books[id].author == a
    ensures forall id :: id in r ==> r[id] == books[id]
  {
    map id | id in books && books[id].author == a :: books[id]
  }

  /** A lookup's answer: the matching rows, or "No book found". */
  datatype Lookup = Rows(found: map<int, Book>) | NoBookFound

  lemma NonEmptyMap(m: map<int, Book>)
    requires m != map[]
    ensures exists id :: id in m
  {
    if forall id :: id !in m {
      assert false;
    }
  }

  /** getBookByTitle: the matching rows, or "No book found" when there are none. */
  function GetBookByTitle(books: map<int, Book>, t: string): (r: Lookup)
    ensures r.NoBookFound? <==> forall id :: id in books ==> books[id].title != t
    ensures r.Rows? ==> r.found != map[] && forall id :: id in r.found <==> id in books && books[id].title == t
    ensures r.Rows? ==> forall id :: id in r.found ==> r.found[id] == books[id]
  {
    var rows := WithTitle(books, t);
    if rows == map[] then NoBookFound
    else
      assert exists id :: id in rows by { NonEmptyMap(rows); }
      Rows(rows)
  }

  /** getBooksByAuthor: the matching rows, or "No book found" when there are none. */
  function GetBooksByAuthor(books: map<int, Book>, a: string): (r: Lookup)
    ensures r.NoBookFound? <==> forall id :: id in books ==> books[id].author != a
    ensures r.Rows? ==> r.found != map[] && forall id :: id in r.found <==> id in books && books[id].author == a
    ensures r.Rows? ==> forall id :: id in r.found ==> r.found[id] == books[id]
  {
    var rows := ByAuthor(books, a);
    if rows == map[] then NoBookFound
    else
      assert exists id :: id in rows by { NonEmptyMap(rows); }
      Rows(rows)
  }

  // ----- checkout -----

  /** The statements a checkout sends to the database inside its transaction. */
  datatype Statement =
    | Begin
    | SelectBook(bookId: int)
    | SelectCart(userId: int)
    | DecrementStock(bookId: int, amount: int)
    | DeleteLine(userId: int, bookId: int)
    | DeleteCartOf(userId: int)
    | InsertOrder(userId: int, total: int)
    | InsertItem(item: OrderItem)
    | Commit

  /** Which statements the database rejects with an error (connection loss, missing table or column, ...). */
  type Faults = Statement -> bool

  /**
   * The schema as backend/model/schema.js creates it: `orders` has no `total`
   * column and `order_items` is never created, so both inserts fail.
   */
  function SchemaAsCreated(s: Statement): bool
  {
    s.InsertOrder? || s.InsertItem?
  }

  /**
   * The part of a checkout that touches books and cart keeps the tables
   * consistent: stock changes keep the set of books, and cart lines are only
   * deleted.
   */
  lemma DebitConsistent(d: Db, books: map<int, Book>, cart: seq<CartLine>)
    requires Consistent(d)
    requires books.Keys == d.books.Keys
    requires UniqueKeys(cart) && forall k :: 0 <= k < |cart| ==> cart[k] in d.cart
    ensures Consistent(d.(books := books, cart := cart))
  {
    forall k | 0 <= k < |cart|
      ensures cart[k].bookId in books && cart[k].userId in d.users
    {
      var i :| 0 <= i < |d.cart| && d.cart[i] == cart[k];
    }
  }

  /**
   * The order-recording try/catch of both checkouts: the order with the next
   * order id, then one item per row until the first insert that fails. A
   * failure is swallowed and what was written before it stays.
   */
  function RecordOrder(d: Db, u: int, rows: seq<Row>, total: int, fails: Faults): (e: Db)
    ensures e.books == d.books && e.cart == d.cart && e.users == d.users
    ensures e.nextBookId == d.nextBookId && e.nextUserId == d.nextUserId
    ensures fails(InsertOrder(u, total)) ==> e == d
    ensures !fails(InsertOrder(u, total)) ==>
      && e.orders == d.orders + [Order(d.nextOrderId, u, total)]
      && e.nextOrderId == d.nextOrderId + 1
      && |e.items| == |d.items| + RecordedItems(d.nextOrderId, rows, fails)
      && e.items[..|d.items|] == d.items
      && forall k :: |d.items| <= k < |e.items| ==>
           e.items[k] == ItemOf(d.nextOrderId, rows[k - |d.items|])
           && !fails(InsertItem(e.items[k]))
  {
    if fails(InsertOrder(u, total)) then d
    else
      var n := RecordedItems(d.nextOrderId, rows, fails);
      d.(orders := d.orders + [Order(d.nextOrderId, u, total)],
         items := d.items + ItemsFor(d.nextOrderId, rows[..n]),
         nextOrderId := d.nextOrderId + 1)
  }

  /** Recording an order keeps the tables consistent. */
  lemma RecordOrderConsistent(d: Db, u: int, rows: seq<Row>, total: int, fails: Faults)
    requires Consistent(d)
    ensures Consistent(RecordOrder(d, u, rows, total, fails))
  {
    var e := RecordOrder(d, u, rows, total, fails);
    if !fails(InsertOrder(u, total)) {
      forall k | 0 <= k < |d.items| ensures e.items[k] == d.items[k] {
        assert e.items[..|d.items|][k] == e.items[k];
      }
    }
  }

  /** With the schema as created, a checkout never records an order. */
  lemma RecordOrderUnderSchema(d: Db, u: int, rows: seq<Row>, total: int)
    ensures RecordOrder(d, u, rows, total, SchemaAsCreated) == d
  {
  }

  /** buyCart's join: the user's lines whose book exists, in table order, with price and stock. */
  function CartRows(cart: seq<CartLine>, books: map<int, Book>, u: int): (rows: seq<Row>)
    ensures |rows| <= |cart|
    ensures forall k :: 0 <= k < |rows| ==>
      (rows[k].bookId in books && rows[k].price == books[rows[k].bookId].price
       && rows[k].stock == books[rows[k].bookId].stock)
  {
    if |cart| == 0 then []
    else
      var l := cart[|cart| - 1];
      var rest := CartRows(cart[..|cart| - 1], books, u);
      if l.userId == u && l.bookId in books then
        rest + [Row(l.bookId, l.quantity, books[l.bookId].price, books[l.bookId].stock)]
      else rest
  }

  /** The position of the first row whose stock does not cover its quantity. */
  function FirstShort(rows: seq<Row>): (k: Option<nat>)
    ensures k.Some? ==> k.value < |rows| && rows[k.value].stock < rows[k.value].quantity
    ensures k.Some? ==> forall j :: 0 <= j < k.value ==> rows[j].quantity <= rows[j].stock
    ensures k.None? ==> forall j :: 0 <= j < |rows| ==> rows[j].quantity <= rows[j].stock
  {
    if |rows| == 0 then None
    else if rows[0].stock < rows[0].quantity then Some(0)
    else match FirstShort(rows[1..])
      case Some(j) => Some(j + 1)
      case None => None
  }

  /** `UPDATE books SET stock = stock - q WHERE bookId = b`. */
  function Decrement(books: map<int, Book>, b: int, q: int): (r: map<int, Book>)
    ensures r.Keys == books.Keys
    ensures b in books ==> r[b] == books[b].(stock := books[b].stock - q)
    ensures forall c :: c in books && c != b ==> r[c] == books[c]
  {
    if b in books then books[b := books[b].(stock := books[b].stock - q)] else books
  }

  /** The stock updates of buyCart's second loop, one per row, in order. */
  function Debit(books: map<int, Book>, rows: seq<Row>): (r: map<int, Book>)
    ensures r.Keys == books.Keys
    ensures forall c :: c in books ==> r[c] == books[c].(stock := r[c].stock)
  {
    if |rows| == 0 then books
    else
      var last := rows[|rows| - 1];
      Decrement(Debit(books, rows[..|rows| - 1]), last.bookId, last.quantity)
  }

  /** The total quantity the rows take from book `b`. */
  function Ordered(rows: seq<Row>, b: int): int
  {
    if |rows| == 0 then 0
    else
      var last := rows[|rows| - 1];
      Ordered(rows[..|rows| - 1], b) + (if last.bookId == b then last.quantity else 0)
  }

  /** The quantity of book `b` in user `u`'s cart lines. */
  function QuantityIn(cart: seq<CartLine>, u: int, b: int): int
  {
    if |cart| == 0 then 0
    else
      var l := cart[|cart| - 1];
      QuantityIn(cart[..|cart| - 1], u, b) + (if IsKey(l, u, b) then l.quantity else 0)
  }

  /** buyCart's `total`: the sum of price times quantity over the rows. */
  function RowsTotal(rows: seq<Row>): (r: int)
    ensures (forall k :: 0 <= k < |rows| ==> rows[k].price >= 0 && rows[k].quantity >= 0) ==> r >= 0
  {
    if |rows| == 0 then 0
    else RowsTotal(rows[..|rows| - 1]) + rows[|rows| - 1].price * rows[|rows| - 1].quantity
  }

  /** The first short row is the one a left-to-right scan stops at. */
  lemma {:induction false} ShortestFirst(rows: seq<Row>, i: nat)
    requires i < |rows| && rows[i].stock < rows[i].quantity
    requires forall k :: 0 <= k < i ==> rows[k].quantity <= rows[k].stock
    ensures FirstShort(rows) == Some(i)
  {
    if i > 0 {
      ShortestFirst(rows[1..], i - 1);
    }
  }

  /** The `order_items` row for one purchased row. */
  function ItemOf(orderId: int, r: Row): OrderItem
  {
    OrderItem(orderId, r.bookId, r.quantity, r.price)
  }

  /** One order item per row, in row order. */
  function ItemsFor(orderId: int, rows: seq<Row>): (items: seq<OrderItem>)
    ensures |items| == |rows|
    ensures forall k :: 0 <= k < |rows| ==> items[k] == ItemOf(orderId, rows[k])
  {
    seq(|rows|, k requires 0 <= k < |rows| => ItemOf(orderId, rows[k]))
  }

  /** How many order items buyCart's insert loop writes before the first insert that fails. */
  function RecordedItems(orderId: int, rows: seq<Row>, fails: Faults): (n: nat)
    ensures n <= |rows|
    ensures forall k :: 0 <= k < n ==> !fails(InsertItem(ItemOf(orderId, rows[k])))
    ensures n < |rows| ==> fails(InsertItem(ItemOf(orderId, rows[n])))
  {
    if |rows| == 0 then 0
    else if fails(InsertItem(ItemOf(orderId, rows[0]))) then 0
    else 1 + RecordedItems(orderId, rows[1..], fails)
  }

  /** The insert loop that stops at the first failing insert has written RecordedItems items. */
  lemma {:induction false} RecordedItemsAt(orderId: int, rows: seq<Row>, fails: Faults, i: nat)
    requires i <= |rows|
    requires forall k :: 0 <= k < i ==> !fails(InsertItem(ItemOf(orderId, rows[k])))
    requires i == |rows| || fails(InsertItem(ItemOf(orderId, rows[i])))
    ensures RecordedItems(orderId, rows, fails) == i
  {
    if i > 0 {
      RecordedItemsAt(orderId, rows[1..], fails, i - 1);
    }
  }

  /** The value of some order items: the sum of price times quantity. */
  function ItemsTotal(items: seq<OrderItem>): int
  {
    if |items| == 0 then 0
    else ItemsTotal(items[..|items| - 1]) + items[|items| - 1].price * items[|items| - 1].quantity
  }

  /** The recorded items of a buyCart add up to the total it reports. */
  lemma {:induction false} ItemsAddUp(orderId: int, rows: seq<Row>)
    ensures ItemsTotal(ItemsFor(orderId, rows)) == RowsTotal(rows)
  {
    if |rows| > 0 {
      var n := |rows| - 1;
      ItemsAddUp(orderId, rows[..n]);
      assert ItemsFor(orderId, rows)[..n] == ItemsFor(orderId, rows[..n]);
    }
  }

  /** Each stock update of buyCart touches its own book only: the keys and other columns stay. */
  lemma {:induction false} DebitStock(books: map<int, Book>, rows: seq<Row>)
    ensures Debit(books, rows).Keys == books.Keys
    ensures forall b :: b in books ==>
      Debit(books, rows)[b] == books[b].(stock := books[b].stock - Ordered(rows, b))
  {
    if |rows| > 0 {
      DebitStock(books, rows[..|rows| - 1]);
    }
  }

  /** The join takes from each existing book exactly the quantity of the user's line for it. */
  lemma {:induction false} CartRowsOrdered(cart: seq<CartLine>, books: map<int, Book>, u: int, b: int)
    requires b in books
    ensures Ordered(CartRows(cart, books, u), b) == QuantityIn(cart, u, b)
  {
    if |cart| > 0 {
      var n := |cart| - 1;
      CartRowsOrdered(cart[..n], books, u, b);
      var l := cart[n];
      var rest := CartRows(cart[..n], books, u);
      if l.userId == u && l.bookId in books {
        var row := Row(l.bookId, l.quantity, books[l.bookId].price, books[l.bookId].stock);
        assert CartRows(cart, books, u) == rest + [row];
        assert (rest + [row])[..|rest|] == rest;
      }
    }
  }

  /** With one line per (user, book), the quantity for a book is that line's, or 0 without one. */
  lemma {:induction false} QuantityOfLine(cart: seq<CartLine>, u: int, b: int)
    requires UniqueKeys(cart)
    ensures !HasLine(cart, u, b) ==> QuantityIn(cart, u, b) == 0
    ensures forall k :: 0 <= k < |cart| && IsKey(cart[k], u, b) ==> QuantityIn(cart, u, b) == cart[k].quantity
  {
    if |cart| > 0 {
      var n := |cart| - 1;
      var init := cart[..n];
      assert UniqueKeys(init) by {
        forall i, j | 0 <= i < j < |init| ensures !IsKey(init[j], init[i].userId, init[i].bookId) {
          assert init[i] == cart[i] && init[j] == cart[j];
        }
      }
      QuantityOfLine(init, u, b);
      if IsKey(cart[n], u, b) {
        forall k | 0 <= k < n ensures !IsKey(init[k], u, b) {
          assert init[k] == cart[k];
          assert !IsKey(cart[n], cart[k].userId, cart[k].bookId);
        }
      }
      forall k | 0 <= k < n && IsKey(cart[k], u, b) ensures !IsKey(cart[n], u, b) && IsKey(init[k], u, b) {
        assert init[k] == cart[k];
      }
      if !HasLine(cart, u, b) {
        assert !IsKey(cart[n], u, b);
        assert !HasLine(init, u, b) by {
          forall k | 0 <= k < n ensures !IsKey(init[k], u, b) { assert init[k] == cart[k]; }
        }
      }
    }
  }

  /** Every row of the join is one of the user's lines, with its quantity. */
  lemma {:induction false} CartRowsFromLines(cart: seq<CartLine>, books: map<int, Book>, u: int, k: nat)
    requires k < |CartRows(cart, books, u)|
    ensures var r := CartRows(cart, books, u)[k];
      exists i :: 0 <= i < |cart| && IsKey(cart[i], u, r.bookId) && cart[i].quantity == r.quantity
  {
    var n := |cart| - 1;
    var rest := CartRows(cart[..n], books, u);
    var r := CartRows(cart, books, u)[k];
    if k < |rest| {
      CartRowsFromLines(cart[..n], books, u, k);
      var i :| 0 <= i < n && IsKey(cart[..n][i], u, rest[k].bookId) && cart[..n][i].quantity == rest[k].quantity;
      assert cart[i] == cart[..n][i];
    } else {
      assert IsKey(cart[n], u, r.bookId) && cart[n].quantity == r.quantity;
    }
  }

  /**
   * A successful buyCart: every book loses exactly the quantity of the user's
   * cart line for it (books outside the cart keep their stock), nothing else
   * about a book changes, and a book that was bought does not go below zero.
   */
  lemma BuyCartStock(cart: seq<CartLine>, books: map<int, Book>, u: int)
    requires UniqueKeys(cart)
    requires FirstShort(CartRows(cart, books, u)).None?
    ensures var after := Debit(books, CartRows(cart, books, u));
      && after.Keys == books.Keys
      && (forall b :: b in books ==> after[b] == books[b].(stock := books[b].stock - QuantityIn(cart, u, b)))
      && (forall b :: b in books && !HasLine(cart, u, b) ==> after[b] == books[b])
      && (forall k :: 0 <= k < |cart| && cart[k].userId == u && cart[k].bookId in books ==>
            after[cart[k].bookId].stock == books[cart[k].bookId].stock - cart[k].quantity >= 0)
  {
    var rows := CartRows(cart, books, u);
    var after := Debit(books, rows);
    DebitStock(books, rows);
    forall b | b in books
      ensures after[b] == books[b].(stock := books[b].stock - QuantityIn(cart, u, b))
    {
      CartRowsOrdered(cart, books, u, b);
    }
    forall b | b in books && !HasLine(cart, u, b)
      ensures after[b] == books[b]
    {
      QuantityOfLine(cart, u, b);
    }
    forall k | 0 <= k < |cart| && cart[k].userId == u && cart[k].bookId in books
      ensures after[cart[k].bookId].stock == books[cart[k].bookId].stock - cart[k].quantity >= 0
    {
      var b := cart[k].bookId;
      QuantityOfLine(cart, u, b);
      CartRowsInclude(cart, books, u, k);
    }
  }

  /** A line of the user whose book exists yields a row of the join. */
  lemma {:induction false} CartRowsInclude(cart: seq<CartLine>, books: map<int, Book>, u: int, k: nat)
    requires k < |cart| && cart[k].userId == u && cart[k].bookId in books
    ensures exists j :: (0 <= j < |CartRows(cart, books, u)| && CartRows(cart, books, u)[j].bookId == cart[k].bookId
                         && CartRows(cart, books, u)[j].quantity == cart[k].quantity)
  {
    var n := |cart| - 1;
    var rest := CartRows(cart[..n], books, u);
    var l := cart[n];
    if k < n {
      CartRowsInclude(cart[..n], books, u, k);
      var j :| 0 <= j < |rest| && rest[j].bookId == cart[k].bookId && rest[j].quantity == cart[k].quantity;
      if l.userId == u && l.bookId in books {
        var row := Row(l.bookId, l.quantity, books[l.bookId].price, books[l.bookId].stock);
        assert CartRows(cart, books, u) == rest + [row];
        assert CartRows(cart, books, u)[j] == rest[j];
      } else {
        assert CartRows(cart, books, u) == rest;
      }
    } else {
      var row := Row(l.bookId, l.quantity, books[l.bookId].price, books[l.bookId].stock);
      assert CartRows(cart, books, u) == rest + [row];
      assert CartRows(cart, books, u)[|rest|] == row;
    }
  }
}
