/**
 * The request handlers of backend/controller/{cartController,booksController,
 * userController,orderController}.js as methods of one object holding the
 * database's tables. Each call is one sequential step; the checkout handlers
 * work inside a transaction, modelled by computing the new tables in locals
 * and assigning them to the fields only at the commit.
 */
module Store {
  import opened Wrappers
  import opened Seqs
  import opened Tables
  import Safe

  /** What a handler answers, without the HTTP plumbing. */
  datatype Reply =
    | Ok                                    // 200/201 with a success message
    | Purchased(total: int)                 // checkout succeeded; total in cents
    | LoggedIn(userId: int, username: string)
    | MissingInput                          // 400: missing or invalid input
    | NotFound                              // 404
    | InsufficientStock(bookId: Option<int>)
    | EmptyCart
    | AlreadyExists
    | InvalidCredentials
    | ServerError                           // 500, after a rollback inside a transaction

  /** The body fields of addBooks/editBook; an absent field is sent to MySQL as NULL. */
  datatype BookFields = BookFields(
    image: Option<string>, title: Option<string>, author: Option<string>,
    price: Option<int>, stock: Option<int>)

  /** Every NOT NULL column of `books` has a value. */
  predicate Complete(f: BookFields)
  {
    f.title.Some? && f.author.Some? && f.price.Some? && f.stock.Some?
  }

  function ToBook(f: BookFields): Book
    requires Complete(f)
  {
    Book(f.image, f.title.value, f.author.value, f.price.value, f.stock.value)
  }

  /** `Number(req.body.quantity || 1)`: a missing or zero quantity means 1. */
  function RequestedQuantity(q: Option<int>): (r: int)
    ensures q.None? ==> r == 1
    ensures q.Some? && q.value == 0 ==> r == 1
    ensures q.Some? && q.value != 0 ==> r == q.value
    ensures r <= 0 <==> q.Some? && q.value < 0
  {
    if q.Some? && q.value != 0 then q.value else 1
  }

  /** `a || b` where `a` is a string body field. */
  function OrElse(a: Option<string>, b: string): string
  {
    if a.Some? && a.value != "" then a.value else b
  }

  datatype RegisterBody = RegisterBody(
    username: Option<string>, useremail: Option<string>, email: Option<string>,
    userpassword: Option<string>, password: Option<string>)

  datatype LoginBody = LoginBody(
    useremail: Option<string>, email: Option<string>,
    userpassword: Option<string>, password: Option<string>)

  datatype Credentials = Credentials(name: string, email: string, password: string)

  /** userRegister's sanitized inputs. */
  function RegistrationOf(body: RegisterBody): (c: Credentials)
    ensures |c.name| <= 100 && c.name <= Safe.Trim(OrElse(body.username, ""))
    ensures |c.email| <= 100 && c.email <= Safe.Trim(OrElse(body.useremail, OrElse(body.email, "")))
    ensures body.userpassword.Some? && body.userpassword.value != "" ==> c.password == body.userpassword.value
  {
    Credentials(
      Safe.SanitizeString(Some(OrElse(body.username, "")), 100),
      Safe.SanitizeString(Some(OrElse(body.useremail, OrElse(body.email, ""))), 100),
      OrElse(body.userpassword, OrElse(body.password, "")))
  }

  /** userLogin's sanitized inputs (no user name). */
  function LoginOf(body: LoginBody): (c: Credentials)
    ensures c.name == ""
    ensures |c.email| <= 100 && c.email <= Safe.Trim(OrElse(body.useremail, OrElse(body.email, "")))
    ensures body.userpassword.Some? && body.userpassword.value != "" ==> c.password == body.userpassword.value
  {
    Credentials(
      "",
      Safe.SanitizeString(Some(OrElse(body.useremail, OrElse(body.email, ""))), 100),
      OrElse(body.userpassword, OrElse(body.password, "")))
  }

  /** userRegister's validation: a user name, an email, and a password of at least 6 characters. */
  predicate Acceptable(c: Credentials)
    ensures Acceptable(c) <==> c.name != "" && c.email != "" && |c.password| >= 6
  {
    c.name != "" && c.email != "" && c.password != "" && |c.password| >= 6
  }

  /**
   * An accepted registration has a non-empty user name and email, each at
   * most 100 characters, each a prefix of the trimmed input and so never
   * starting with white space, and a password of at least 6 characters.
   */
  lemma AcceptedRegistration(body: RegisterBody)
    requires Acceptable(RegistrationOf(body))
    ensures var c := RegistrationOf(body);
      && 0 < |c.name| <= 100 && 0 < |c.email| <= 100 && |c.password| >= 6
      && c.name <= Safe.Trim(OrElse(body.username, ""))
      && c.email <= Safe.Trim(OrElse(body.useremail, OrElse(body.email, "")))
      && !Safe.IsJsSpace(c.name[0]) && !Safe.IsJsSpace(c.email[0])
  {
    var c := RegistrationOf(body);
    var n := Safe.Trim(OrElse(body.username, ""));
    var e := Safe.Trim(OrElse(body.useremail, OrElse(body.email, "")));
    var _ := Safe.TrimShape(OrElse(body.username, ""));
    var _ := Safe.TrimShape(OrElse(body.useremail, OrElse(body.email, "")));
    assert c.name[0] == n[0];
    assert c.email[0] == e[0];
  }

  // ----- orderController.js: what a checkout does, as a function of the tables -----

  /** A checkout's reply together with the tables after it. */
  datatype Outcome = Outcome(reply: Reply, db: Db)

  /** The single row buyNow buys: the book's price and stock with the requested quantity. */
  function NowRow(d: Db, b: int, q: int): Row
    requires b in d.books
  {
    Row(b, q, d.books[b].price, d.books[b].stock)
  }

  /**
   * buyNow. A failing statement inside the transaction rolls it back, except
   * the order inserts, whose failures are swallowed.
   */
  function BuyNowOutcome(d: Db, userId: Option<int>, bookId: Option<int>, quantity: Option<int>, fails: Faults)
    : (o: Outcome)
    ensures !o.reply.Purchased? ==> o.db == d
    ensures o.reply.Purchased? ==>
      && Present(userId) && Present(bookId) && bookId.value in d.books
      && 0 < RequestedQuantity(quantity) <= d.books[bookId.value].stock
      && o.reply.total == d.books[bookId.value].price * RequestedQuantity(quantity)
  {
    var q := RequestedQuantity(quantity);
    if !Present(userId) || !Present(bookId) || q <= 0 then Outcome(MissingInput, d)
    else
      var u, b := userId.value, bookId.value;
      if fails(Begin) || fails(SelectBook(b)) then Outcome(ServerError, d)
      else if b !in d.books then Outcome(NotFound, d)
      else if d.books[b].stock < q then Outcome(InsufficientStock(None), d)
      else if fails(DecrementStock(b, q)) || fails(DeleteLine(u, b)) || fails(Commit) then Outcome(ServerError, d)
      else
        var total := d.books[b].price * q;
        var debited := d.(books := Decrement(d.books, b, q), cart := WithoutLine(d.cart, u, b));
        Outcome(Purchased(total), RecordOrder(debited, u, [NowRow(d, b, q)], total, fails))
  }

  /** Some stock update of buyCart's second loop fails. */
  predicate DebitFails(rows: seq<Row>, fails: Faults)
  {
    exists k :: 0 <= k < |rows| && fails(DecrementStock(rows[k].bookId, rows[k].quantity))
  }

  /** buyCart, with the same transaction behaviour as buyNow. */
  function BuyCartOutcome(d: Db, userId: Option<int>, fails: Faults): (o: Outcome)
    ensures !o.reply.Purchased? ==> o.db == d
    ensures o.reply.Purchased? ==>
      && Present(userId)
      && var rows := CartRows(d.cart, d.books, userId.value);
         |rows| > 0 && FirstShort(rows).None? && o.reply.total == RowsTotal(rows)
  {
    if !Present(userId) then Outcome(MissingInput, d)
    else
      var u := userId.value;
      var rows := CartRows(d.cart, d.books, u);
      if fails(Begin) || fails(SelectCart(u)) then Outcome(ServerError, d)
      else if |rows| == 0 then Outcome(EmptyCart, d)
      else if FirstShort(rows).Some? then Outcome(InsufficientStock(Some(rows[FirstShort(rows).value].bookId)), d)
      else if DebitFails(rows, fails) || fails(DeleteCartOf(u)) || fails(Commit) then Outcome(ServerError, d)
      else
        var total := RowsTotal(rows);
        var debited := d.(books := Debit(d.books, rows), cart := WithoutUser(d.cart, u));
        Outcome(Purchased(total), RecordOrder(debited, u, rows, total, fails))
  }

  /** buyNow keeps the tables consistent. */
  lemma BuyNowKeepsConsistent(d: Db, userId: Option<int>, bookId: Option<int>, quantity: Option<int>, fails: Faults)
    requires Consistent(d)
    ensures Consistent(BuyNowOutcome(d, userId, bookId, quantity, fails).db)
  {
    var o := BuyNowOutcome(d, userId, bookId, quantity, fails);
    if o.reply.Purchased? {
      var u, b, q := userId.value, bookId.value, RequestedQuantity(quantity);
      KeepKeysUnique(d.cart, (l: CartLine) => !IsKey(l, u, b));
      DebitConsistent(d, Decrement(d.books, b, q), WithoutLine(d.cart, u, b));
      RecordOrderConsistent(d.(books := Decrement(d.books, b, q), cart := WithoutLine(d.cart, u, b)),
                            u, [NowRow(d, b, q)], o.reply.total, fails);
    }
  }

  /** buyCart keeps the tables consistent. */
  lemma BuyCartKeepsConsistent(d: Db, userId: Option<int>, fails: Faults)
    requires Consistent(d)
    ensures Consistent(BuyCartOutcome(d, userId, fails).db)
  {
    var o := BuyCartOutcome(d, userId, fails);
    if o.reply.Purchased? {
      var u := userId.value;
      var rows := CartRows(d.cart, d.books, u);
      DebitStock(d.books, rows);
      KeepKeysUnique(d.cart, (l: CartLine) => l.userId != u);
      DebitConsistent(d, Debit(d.books, rows), WithoutUser(d.cart, u));
      RecordOrderConsistent(d.(books := Debit(d.books, rows), cart := WithoutUser(d.cart, u)),
                            u, rows, o.reply.total, fails);
    }
  }

  /**
   * The order buyNow's checks run in: invalid input, a failing read, a
   * missing book, short stock, and only then a purchase.
   */
  lemma BuyNowReplies(d: Db, userId: Option<int>, bookId: Option<int>, quantity: Option<int>, fails: Faults)
    ensures var o := BuyNowOutcome(d, userId, bookId, quantity, fails);
      var q := RequestedQuantity(quantity);
      var valid := Present(userId) && Present(bookId) && q > 0;
      var read := valid && !fails(Begin) && !fails(SelectBook(bookId.value));
      && (o.reply == MissingInput <==> !valid)
      && (o.reply == NotFound <==> read && bookId.value !in d.books)
      && (o.reply == InsufficientStock(None) <==> read && bookId.value in d.books && d.books[bookId.value].stock < q)
      && (o.reply.Purchased? <==>
            && read && bookId.value in d.books && q <= d.books[bookId.value].stock
            && !fails(DecrementStock(bookId.value, q)) && !fails(DeleteLine(userId.value, bookId.value))
            && !fails(Commit))
      && (o.reply.Purchased? || o.reply in {MissingInput, NotFound, InsufficientStock(None), ServerError})
  {
  }

  /**
   * A successful buyNow: the book loses exactly the quantity bought and stays
   * non-negative, no other book changes, the user's line for the book is gone
   * and every other line stays, the users are untouched, and the order is
   * recorded with the total and an item at the price of the time, unless its
   * inserts fail.
   */
  lemma BuyNowEffect(d: Db, userId: Option<int>, bookId: Option<int>, quantity: Option<int>, fails: Faults)
    requires BuyNowOutcome(d, userId, bookId, quantity, fails).reply.Purchased?
    ensures var o := BuyNowOutcome(d, userId, bookId, quantity, fails);
      var e, u, b, q := o.db, userId.value, bookId.value, RequestedQuantity(quantity);
      var item := OrderItem(d.nextOrderId, b, q, d.books[b].price);
      && e.books.Keys == d.books.Keys
      && e.books[b] == d.books[b].(stock := d.books[b].stock - q)
      && 0 <= e.books[b].stock < d.books[b].stock
      && (forall c :: c in d.books && c != b ==> e.books[c] == d.books[c])
      && !HasLine(e.cart, u, b)
      && (forall k :: 0 <= k < |d.cart| && !IsKey(d.cart[k], u, b) ==> d.cart[k] in e.cart)
      && Subseq(e.cart, d.cart)
      && e.users == d.users
      && (fails(InsertOrder(u, o.reply.total)) ==> e.orders == d.orders && e.items == d.items)
      && (!fails(InsertOrder(u, o.reply.total)) ==>
            && e.orders == d.orders + [Order(d.nextOrderId, u, o.reply.total)]
            && e.items == d.items + (if fails(InsertItem(item)) then [] else [item])
            && ItemsTotal([item]) == o.reply.total)
  {
    var u, b, q := userId.value, bookId.value, RequestedQuantity(quantity);
    var row := NowRow(d, b, q);
    assert ItemOf(d.nextOrderId, row) == OrderItem(d.nextOrderId, b, q, d.books[b].price);
    assert [row][..RecordedItems(d.nextOrderId, [row], fails)]
        == if fails(InsertItem(ItemOf(d.nextOrderId, row))) then [] else [row];
    assert ItemsTotal([ItemOf(d.nextOrderId, row)]) == ItemsTotal([]) + d.books[b].price * q;
  }

  /** buyCart's replies, in the order its checks run. */
  lemma BuyCartReplies(d: Db, userId: Option<int>, fails: Faults)
    ensures var o := BuyCartOutcome(d, userId, fails);
      && (o.reply == MissingInput <==> !Present(userId))
      && (Present(userId) ==>
            var u := userId.value;
            var rows := CartRows(d.cart, d.books, u);
            var read := !fails(Begin) && !fails(SelectCart(u));
            && (o.reply == EmptyCart <==> read && |rows| == 0)
            && (o.reply.InsufficientStock? <==> read && |rows| > 0 && FirstShort(rows).Some?)
            && (o.reply.Purchased? <==>
                  read && |rows| > 0 && FirstShort(rows).None? && !DebitFails(rows, fails)
                  && !fails(DeleteCartOf(u)) && !fails(Commit)))
  {
  }

  /**
   * buyCart reports the first of the user's lines whose book is short, in
   * table order; every line before it fits, and nothing changes.
   */
  lemma BuyCartShortLine(d: Db, userId: Option<int>, fails: Faults) returns (k: nat)
    requires BuyCartOutcome(d, userId, fails).reply.InsufficientStock?
    ensures var o := BuyCartOutcome(d, userId, fails);
      var rows := CartRows(d.cart, d.books, userId.value);
      && o.db == d
      && k < |rows| && o.reply.bookId == Some(rows[k].bookId)
      && rows[k].stock < rows[k].quantity
      && forall j :: 0 <= j < k ==> rows[j].quantity <= rows[j].stock
  {
    k := FirstShort(CartRows(d.cart, d.books, userId.value)).value;
  }

  /**
   * A successful buyCart's stock: each book loses exactly the quantity of
   * the user's line for it, books outside the cart keep theirs, and a book
   * that was bought does not go below zero.
   */
  lemma BuyCartStockEffect(d: Db, userId: Option<int>, fails: Faults)
    requires Consistent(d)
    requires BuyCartOutcome(d, userId, fails).reply.Purchased?
    ensures var e, u := BuyCartOutcome(d, userId, fails).db, userId.value;
      && e.books.Keys == d.books.Keys
      && (forall b :: b in d.books ==> e.books[b] == d.books[b].(stock := d.books[b].stock - QuantityIn(d.cart, u, b)))
      && (forall b :: b in d.books && !HasLine(d.cart, u, b) ==> e.books[b] == d.books[b])
      && (forall k :: 0 <= k < |d.cart| && d.cart[k].userId == u ==>
            e.books[d.cart[k].bookId].stock == d.books[d.cart[k].bookId].stock - d.cart[k].quantity >= 0)
  {
    BuyCartStock(d.cart, d.books, userId.value);
  }

  /**
   * A successful buyCart's carts: the user's cart is empty and every other
   * user's cart is as it was, in order; no user changes.
   */
  lemma BuyCartCartEffect(d: Db, userId: Option<int>, fails: Faults)
    requires BuyCartOutcome(d, userId, fails).reply.Purchased?
    ensures var e, u := BuyCartOutcome(d, userId, fails).db, userId.value;
      && LinesOf(e.cart, u) == []
      && (forall v :: v != u ==> LinesOf(e.cart, v) == LinesOf(d.cart, v))
      && e.users == d.users
  {
    var u := userId.value;
    var e := BuyCartOutcome(d, userId, fails).db;
    assert e.cart == WithoutUser(d.cart, u);
    forall v | v != u ensures LinesOf(e.cart, v) == LinesOf(d.cart, v) {
      WithoutUserKeepsOthers(d.cart, u, v);
    }
    WithoutUserKeepsOthers(d.cart, u, u + 1);
  }

  /**
   * A successful buyCart's order: unless its insert fails, one order with
   * the total, one item per line up to the first failing insert, and when
   * every insert succeeds the items add up to the total returned.
   */
  lemma BuyCartOrderEffect(d: Db, userId: Option<int>, fails: Faults)
    requires BuyCartOutcome(d, userId, fails).reply.Purchased?
    ensures var o := BuyCartOutcome(d, userId, fails);
      var e, u := o.db, userId.value;
      var rows := CartRows(d.cart, d.books, u);
      && (fails(InsertOrder(u, o.reply.total)) ==> e.orders == d.orders && e.items == d.items)
      && (!fails(InsertOrder(u, o.reply.total)) ==>
            && e.orders == d.orders + [Order(d.nextOrderId, u, o.reply.total)]
            && |e.items| == |d.items| + RecordedItems(d.nextOrderId, rows, fails)
            && (RecordedItems(d.nextOrderId, rows, fails) == |rows| ==>
                  ItemsTotal(e.items[|d.items|..]) == o.reply.total))
  {
    var o := BuyCartOutcome(d, userId, fails);
    var u := userId.value;
    var rows := CartRows(d.cart, d.books, u);
    if !fails(InsertOrder(u, o.reply.total)) && RecordedItems(d.nextOrderId, rows, fails) == |rows| {
      assert rows[..|rows|] == rows;
      assert o.db.items[|d.items|..] == ItemsFor(d.nextOrderId, rows);
      ItemsAddUp(d.nextOrderId, rows);
    }
  }

  /** A database that accepts every statement. */
  function NoFaults(s: Statement): bool
  {
    false
  }

  /** The order inserts of BuyCartExample, none of which fails. */
  lemma DuneRecord()
    ensures var rows := [Row(101, 3, 1099, 5)];
      var e := RecordOrder(Db(map[101 := Book(None, "Dune", "Herbert", 1099, 2)], 102, [],
                              map[7 := User("ann", "ann@example.com", "hash")], 8, [], [], 1), 7, rows, 3297, NoFaults);
      e.orders == [Order(1, 7, 3297)] && e.items == [OrderItem(1, 101, 3, 1099)]
  {
    var rows := [Row(101, 3, 1099, 5)];
    assert RecordedItems(1, rows, NoFaults) == 1 by {
      assert rows[1..] == [];
    }
    assert rows[..1] == rows;
  }

  /** The join, the stock check, the total and the debit of BuyCartExample. */
  lemma DuneJoinAndDebit()
    ensures var rows := [Row(101, 3, 1099, 5)];
      && CartRows([CartLine(7, 101, 3)], map[101 := Book(None, "Dune", "Herbert", 1099, 5)], 7) == rows
      && FirstShort(rows).None? && RowsTotal(rows) == 3297
      && Debit(map[101 := Book(None, "Dune", "Herbert", 1099, 5)], rows) == map[101 := Book(None, "Dune", "Herbert", 1099, 2)]
  {
    var cart := [CartLine(7, 101, 3)];
    var rows := [Row(101, 3, 1099, 5)];
    assert cart[..0] == [];
    assert rows[1..] == [];
    assert rows[..0] == [];
  }

  /** The join, the stock check, the total and the debit of BuyCartNegativeLine. */
  lemma EmmaJoinAndDebit()
    ensures var rows := [Row(5, -2, 1000, 0)];
      && CartRows([CartLine(3, 5, -2)], map[5 := Book(None, "Emma", "Austen", 1000, 0)], 3) == rows
      && FirstShort(rows).None? && RowsTotal(rows) == -2000
      && Debit(map[5 := Book(None, "Emma", "Austen", 1000, 0)], rows)[5].stock == 2
  {
    var cart := [CartLine(3, 5, -2)];
    var rows := [Row(5, -2, 1000, 0)];
    assert cart[..0] == [];
    assert rows[1..] == [];
    assert rows[..0] == [];
  }

  /**
   * A cart of three copies of a book at 10.99 with five in stock: buyCart
   * charges 32.97, leaves two in stock, empties the cart and records one
   * order with one item at the price of the time.
   */
  lemma BuyCartExample()
    ensures var d := Db(map[101 := Book(None, "Dune", "Herbert", 1099, 5)], 102, [CartLine(7, 101, 3)],
                        map[7 := User("ann", "ann@example.com", "hash")], 8, [], [], 1);
      var o := BuyCartOutcome(d, Some(7), NoFaults);
      && o.reply == Purchased(3297)
      && o.db.books[101].stock == 2
      && o.db.cart == []
      && o.db.orders == [Order(1, 7, 3297)]
      && o.db.items == [OrderItem(1, 101, 3, 1099)]
  {
    var d := Db(map[101 := Book(None, "Dune", "Herbert", 1099, 5)], 102, [CartLine(7, 101, 3)],
                map[7 := User("ann", "ann@example.com", "hash")], 8, [], [], 1);
    var rows := [Row(101, 3, 1099, 5)];
    DuneJoinAndDebit();
    assert WithoutUser(d.cart, 7) == [];
    DuneRecord();
    var e := RecordOrder(d.(books := Debit(d.books, rows), cart := []), 7, rows, 3297, NoFaults);
    assert BuyCartOutcome(d, Some(7), NoFaults) == Outcome(Purchased(3297), e);
  }


  /**
   * updateCart stores any quantity, and buyCart's stock check lets a
   * negative one through: a line of -2 for a book out of stock is "bought",
   * the stock goes up to 2 and the total is negative. With the schema as
   * created no order is recorded.
   */
  lemma BuyCartNegativeLine()
    ensures var d := Db(map[5 := Book(None, "Emma", "Austen", 1000, 0)], 6, [CartLine(3, 5, -2)],
                        map[3 := User("cy", "cy@example.com", "hash")], 4, [], [], 1);
      var o := BuyCartOutcome(d, Some(3), SchemaAsCreated);
      && o.reply == Purchased(-2000)
      && o.db.books[5].stock == 2
      && o.db.orders == [] && o.db.items == []
  {
    var d := Db(map[5 := Book(None, "Emma", "Austen", 1000, 0)], 6, [CartLine(3, 5, -2)],
                map[3 := User("cy", "cy@example.com", "hash")], 4, [], [], 1);
    var rows := [Row(5, -2, 1000, 0)];
    EmmaJoinAndDebit();
    RecordOrderUnderSchema(d.(books := Debit(d.books, rows), cart := WithoutUser(d.cart, 3)), 3, rows, -2000);
  }

  /** Two copies of a book with one in stock: buyNow refuses and changes nothing. */
  lemma BuyNowShortExample(fails: Faults)
    requires !fails(Begin) && !fails(SelectBook(103))
    ensures var d := Db(map[103 := Book(None, "Emma", "Austen", 3000, 1)], 104, [],
                        map[9 := User("bo", "bo@example.com", "hash")], 10, [], [], 1);
      var o := BuyNowOutcome(d, Some(9), Some(103), Some(2), fails);
      o.reply == InsufficientStock(None) && o.db == d && o.db.books[103].stock == 1 && o.db.orders == []
  {
  }

  // ----- the loops of buyCart and the order inserts, on values -----

  /** buyCart's first loop: the index of the first row whose stock is short. */
  method FindShort(rows: seq<Row>) returns (short: Option<nat>)
    ensures short == FirstShort(rows)
  {
    var i := 0;
    while i < |rows|
      invariant 0 <= i <= |rows|
      invariant forall k :: 0 <= k < i ==> rows[k].quantity <= rows[k].stock
    {
      if rows[i].stock < rows[i].quantity {
        ShortestFirst(rows, i);
        return Some(i);
      }
      i := i + 1;
    }
    short := None;
  }

  /**
   * buyCart's second loop: one stock update per row, accumulating the total;
   * `ok` is false when an update fails, and the transaction is then rolled back.
   */
  method DebitAll(books: map<int, Book>, rows: seq<Row>, fails: Faults)
    returns (ok: bool, newBooks: map<int, Book>, total: int)
    ensures ok <==> !DebitFails(rows, fails)
    ensures ok ==> newBooks == Debit(books, rows) && total == RowsTotal(rows)
  {
    newBooks, total := books, 0;
    var i := 0;
    while i < |rows|
      invariant 0 <= i <= |rows|
      invariant newBooks == Debit(books, rows[..i])
      invariant total == RowsTotal(rows[..i])
      invariant forall k :: 0 <= k < i ==> !fails(DecrementStock(rows[k].bookId, rows[k].quantity))
    {
      if fails(DecrementStock(rows[i].bookId, rows[i].quantity)) {
        return false, books, 0;
      }
      assert rows[..i + 1][..i] == rows[..i];
      newBooks := Decrement(newBooks, rows[i].bookId, rows[i].quantity);
      total := total + rows[i].price * rows[i].quantity;
      i := i + 1;
    }
    assert rows[..|rows|] == rows;
    ok := true;
  }

  /**
   * The order inserts of both checkouts, inside their own try/catch: the
   * order row, then one item per row until an insert fails. The items
   * written before the failure stay; the failure itself is swallowed.
   */
  method RecordOrderRows(d: Db, u: int, rows: seq<Row>, total: int, fails: Faults) returns (e: Db)
    ensures e == RecordOrder(d, u, rows, total, fails)
  {
    if fails(InsertOrder(u, total)) { return d; }
    var orderId := d.nextOrderId;
    var written := [];
    var i := 0;
    while i < |rows| && !fails(InsertItem(ItemOf(orderId, rows[i])))
      invariant 0 <= i <= |rows|
      invariant forall k :: 0 <= k < i ==> !fails(InsertItem(ItemOf(orderId, rows[k])))
      invariant written == ItemsFor(orderId, rows[..i])
    {
      assert ItemsFor(orderId, rows[..i + 1]) == ItemsFor(orderId, rows[..i]) + [ItemOf(orderId, rows[i])];
      written := written + [ItemOf(orderId, rows[i])];
      i := i + 1;
    }
    RecordedItemsAt(orderId, rows, fails, i);
    e := d.(orders := d.orders + [Order(orderId, u, total)], items := d.items + written,
            nextOrderId := orderId + 1);
  }

  class BookStore {
    var books: map<int, Book>
    var nextBookId: int
    var cart: seq<CartLine>
    var users: map<int, User>
    var nextUserId: int
    var orders: seq<Order>
    var items: seq<OrderItem>
    var nextOrderId: int

    /** All tables as one value. */
    function State(): Db
      reads this
    {
      Db(books, nextBookId, cart, users, nextUserId, orders, items, nextOrderId)
    }

    ghost predicate Valid()
      reads this
    {
      Consistent(State())
    }

    /** Empty tables, every AUTO_INCREMENT counter at 1. */
    constructor ()
      ensures Valid()
      ensures State() == Db(map[], 1, [], map[], 1, [], [], 1)
    {
      books, nextBookId, cart := map[], 1, [];
      users, nextUserId := map[], 1;
      orders, items, nextOrderId := [], [], 1;
    }

    // ----- cartController.js -----

    /** addToCart: one more copy of a book in the user's cart. */
    method AddToCart(userId: Option<int>, bookId: Option<int>) returns (reply: Reply)
      requires Valid()
      modifies this
      ensures Valid()
      ensures State() == old(State()).(cart := cart)
      ensures !Present(userId) || !Present(bookId) ==> reply == MissingInput && cart == old(cart)
      ensures Present(userId) && Present(bookId) ==>
        var u, b := userId.value, bookId.value;
        if b !in old(books) then reply == NotFound && cart == old(cart)
        else if HasLine(old(cart), u, b) then reply == Ok && cart == Incremented(old(cart), u, b)
        else if u !in old(users) then reply == ServerError && cart == old(cart)
        else reply == Ok && cart == old(cart) + [CartLine(u, b, 1)]
    {
      if !Present(userId) { return MissingInput; }
      if !Present(bookId) { return MissingInput; }
      var u, b := userId.value, bookId.value;
      if b !in books { return NotFound; }
      if HasLine(cart, u, b) {
        AddKeepsKeysUnique(cart, u, b);
        cart := Incremented(cart, u, b);
      } else {
        // the INSERT violates the foreign key on user_id
        if u !in users { return ServerError; }
        AddKeepsKeysUnique(cart, u, b);
        cart := cart + [CartLine(u, b, 1)];
      }
      reply := Ok;
    }

    /** updateCart: set the quantity of the (user, book) line, whatever the value. */
    method UpdateCart(userId: Option<int>, bookId: Option<int>, quantity: Option<int>) returns (reply: Reply)
      requires Valid()
      modifies this
      ensures Valid()
      ensures State() == old(State()).(cart := cart)
      ensures !Present(userId) || !Present(bookId) || quantity.None? ==> reply == MissingInput && cart == old(cart)
      ensures Present(userId) && Present(bookId) && quantity.Some? ==>
        reply == Ok && cart == WithQuantity(old(cart), userId.value, bookId.value, quantity.value)
      ensures !HasLine(old(cart), userId.GetOr(0), bookId.GetOr(0)) ==> cart == old(cart)
    {
      if !Present(userId) || !Present(bookId) || quantity.None? {
        return MissingInput;
      }
      WithQuantityKeepsKeys(cart, userId.value, bookId.value, quantity.value);
      cart := WithQuantity(cart, userId.value, bookId.value, quantity.value);
      reply := Ok;
    }

    /** deleteCart: remove the (user, book) line if there is one. */
    method DeleteCart(userId: Option<int>, bookId: Option<int>) returns (reply: Reply)
      requires Valid()
      modifies this
      ensures Valid()
      ensures State() == old(State()).(cart := cart)
      ensures !Present(userId) || !Present(bookId) ==> reply == MissingInput && cart == old(cart)
      ensures Present(userId) && Present(bookId) ==>
        reply == Ok && cart == WithoutLine(old(cart), userId.value, bookId.value)
    {
      if !Present(userId) || !Present(bookId) {
        return MissingInput;
      }
      KeepKeysUnique(cart, (l: CartLine) => !IsKey(l, userId.value, bookId.value));
      cart := WithoutLine(cart, userId.value, bookId.value);
      reply := Ok;
    }

    // ----- booksController.js -----

    /** addBooks: a new row, unless a book with that title exists. */
    method AddBooks(f: BookFields) returns (reply: Reply)
      requires Valid()
      modifies this
      ensures Valid()
      ensures f.title.Some? && WithTitle(old(books), f.title.value) != map[] ==>
        reply == AlreadyExists && State() == old(State())
      ensures (f.title.None? || WithTitle(old(books), f.title.value) == map[]) && !Complete(f) ==>
        reply == ServerError && State() == old(State())
      ensures (f.title.None? || WithTitle(old(books), f.title.value) == map[]) && Complete(f) ==>
        && reply == Ok
        && old(nextBookId) !in old(books)
        && State() == old(State()).(books := old(books)[old(nextBookId) := ToBook(f)], nextBookId := old(nextBookId) + 1)
    {
      // `WHERE title = NULL` matches no row
      if f.title.Some? && WithTitle(books, f.title.value) != map[] {
        return AlreadyExists;
      }
      // a NULL in a NOT NULL column makes the INSERT fail
      if !Complete(f) { return ServerError; }
      books := books[nextBookId := ToBook(f)];
      nextBookId := nextBookId + 1;
      reply := Ok;
    }

    /** editBook: overwrite all five columns of the row with that id. */
    method EditBook(bookId: int, f: BookFields) returns (reply: Reply)
      requires Valid()
      modifies this
      ensures Valid()
      ensures bookId !in old(books) ==> reply == NotFound && State() == old(State())
      ensures bookId in old(books) && !Complete(f) ==> reply == ServerError && State() == old(State())
      ensures bookId in old(books) && Complete(f) ==>
        reply == Ok && State() == old(State()).(books := old(books)[bookId := ToBook(f)])
    {
      if bookId !in books { return NotFound; }
      if !Complete(f) { return ServerError; }
      books := books[bookId := ToBook(f)];
      reply := Ok;
    }

    // ----- userController.js -----

    /** userRegister: validate, refuse a known email, insert the user with the given password hash. */
    method UserRegister(body: RegisterBody, hashed: string) returns (reply: Reply)
      requires Valid()
      modifies this
      ensures Valid()
      ensures var c := RegistrationOf(body);
        if !Acceptable(c) then reply == MissingInput && State() == old(State())
        else if EmailTaken(old(users), c.email) then
          reply == AlreadyExists && State() == old(State())
        else
          && reply == Ok
          && old(nextUserId) !in old(users)
          && State() == old(State()).(users := old(users)[old(nextUserId) := User(c.name, c.email, hashed)],
                                      nextUserId := old(nextUserId) + 1)
    {
      var c := RegistrationOf(body);
      if !Acceptable(c) { return MissingInput; }
      if EmailTaken(users, c.email) {
        return AlreadyExists;
      }
      var d, x := State(), User(c.name, c.email, hashed);
      InsertUserConsistent(d, x);
      Install(d.(users := d.users[d.nextUserId := x], nextUserId := d.nextUserId + 1));
      reply := Ok;
    }

    /**
     * userLogin: find the user by email and check the password against the
     * stored hash with `matches` (bcrypt.compare); token issuing is not modelled.
     */
    method UserLogin(body: LoginBody, matches: (string, string) -> bool) returns (reply: Reply)
      requires Valid()
      ensures var c := LoginOf(body);
        && (c.email == "" || c.password == "" ==> reply == MissingInput)
        && (reply.LoggedIn? <==>
              c.email != "" && c.password != ""
              && exists id :: id in users && users[id].email == c.email && matches(c.password, users[id].passwordHash))
        && (reply.LoggedIn? ==> reply.userId in users && users[reply.userId].email == c.email
                                && reply.username == users[reply.userId].name)
        && (!reply.LoggedIn? && c.email != "" && c.password != "" ==> reply == InvalidCredentials)
    {
      var c := LoginOf(body);
      if c.email == "" || c.password == "" { return MissingInput; }
      if !exists id :: id in users && users[id].email == c.email {
        return InvalidCredentials;
      }
      var id :| id in users && users[id].email == c.email;
      if !matches(c.password, users[id].passwordHash) {
        return InvalidCredentials;
      }
      reply := LoggedIn(id, users[id].name);
    }
    /** Replace every table at the commit of a transaction. */
    method Install(e: Db)
      modifies this
      ensures State() == e
    {
      books, nextBookId, cart := e.books, e.nextBookId, e.cart;
      users, nextUserId := e.users, e.nextUserId;
      orders, items, nextOrderId := e.orders, e.items, e.nextOrderId;
    }

    // ----- orderController.js -----

    /**
     * buyNow: buy `quantity` copies of one book. Inside the transaction: read
     * the book, check its stock, decrement it, delete the user's cart line for
     * it, then try to record the order and its one item.
     */
    method BuyNow(userId: Option<int>, bookId: Option<int>, quantity: Option<int>, fails: Faults)
      returns (reply: Reply)
      requires Valid()
      modifies this
      ensures Valid()
      ensures Outcome(reply, State()) == BuyNowOutcome(old(State()), userId, bookId, quantity, fails)
    {
      var q := RequestedQuantity(quantity);
      if !Present(userId) || !Present(bookId) || q <= 0 { return MissingInput; }
      var u, b := userId.value, bookId.value;
      if fails(Begin) || fails(SelectBook(b)) { return ServerError; }
      if b !in books { return NotFound; }
      if books[b].stock < q { return InsufficientStock(None); }
      if fails(DecrementStock(b, q)) || fails(DeleteLine(u, b)) { return ServerError; }

      var d := State();
      var total := books[b].price * q;
      var debited := d.(books := Decrement(books, b, q), cart := WithoutLine(cart, u, b));
      var e := RecordOrderRows(debited, u, [NowRow(d, b, q)], total, fails);
      if fails(Commit) { return ServerError; }
      BuyNowKeepsConsistent(d, userId, bookId, quantity, fails);
      Install(e);
      reply := Purchased(total);
    }

    /**
     * buyCart: buy every line of the user's cart. All lines are checked
     * against their book's stock before any stock is decremented; then each
     * book's stock is decremented and the total accumulated, the user's cart
     * is deleted, and the order and one item per line are recorded.
     */
    method BuyCart(userId: Option<int>, fails: Faults) returns (reply: Reply)
      requires Valid()
      modifies this
      ensures Valid()
      ensures Outcome(reply, State()) == BuyCartOutcome(old(State()), userId, fails)
    {
      if !Present(userId) { return MissingInput; }
      var u := userId.value;
      if fails(Begin) || fails(SelectCart(u)) { return ServerError; }
      var rows := CartRows(cart, books, u);
      if |rows| == 0 { return EmptyCart; }
      var short := FindShort(rows);
      if short.Some? { return InsufficientStock(Some(rows[short.value].bookId)); }
      var ok, newBooks, total := DebitAll(books, rows, fails);
      if !ok || fails(DeleteCartOf(u)) { return ServerError; }

      var d := State();
      var debited := d.(books := newBooks, cart := WithoutUser(cart, u));
      var e := RecordOrderRows(debited, u, rows, total, fails);
      if fails(Commit) { return ServerError; }
      BuyCartKeepsConsistent(d, userId, fails);
      Install(e);
      reply := Purchased(total);
    }
  }
}
