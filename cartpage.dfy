/**
 * The cart page of frontend/src/pages/Cart.jsx: the total shown to the
 * user, and the new lists the page computes after a delete, a quantity
 * button, a typed quantity and a purchase. The requests themselves, the
 * confirmation dialogs and the re-fetch after a failed update are inputs.
 */
module CartPage {
  import opened Wrappers
  import opened Seqs
  import Tables

  /** A cart row as the page holds it; prices in cents, any field may be absent. */
  datatype Entry = Entry(userId: Option<int>, bookId: Option<int>, price: Option<int>, quantity: Option<int>)

  /** `x || y` on numbers. */
  function OrElse(x: Option<int>, y: Option<int>): (r: Option<int>)
    ensures Present(x) ==> r == x
    ensures !Present(x) ==> r == y
  {
    if Present(x) then x else y
  }

  /** `Number(b.quantity || 1)`: a missing or zero quantity counts as 1. */
  function Qty(q: Option<int>): (r: int)
    ensures r != 0
    ensures Present(q) ==> r == q.value
    ensures !Present(q) ==> r == 1
  {
    if Present(q) then q.value else 1
  }

  /** `Number(b.price || 0)`. */
  function Price(p: Option<int>): int
  {
    p.GetOr(0)
  }

  /** `carts.reduce((sum, b) => sum + price * quantity, 0)`, from the left. */
  function TotalPrice(carts: seq<Entry>): (r: int)
    ensures |carts| == 1 ==> r == Price(carts[0].price) * Qty(carts[0].quantity)
    ensures (forall k :: 0 <= k < |carts| ==> carts[k].price.None?) ==> r == 0
  {
    if |carts| == 0 then 0
    else
      var last := carts[|carts| - 1];
      TotalPrice(carts[..|carts| - 1]) + Price(last.price) * Qty(last.quantity)
  }

  /** The total of two lists one after the other is the sum of their totals. */
  lemma {:induction false} TotalPriceAppend(a: seq<Entry>, b: seq<Entry>)
    ensures TotalPrice(a + b) == TotalPrice(a) + TotalPrice(b)
    decreases |b|
  {
    if |b| > 0 {
      var n := |b| - 1;
      assert (a + b)[..|a + b| - 1] == a + b[..n];
      TotalPriceAppend(a, b[..n]);
    } else {
      assert a + b == a;
    }
  }

  /** With no negative prices or quantities, the total is not negative. */
  lemma {:induction false} TotalPriceNonNegative(carts: seq<Entry>)
    requires forall k :: 0 <= k < |carts| ==> Price(carts[k].price) >= 0 && Qty(carts[k].quantity) >= 0
    ensures TotalPrice(carts) >= 0
  {
    if |carts| > 0 {
      TotalPriceNonNegative(carts[..|carts| - 1]);
    }
  }

  /** The page's list for the rows the checkout buys from (user u's lines joined with their books). */
  function EntriesOf(u: int, rows: seq<Tables.Row>): (r: seq<Entry>)
    ensures |r| == |rows|
  {
    seq(|rows|, k requires 0 <= k < |rows| => Entry(Some(u), Some(rows[k].bookId), Some(rows[k].price), Some(rows[k].quantity)))
  }

  /**
   * The total the page asks the user to confirm is what buyCart charges for
   * the same rows, as long as no line has quantity 0 (the page counts such a
   * line as 1, the checkout as 0).
   */
  lemma {:induction false} TotalPriceIsCheckoutTotal(u: int, rows: seq<Tables.Row>)
    requires forall k :: 0 <= k < |rows| ==> rows[k].quantity != 0
    ensures TotalPrice(EntriesOf(u, rows)) == Tables.RowsTotal(rows)
  {
    if |rows| > 0 {
      var n := |rows| - 1;
      assert EntriesOf(u, rows)[..n] == EntriesOf(u, rows[..n]);
      TotalPriceIsCheckoutTotal(u, rows[..n]);
    }
  }

  /** A zero-quantity line is where the two totals part: the page shows its price once. */
  lemma ZeroQuantityLine(u: int, r: Tables.Row)
    requires r.quantity == 0
    ensures TotalPrice(EntriesOf(u, [r])) == r.price
    ensures Tables.RowsTotal([r]) == 0
  {
    assert EntriesOf(u, [r])[..0] == [];
    assert [r][..0] == [];
  }

  // ----- the list after each action -----

  /** The entry is the (user, book) line (loose or strict equality on numbers alike). */
  predicate IsLine(it: Entry, userId: Option<int>, bookId: Option<int>)
  {
    it.userId == userId && it.bookId == bookId
  }

  /**
   * deleteCart: with the removal confirmed, both ids present and the DELETE
   * answered with success, the list drops every entry of that (user, book);
   * otherwise it stays as it was.
   */
  function AfterDelete(carts: seq<Entry>, cart: Entry, resolvedUser: Option<int>, confirmed: bool, deleted: bool)
    : (r: seq<Entry>)
    ensures var u := OrElse(cart.userId, resolvedUser);
      if !confirmed || !Present(u) || !Present(cart.bookId) || !deleted then r == carts
      else
        && Subseq(r, carts)
        && (forall k :: 0 <= k < |r| ==> !IsLine(r[k], u, cart.bookId))
        && (forall k :: 0 <= k < |carts| && !IsLine(carts[k], u, cart.bookId) ==> carts[k] in r)
        && (forall e :: !IsLine(e, u, cart.bookId) ==> multiset(r)[e] == multiset(carts)[e])
  {
    var u := OrElse(cart.userId, resolvedUser);
    if !confirmed || !Present(u) || !Present(cart.bookId) || !deleted then carts
    else
      KeepCounts(carts, (it: Entry) => !IsLine(it, u, cart.bookId));
      Keep(carts, (it: Entry) => !IsLine(it, u, cart.bookId))
  }

  /** Removing the lines of one (user, book) lowers the total by exactly their share. */
  lemma {:induction false} DeleteLowersTotal(carts: seq<Entry>, u: Option<int>, b: Option<int>)
    ensures TotalPrice(Keep(carts, (it: Entry) => !IsLine(it, u, b)))
         == TotalPrice(carts) - TotalPrice(Keep(carts, (it: Entry) => IsLine(it, u, b)))
    decreases |carts|
  {
    if |carts| > 0 {
      var n := |carts| - 1;
      var last := carts[n];
      assert carts == carts[..n] + [last];
      KeepAppend(carts[..n], [last], (it: Entry) => !IsLine(it, u, b));
      KeepAppend(carts[..n], [last], (it: Entry) => IsLine(it, u, b));
      DeleteLowersTotal(carts[..n], u, b);
      TotalPriceAppend(Keep(carts[..n], (it: Entry) => !IsLine(it, u, b)), Keep([last], (it: Entry) => !IsLine(it, u, b)));
      TotalPriceAppend(Keep(carts[..n], (it: Entry) => IsLine(it, u, b)), Keep([last], (it: Entry) => IsLine(it, u, b)));
      assert TotalPrice([last]) == Price(last.price) * Qty(last.quantity) by {
        assert [last][..0] == [];
      }
    }
  }

  /** Set the quantity of the matching entries, leaving every other entry as it is. */
  function SetQuantity(carts: seq<Entry>, userId: Option<int>, bookId: Option<int>, q: int): (r: seq<Entry>)
    ensures |r| == |carts|
    ensures forall k :: 0 <= k < |r| && !IsLine(carts[k], userId, bookId) ==> r[k] == carts[k]
    ensures forall k :: 0 <= k < |r| && IsLine(carts[k], userId, bookId) ==>
      r[k].quantity == Some(q) && r[k].(quantity := carts[k].quantity) == carts[k]
  {
    seq(|carts|, k requires 0 <= k < |carts| =>
      if IsLine(carts[k], userId, bookId) then carts[k].(quantity := Some(q)) else carts[k])
  }

  /**
   * updateQuantity's optimistic update: a quantity below 1 or a missing id
   * leaves the list alone; otherwise the matching entries get the new
   * quantity. The rollback by re-fetching after a failed PUT is an input
   * of the page, not modelled.
   */
  function UpdateQuantity(carts: seq<Entry>, item: Entry, newQty: int, resolvedUser: Option<int>): (r: seq<Entry>)
    ensures newQty < 1 ==> r == carts
    ensures !Present(OrElse(item.userId, resolvedUser)) || !Present(item.bookId) ==> r == carts
    ensures |r| == |carts|
    ensures forall k :: 0 <= k < |r| && r[k] != carts[k] ==>
      newQty >= 1 && IsLine(carts[k], OrElse(item.userId, resolvedUser), item.bookId)
      && r[k] == carts[k].(quantity := Some(newQty))
    ensures newQty >= 1 && Present(OrElse(item.userId, resolvedUser)) && Present(item.bookId) ==>
      forall k :: 0 <= k < |r| && IsLine(carts[k], OrElse(item.userId, resolvedUser), item.bookId) ==>
        r[k] == carts[k].(quantity := Some(newQty))
  {
    if newQty < 1 then carts
    else
      var u := OrElse(item.userId, resolvedUser);
      if !Present(u) || !Present(item.bookId) then carts
      else SetQuantity(carts, u, item.bookId, newQty)
  }

  /**
   * handleQtyInput: `Math.max(1, Number(value || 1))` for a typed whole
   * number (None for the empty box), written into the entries of the item's
   * (user, book), whatever ids it has.
   */
  function TypedQuantity(value: Option<int>): (v: int)
    ensures v >= 1
    ensures value.Some? && value.value >= 1 ==> v == value.value
  {
    var n := if value.Some? then value.value else 1;
    if n < 1 then 1 else n
  }

  function HandleQtyInput(carts: seq<Entry>, item: Entry, value: Option<int>): (r: seq<Entry>)
    ensures |r| == |carts|
    ensures forall k :: 0 <= k < |r| ==> Qty(r[k].quantity) >= 1 || r[k] == carts[k]
    ensures forall k :: 0 <= k < |r| && !IsLine(carts[k], item.userId, item.bookId) ==> r[k] == carts[k]
    ensures forall k :: 0 <= k < |r| && IsLine(carts[k], item.userId, item.bookId) ==>
      r[k] == carts[k].(quantity := Some(TypedQuantity(value)))
  {
    SetQuantity(carts, item.userId, item.bookId, TypedQuantity(value))
  }

  /** Every entry shows a quantity of at least 1. */
  predicate QuantitiesPositive(carts: seq<Entry>)
  {
    forall k :: 0 <= k < |carts| ==> Qty(carts[k].quantity) >= 1
  }

  /** The page's own edits never bring a quantity below 1. */
  lemma EditsKeepQuantitiesPositive(carts: seq<Entry>, item: Entry, newQty: int, resolvedUser: Option<int>,
                                    value: Option<int>, confirmed: bool, deleted: bool)
    requires QuantitiesPositive(carts)
    ensures QuantitiesPositive(UpdateQuantity(carts, item, newQty, resolvedUser))
    ensures QuantitiesPositive(HandleQtyInput(carts, item, value))
    ensures QuantitiesPositive(AfterDelete(carts, item, resolvedUser, confirmed, deleted))
  {
    var r := AfterDelete(carts, item, resolvedUser, confirmed, deleted);
    forall k | 0 <= k < |r| ensures Qty(r[k].quantity) >= 1 {
      var i :| 0 <= i < |carts| && carts[i] == r[k];
    }
  }

  /** What a click on "buy all" does. */
  datatype BuyAllStep = BuyAllStep(sent: bool, toLogin: bool, carts: seq<Entry>)

  /**
   * buyAll: nothing for an empty list, the login page without a user,
   * nothing when the dialog is declined; otherwise the buy-cart request is
   * sent, and the list is emptied when it succeeds and kept when it fails.
   */
  function BuyAll(carts: seq<Entry>, userId: Option<int>, confirmed: bool, purchased: bool): (r: BuyAllStep)
    ensures |carts| == 0 ==> !r.sent && !r.toLogin && r.carts == carts
    ensures r.sent <==> |carts| > 0 && Present(userId) && confirmed
    ensures r.toLogin <==> |carts| > 0 && !Present(userId)
    ensures r.sent && purchased ==> r.carts == []
    ensures !(r.sent && purchased) ==> r.carts == carts
  {
    if |carts| == 0 then BuyAllStep(false, false, carts)
    else if !Present(userId) then BuyAllStep(false, true, carts)
    else if !confirmed then BuyAllStep(false, false, carts)
    else BuyAllStep(true, false, if purchased then [] else carts)
  }
}
