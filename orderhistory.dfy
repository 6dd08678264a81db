/**
 * The order-history page of frontend/src/pages/OrderHistory.jsx: the search
 * filter over the loaded orders, the pagination of the filtered list into
 * pages of eight, the Prev/Next buttons and the query box that move between
 * pages, and the guard in front of a reorder. Loading, rendering and the
 * requests a reorder sends are not modelled.
 */
module OrderHistory {
  import opened Wrappers
  import opened Seqs

  const PageSize: nat := 8

  /** The fields of an order item the page reads. */
  datatype HistoryItem = HistoryItem(
    title: Option<string>, author: Option<string>,
    bookId: Option<int>, book_id: Option<int>, id: Option<int>)

  /** An order as the history endpoint returns it; `items` may be absent. */
  datatype HistoryOrder = HistoryOrder(id: nat, items: Option<seq<HistoryItem>>)

  // ----- strings -----

  /** `String(n)` for a non-negative integer: its decimal digits. */
  function NatToString(n: nat): (s: string)
    ensures |s| >= 1
    ensures forall k :: 0 <= k < |s| ==> '0' <= s[k] <= '9'
    ensures n < 10 ==> |s| == 1
    decreases n
  {
    var d := ['0' + (n % 10) as char];
    if n < 10 then d else NatToString(n / 10) + d
  }

  /** `toLowerCase` on the letters A to Z; every other character stays. */
  function LowerChar(c: char): char
  {
    if 'A' <= c <= 'Z' then (c as int + 32) as char else c
  }

  function Lower(s: string): string
  {
    seq(|s|, k requires 0 <= k < |s| => LowerChar(s[k]))
  }

  /** Lower-casing twice is lower-casing once. */
  lemma LowerIdempotent(s: string)
    ensures Lower(Lower(s)) == Lower(s)
    ensures |Lower(s)| == |s|
    ensures Lower(s) == "" <==> s == ""
  {
    forall k | 0 <= k < |s| ensures LowerChar(LowerChar(s[k])) == LowerChar(s[k]) {
    }
  }

  /** A string of digits has nothing to lower-case. */
  lemma {:induction false} LowerDigits(s: string)
    requires forall k :: 0 <= k < |s| ==> '0' <= s[k] <= '9'
    ensures Lower(s) == s
  {
  }

  /** `s.includes(q)`: q occurs in s at some position. */
  predicate Contains(s: string, q: string)
    decreases |s|
  {
    q <= s || (|s| > 0 && Contains(s[1..], q))
  }

  /** An occurrence at position i makes `includes` true. */
  lemma {:induction false} ContainsAt(s: string, q: string, i: nat)
    requires i + |q| <= |s| && s[i..i + |q|] == q
    ensures Contains(s, q)
  {
    if i > 0 {
      assert s[1..][i - 1..i - 1 + |q|] == s[i..i + |q|];
      ContainsAt(s[1..], q, i - 1);
    } else {
      assert q <= s;
    }
  }

  /** Conversely, when `includes` is true q occurs at some position. */
  lemma {:induction false} ContainsWitness(s: string, q: string) returns (i: nat)
    requires Contains(s, q)
    ensures i + |q| <= |s| && s[i..i + |q|] == q
  {
    if q <= s {
      i := 0;
    } else {
      var j := ContainsWitness(s[1..], q);
      assert s[1..][j..j + |q|] == s[j + 1..j + 1 + |q|];
      i := j + 1;
    }
  }

  // ----- the search filter -----

  function ItemsOf(o: HistoryOrder): seq<HistoryItem>
  {
    o.items.GetOr([])
  }

  /** What an item is searched by: `(title || "") + " " + (author || "")`. */
  function ItemText(it: HistoryItem): string
  {
    it.title.GetOr("") + " " + it.author.GetOr("")
  }

  /**
   * The search predicate: an empty query keeps every order; otherwise the
   * order's id, or some item's title and author, contains the query, both
   * lower-cased.
   */
  predicate Matches(o: HistoryOrder, query: string)
    ensures query == "" ==> Matches(o, query)
    ensures Lower(query) <= Lower(NatToString(o.id)) ==> Matches(o, query)
  {
    || query == ""
    || Contains(Lower(NatToString(o.id)), Lower(query))
    || exists k :: 0 <= k < |ItemsOf(o)| && Contains(Lower(ItemText(ItemsOf(o)[k])), Lower(query))
  }

  /** `orders.filter(...)`: the matching orders, in their order. */
  function Filtered(orders: seq<HistoryOrder>, query: string): (r: seq<HistoryOrder>)
    ensures Subseq(r, orders) && |r| <= |orders|
    ensures forall k :: 0 <= k < |r| ==> Matches(r[k], query)
    ensures forall k :: 0 <= k < |orders| && Matches(orders[k], query) ==> orders[k] in r
    ensures forall o :: multiset(r)[o] == if Matches(o, query) then multiset(orders)[o] else 0
  {
    KeepCounts(orders, o => Matches(o, query));
    Keep(orders, o => Matches(o, query))
  }

  /** An empty query shows every order. */
  lemma FilterEmptyQuery(orders: seq<HistoryOrder>)
    ensures Filtered(orders, "") == orders
  {
    KeepAll(orders, o => Matches(o, ""));
  }

  /** The search ignores the case of the query. */
  lemma MatchesIgnoresCase(o: HistoryOrder, query: string)
    ensures Matches(o, Lower(query)) <==> Matches(o, query)
  {
    LowerIdempotent(query);
  }

  /** Searching for a piece of an order's id finds it. */
  lemma MatchesById(o: HistoryOrder, i: nat, j: nat)
    requires i <= j <= |NatToString(o.id)|
    ensures Matches(o, NatToString(o.id)[i..j])
  {
    var s := NatToString(o.id);
    LowerDigits(s);
    LowerDigits(s[i..j]);
    ContainsAt(s, s[i..j], i);
  }

  /** Searching for a piece of an item's title finds its order, whatever the case. */
  lemma MatchesByTitle(o: HistoryOrder, k: nat, i: nat, j: nat)
    requires k < |ItemsOf(o)| && ItemsOf(o)[k].title.Some?
    requires i <= j <= |ItemsOf(o)[k].title.value|
    ensures Matches(o, ItemsOf(o)[k].title.value[i..j])
  {
    var t := ItemsOf(o)[k].title.value;
    var text := ItemText(ItemsOf(o)[k]);
    assert text[i..j] == t[i..j];
    assert Lower(text)[i..j] == Lower(t[i..j]);
    ContainsAt(Lower(text), Lower(t[i..j]), i);
  }

  // ----- pagination -----

  /** `Math.max(1, Math.ceil(n / pageSize))`. */
  function TotalPages(n: nat): (r: nat)
    ensures r >= 1
    ensures n <= r * PageSize
    ensures r == 1 || (r - 1) * PageSize < n
  {
    if n == 0 then 1 else (n + PageSize - 1) / PageSize
  }

  /** JavaScript's `slice` index: a negative index counts from the end; both are clamped. */
  function SliceIndex(i: int, len: nat): (r: nat)
    ensures r <= len
    ensures 0 <= i <= len ==> r == i
  {
    if i < 0 then (if len + i < 0 then 0 else len + i) else if i > len then len else i
  }

  /** `s.slice(start, end)`. */
  function JsSlice<T>(s: seq<T>, start: int, end: int): (r: seq<T>)
    ensures |r| <= |s|
    ensures end - start >= 0 ==> |r| <= end - start
    ensures 0 <= start <= end <= |s| ==> r == s[start..end]
    ensures 0 <= start <= |s| < end ==> r == s[start..]
  {
    var a, b := SliceIndex(start, |s|), SliceIndex(end, |s|);
    if a < b then s[a..b] else []
  }

  /** `filtered.slice((page - 1) * pageSize, page * pageSize)`. */
  function PageItems<T>(filtered: seq<T>, page: int): (r: seq<T>)
    ensures |r| <= PageSize
    ensures page >= 1 && page * PageSize <= |filtered| ==>
      r == filtered[(page - 1) * PageSize..page * PageSize]
    ensures page >= 1 && (page - 1) * PageSize <= |filtered| < page * PageSize ==>
      r == filtered[(page - 1) * PageSize..]
    ensures page >= 1 && (page - 1) * PageSize >= |filtered| ==> r == []
  {
    JsSlice(filtered, (page - 1) * PageSize, page * PageSize)
  }

  /**
   * The pages split the list without gaps or overlap: entry k is entry
   * k % 8 of page k / 8 + 1, which is a page the buttons can reach.
   */
  lemma PagesCover<T>(filtered: seq<T>, k: nat)
    requires k < |filtered|
    ensures 1 <= k / PageSize + 1 <= TotalPages(|filtered|)
    ensures k % PageSize < |PageItems(filtered, k / PageSize + 1)|
    ensures PageItems(filtered, k / PageSize + 1)[k % PageSize] == filtered[k]
  {
    var p := k / PageSize + 1;
    var start := (p - 1) * PageSize;
    var end := if p * PageSize <= |filtered| then p * PageSize else |filtered|;
    assert start == k - k % PageSize;
    assert PageItems(filtered, p) == filtered[start..end];
  }

  /** Every page up to the last holds at least one order. */
  lemma PagesNonEmpty<T>(filtered: seq<T>, page: int)
    requires |filtered| > 0 && 1 <= page <= TotalPages(|filtered|)
    ensures |PageItems(filtered, page)| > 0
  {
    assert (page - 1) * PageSize < |filtered|;
  }

  // ----- the page's state and its events -----

  /** The part of the page's state the buttons and the query box change. */
  datatype View = View(query: string, page: int)

  datatype Event = PrevClicked | NextClicked | QueryTyped(text: string)

  /** The page number stays within the pages of the current filter. */
  ghost predicate InRange(orders: seq<HistoryOrder>, v: View)
  {
    1 <= v.page <= TotalPages(|Filtered(orders, v.query)|)
  }

  /** `setPage(p => Math.max(1, p - 1))`. */
  function Prev(page: int): (r: int)
    ensures r >= 1
    ensures page > 1 ==> r == page - 1
    ensures page <= 1 ==> r == 1
  {
    if page - 1 < 1 then 1 else page - 1
  }

  /** `setPage(p => Math.min(totalPages, p + 1))`. */
  function Next(page: int, totalPages: int): (r: int)
    ensures r <= totalPages
    ensures page < totalPages ==> r == page + 1
    ensures page >= totalPages ==> r == totalPages
  {
    if totalPages < page + 1 then totalPages else page + 1
  }

  /** One event: the buttons move by one page, typing a query goes back to page 1. */
  function Step(orders: seq<HistoryOrder>, v: View, e: Event): (r: View)
    ensures e.QueryTyped? ==> r == View(e.text, 1)
    ensures !e.QueryTyped? ==> r.query == v.query
    ensures e.PrevClicked? ==> r.page >= 1 && (v.page > 1 ==> r.page == v.page - 1)
    ensures e.NextClicked? ==> var n := TotalPages(|Filtered(orders, v.query)|);
      r.page <= n && (v.page < n ==> r.page == v.page + 1)
  {
    match e
    case PrevClicked => v.(page := Prev(v.page))
    case NextClicked => v.(page := Next(v.page, TotalPages(|Filtered(orders, v.query)|)))
    case QueryTyped(text) => View(text, 1)
  }

  /** The page opens on page 1 with no query, which is in range. */
  lemma InitialInRange(orders: seq<HistoryOrder>)
    ensures InRange(orders, View("", 1))
  {
  }

  /** Every event keeps the page within the pages of the current filter. */
  lemma StepInRange(orders: seq<HistoryOrder>, v: View, e: Event)
    requires InRange(orders, v)
    ensures InRange(orders, Step(orders, v, e))
    ensures e.QueryTyped? ==> Step(orders, v, e).page == 1
    ensures !e.QueryTyped? ==> Step(orders, v, e).query == v.query
  {
  }

  /** A sequence of events, from the opened page, never leaves the range. */
  lemma {:induction false} EventsInRange(orders: seq<HistoryOrder>, v: View, es: seq<Event>)
    requires InRange(orders, v)
    ensures InRange(orders, Replay(orders, v, es))
    decreases |es|
  {
    if |es| > 0 {
      StepInRange(orders, v, es[0]);
      EventsInRange(orders, Step(orders, v, es[0]), es[1..]);
    }
  }

  function Replay(orders: seq<HistoryOrder>, v: View, es: seq<Event>): View
    decreases |es|
  {
    if |es| == 0 then v else Replay(orders, Step(orders, v, es[0]), es[1..])
  }

  /** Prev on the first page and Next on the last change nothing. */
  lemma ButtonsAtEnds(orders: seq<HistoryOrder>, v: View)
    requires InRange(orders, v)
    ensures v.page == 1 ==> Step(orders, v, PrevClicked) == v
    ensures v.page == TotalPages(|Filtered(orders, v.query)|) ==> Step(orders, v, NextClicked) == v
  {
  }

  // ----- reorder -----

  /** What a click on Reorder leads to. */
  datatype ReorderPlan =
    | ToLogin                         // no user: go to the login page
    | NothingToReorder                // the order has no items: an alert only
    | AddEach(bookIds: seq<Option<int>>)  // one add-to-cart request per item

  /** `it.bookId || it.book_id || it.id`. */
  function ItemBookId(it: HistoryItem): (r: Option<int>)
    ensures Present(it.bookId) ==> r == it.bookId
    ensures !Present(it.bookId) && Present(it.book_id) ==> r == it.book_id
    ensures !Present(it.bookId) && !Present(it.book_id) ==> r == it.id
  {
    if Present(it.bookId) then it.bookId else if Present(it.book_id) then it.book_id else it.id
  }

  /** The checks at the top of reorder and the requests it sends. */
  function Reorder(userId: Option<int>, o: HistoryOrder): (r: ReorderPlan)
    ensures !Present(userId) <==> r == ToLogin
    ensures Present(userId) ==> (r == NothingToReorder <==> |ItemsOf(o)| == 0)
    ensures r.AddEach? ==> |r.bookIds| == |ItemsOf(o)| > 0
    ensures r.AddEach? ==> forall k :: 0 <= k < |r.bookIds| ==> r.bookIds[k] == ItemBookId(ItemsOf(o)[k])
  {
    if !Present(userId) then ToLogin
    else if o.items.None? || |o.items.value| == 0 then NothingToReorder
    else AddEach(seq(|o.items.value|, k requires 0 <= k < |o.items.value| => ItemBookId(o.items.value[k])))
  }
}
