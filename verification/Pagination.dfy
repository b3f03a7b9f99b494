/** Keyset pagination of recovery points, over a list that may change between pages. */
module Pagination {
  import opened Foundation

  const PageSize := 5

  /** The position of a recovery point: creation time, then identifier. Only the order of either matters. */
  datatype Key = Key(createdAt: int, id: nat)

  datatype Summary = Summary(key: Key, version: string, totalBytes: nat)

  datatype Page = Page(items: seq<Summary>, total: nat, next: Option<Key>)

  /** `a` is listed before `b`: it is newer, or as old with the larger identifier. */
  predicate Newer(a: Key, b: Key) {
    a.createdAt > b.createdAt || (a.createdAt == b.createdAt && a.id > b.id)
  }

  /** The order `List` sorts into; distinct recovery points have distinct keys. */
  ghost predicate NewestFirst(summaries: seq<Summary>) {
    forall i, j :: 0 <= i < j < |summaries| ==> Newer(summaries[i].key, summaries[j].key)
  }

  /** A recovery point the cursor has not passed yet. */
  predicate Ahead(cursor: Option<Key>, key: Key) {
    cursor.None? || Newer(cursor.value, key)
  }

  /** What a client passes: nothing, a text that encodes a position, or one that does not. */
  datatype CursorText = Absent | Unreadable | Encoded(key: Key)

  function Position(text: CursorText): Option<Key> {
    if text.Encoded? then Some(text.key) else None
  }

  method Paginate(summaries: seq<Summary>, text: CursorText) returns (result: Result<Page>)
    requires NewestFirst(summaries)
    ensures result.Err? <==> text.Unreadable?
    ensures result.Ok? ==> IsPage(summaries, Position(text), result.value)
  {
    var start := 0;
    if !text.Absent? {
      if text.Unreadable? {
        return Err;
      }
      var cursor := text.key;
      start := |summaries|;
      for index := 0 to |summaries|
        invariant start == |summaries|
        invariant forall i :: 0 <= i < index ==> !Ahead(Some(cursor), summaries[i].key)
      {
        var key := summaries[index].key;
        if key.createdAt < cursor.createdAt || (key.createdAt == cursor.createdAt && key.id < cursor.id) {
          start := index;
          break;
        }
      }
    }
    var end := if start + PageSize < |summaries| then start + PageSize else |summaries|;
    var items := summaries[start..end];
    var next := None;
    if end < |summaries| && |items| > 0 {
      next := Some(items[|items| - 1].key);
    }
    var page := Page(items, |summaries|, next);
    assert StartsAt(summaries, Position(text), page, start);
    return Ok(page);
  }

  /** `start` is where the points ahead of the cursor begin, and the page is what follows. */
  ghost predicate StartsAt(summaries: seq<Summary>, cursor: Option<Key>, page: Page, start: nat) {
    && start <= |summaries|
    && (forall i :: 0 <= i < |summaries| ==> (Ahead(cursor, summaries[i].key) <==> start <= i))
    && var end := if start + PageSize < |summaries| then start + PageSize else |summaries|;
    && page == Page(summaries[start..end], |summaries|,
                    if end < |summaries| then Some(summaries[end - 1].key) else None)
  }

  /**
   A page holds the first points ahead of the cursor: consecutive in the list, full unless the
   list ends, and linked to the next page exactly when something is left.
   */
  ghost predicate IsPage(summaries: seq<Summary>, cursor: Option<Key>, page: Page) {
    exists start: nat :: StartsAt(summaries, cursor, page, start)
  }

  // ----- following the cursors

  /** Where a walk stands after some pages. */
  function Cursor(pages: seq<Page>): Option<Key> {
    if pages == [] then None else pages[|pages| - 1].next
  }

  /** Each page was taken from its own version of the list, with the cursor of the page before it. */
  ghost predicate IsWalk(lists: seq<seq<Summary>>, pages: seq<Page>) {
    && |lists| == |pages|
    && (pages != [] ==>
          var n := |pages| - 1;
          && IsWalk(lists[..n], pages[..n])
          && NewestFirst(lists[n])
          && (n > 0 ==> Cursor(pages[..n]).Some?)
          && IsPage(lists[n], Cursor(pages[..n]), pages[n]))
  }

  function Items(pages: seq<Page>): seq<Summary> {
    if pages == [] then [] else Items(pages[..|pages| - 1]) + pages[|pages| - 1].items
  }

  /** The items of a page are sorted, ahead of its cursor, and not ahead of the next one. */
  lemma PageItems(summaries: seq<Summary>, cursor: Option<Key>, page: Page)
    requires NewestFirst(summaries) && IsPage(summaries, cursor, page)
    ensures NewestFirst(page.items)
    ensures forall i :: 0 <= i < |page.items| ==> Ahead(cursor, page.items[i].key)
    ensures page.next.Some? ==> forall i :: 0 <= i < |page.items| ==> !Ahead(page.next, page.items[i].key)
  {
    var start: nat :| StartsAt(summaries, cursor, page, start);
    var end := start + |page.items|;
    assert page.items == summaries[start..end];
    forall i, j | 0 <= i < j < |page.items|
      ensures Newer(page.items[i].key, page.items[j].key)
    {
      assert Newer(summaries[start + i].key, summaries[start + j].key);
    }
    forall i | 0 <= i < |page.items|
      ensures Ahead(cursor, page.items[i].key)
      ensures page.next.Some? ==> !Ahead(page.next, page.items[i].key)
    {
      assert start + i < end - 1 ==> Newer(summaries[start + i].key, summaries[end - 1].key);
    }
  }

  /** What is ahead of a page's cursor and not on the page is ahead of the next one. */
  lemma PageRest(summaries: seq<Summary>, cursor: Option<Key>, page: Page, x: Summary)
    requires NewestFirst(summaries) && IsPage(summaries, cursor, page)
    requires x in summaries && Ahead(cursor, x.key) && x !in page.items
    ensures page.next.Some? && Ahead(page.next, x.key)
  {
    var start: nat :| StartsAt(summaries, cursor, page, start);
    var end := start + |page.items|;
    var i :| 0 <= i < |summaries| && summaries[i] == x;
    assert page.items == summaries[start..end];
    assert forall k :: start <= k < end ==> summaries[k] in page.items;
    assert i >= end;
  }

  /** The pages so far are in order and lie at or before the cursor they leave. */
  ghost predicate WalkedTo(pages: seq<Page>) {
    && NewestFirst(Items(pages))
    && forall x :: x in Items(pages) && Cursor(pages).Some? ==> !Ahead(Cursor(pages), x.key)
  }

  lemma {:induction false} WalkIsOrdered(lists: seq<seq<Summary>>, pages: seq<Page>)
    requires IsWalk(lists, pages)
    ensures WalkedTo(pages)
    decreases |pages|
  {
    if pages != [] {
      var n := |pages| - 1;
      WalkIsOrdered(lists[..n], pages[..n]);
      PageItems(lists[n], Cursor(pages[..n]), pages[n]);
      OrderedConcat(Items(pages[..n]), pages[n].items, Cursor(pages[..n]));
      forall x | x in Items(pages) && pages[n].next.Some?
        ensures !Ahead(pages[n].next, x.key)
      {
        if x in Items(pages[..n]) {
          var last := pages[n].items;
          AheadIsLater(lists[n], Cursor(pages[..n]), pages[n], x);
        }
      }
    }
  }

  /** A link is further along than the cursor its page was asked with. */
  lemma AheadIsLater(summaries: seq<Summary>, cursor: Option<Key>, page: Page, x: Summary)
    requires NewestFirst(summaries) && IsPage(summaries, cursor, page) && page.next.Some? && !Ahead(cursor, x.key)
    ensures !Ahead(page.next, x.key)
  {
    var start: nat :| StartsAt(summaries, cursor, page, start);
    assert Ahead(cursor, summaries[start + PageSize - 1].key);
  }

  lemma OrderedConcat(left: seq<Summary>, right: seq<Summary>, cursor: Option<Key>)
    requires NewestFirst(left) && NewestFirst(right)
    requires forall x :: x in left ==> cursor.Some? && !Ahead(cursor, x.key)
    requires forall y :: y in right ==> Ahead(cursor, y.key)
    ensures NewestFirst(left + right)
  {
    forall i, j | 0 <= i < |left| && 0 <= j < |right|
      ensures Newer(left[i].key, right[j].key)
    {
      assert left[i] in left && right[j] in right;
    }
  }

  /** No recovery point is shown twice, however the list changes between pages. */
  lemma NothingRepeats(lists: seq<seq<Summary>>, pages: seq<Page>, i: nat, j: nat)
    requires IsWalk(lists, pages) && i < j < |Items(pages)|
    ensures Newer(Items(pages)[i].key, Items(pages)[j].key)
    ensures Items(pages)[i].key != Items(pages)[j].key
  {
    WalkIsOrdered(lists, pages);
  }

  /** A point that is in every list has been shown, or is still ahead of the cursor. */
  lemma {:induction false} ShownOrAhead(lists: seq<seq<Summary>>, pages: seq<Page>, x: Summary)
    requires IsWalk(lists, pages) && forall list :: list in lists ==> x in list
    ensures pages == [] || x in Items(pages) || (Cursor(pages).Some? && Ahead(Cursor(pages), x.key))
    decreases |pages|
  {
    if pages != [] {
      var n := |pages| - 1;
      ShownOrAhead(lists[..n], pages[..n], x);
      assert lists[n] in lists;
      if n == 0 || (x !in Items(pages[..n]) && x !in pages[n].items) {
        if x !in pages[n].items {
          PageRest(lists[n], Cursor(pages[..n]), pages[n], x);
        }
      }
    }
  }

  /** Once the last page is reached, every point that was there all the time has been shown exactly once. */
  lemma StablePointsAreShownOnce(lists: seq<seq<Summary>>, pages: seq<Page>, x: Summary)
    requires IsWalk(lists, pages) && pages != [] && Cursor(pages).None?
    requires forall list :: list in lists ==> x in list
    ensures multiset(Items(pages))[x] == 1
  {
    ShownOrAhead(lists, pages, x);
    WalkIsOrdered(lists, pages);
    OccursOnce(Items(pages), x);
  }

  lemma OccursOnce(items: seq<Summary>, x: Summary)
    requires NewestFirst(items) && x in items
    ensures multiset(items)[x] == 1
  {
    var i :| 0 <= i < |items| && items[i] == x;
    var front, rest := items[..i], items[i + 1..];
    assert items == front + [x] + rest;
    assert x !in front && x !in rest;
    assert multiset(items) == multiset(front) + multiset{x} + multiset(rest);
  }

  /** The end of page `k` of a list, counting from page zero. */
  function EndOf(summaries: seq<Summary>, k: nat): (end: nat)
    ensures end <= |summaries| && (summaries != [] ==> end > 0)
  {
    if PageSize * k + PageSize < |summaries| then PageSize * k + PageSize else |summaries|
  }

  function Repeat(summaries: seq<Summary>, n: nat): (lists: seq<seq<Summary>>)
    ensures |lists| == n && forall list :: list in lists ==> list == summaries
    ensures n > 0 ==> lists[..n - 1] == Repeat(summaries, n - 1)
  {
    if n == 0 then [] else Repeat(summaries, n - 1) + [summaries]
  }

  /** The pages so far are the list's consecutive pieces of five, and the link ends with the list. */
  ghost predicate ReadSoFar(summaries: seq<Summary>, pages: seq<Page>, n: nat) {
    var end := EndOf(summaries, n);
    && Items(pages) == summaries[..end]
    && Cursor(pages) == (if end < |summaries| then Some(summaries[end - 1].key) else None)
    && (n > 0 ==> PageSize * n < |summaries|)
  }

  /**
   Over a list that does not change, the pages are its consecutive pieces of five, the links
   end with the list, and so does the walk: it never has more pages than the list fills.
   */
  lemma {:induction false} FixedListIsReadThrough(summaries: seq<Summary>, pages: seq<Page>)
    requires pages != [] && IsWalk(Repeat(summaries, |pages|), pages)
    ensures ReadSoFar(summaries, pages, |pages| - 1)
    decreases |pages|
  {
    hide *;
    var n := |pages| - 1;
    LastOfWalk(summaries, pages);
    if n > 0 {
      FixedListIsReadThrough(summaries, pages[..n]);
      OneMorePage(summaries, pages[..n], pages, n);
    } else {
      FirstPage(summaries, pages);
    }
  }

  lemma LastOfWalk(summaries: seq<Summary>, pages: seq<Page>)
    requires pages != [] && IsWalk(Repeat(summaries, |pages|), pages)
    ensures var n := |pages| - 1;
            && IsWalk(Repeat(summaries, n), pages[..n]) && (n > 0 ==> Cursor(pages[..n]).Some?)
            && NewestFirst(summaries) && IsPage(summaries, Cursor(pages[..n]), pages[n])
  {
    var lists := Repeat(summaries, |pages|);
    assert lists[|pages| - 1] in lists;
  }

  lemma FirstPage(summaries: seq<Summary>, pages: seq<Page>)
    requires |pages| == 1 && NewestFirst(summaries) && IsPage(summaries, Cursor(pages[..0]), pages[0])
    ensures ReadSoFar(summaries, pages, 0)
  {
    LaterPage(summaries, None, pages[0], 0);
    assert Items(pages[..0]) == [];
  }

  lemma OneMorePage(summaries: seq<Summary>, front: seq<Page>, pages: seq<Page>, n: nat)
    requires n > 0 && |pages| == n + 1 && front == pages[..n] && Cursor(front).Some?
    requires NewestFirst(summaries) && IsPage(summaries, Cursor(front), pages[n])
    requires ReadSoFar(summaries, front, n - 1)
    ensures ReadSoFar(summaries, pages, n)
  {
    LaterPage(summaries, Cursor(front), pages[n], n);
    hide NewestFirst, IsPage;
    assert Items(pages) == Items(front) + pages[n].items;
    assert summaries[..PageSize * n] + summaries[PageSize * n..EndOf(summaries, n)] == summaries[..EndOf(summaries, n)];
  }

  lemma LaterPage(summaries: seq<Summary>, cursor: Option<Key>, page: Page, n: nat)
    requires NewestFirst(summaries) && IsPage(summaries, cursor, page)
    requires n == 0 ==> cursor.None?
    requires n > 0 ==> PageSize * n < |summaries| && cursor == Some(summaries[PageSize * n - 1].key)
    ensures PageSize * n <= |summaries|
    ensures page.items == summaries[PageSize * n..EndOf(summaries, n)]
    ensures page.next == (if EndOf(summaries, n) < |summaries| then Some(summaries[EndOf(summaries, n) - 1].key) else None)
  {
    var start: nat :| StartsAt(summaries, cursor, page, start);
    var first := PageSize * n;
    if n > 0 {
      assert Newer(summaries[first - 1].key, summaries[first].key);
      assert Ahead(cursor, summaries[first].key) && !Ahead(cursor, summaries[first - 1].key);
    } else if summaries != [] {
      assert Ahead(cursor, summaries[0].key);
    }
    assert start == first;
  }
}
