/**
 What following the page cursors yields, and the bounded history import built on it
 (extensions/anthropic/session-catalog.ts, readBoundedClaudeHistory).
 */
module History {
  import opened Prelude
  import opened Lines
  import opened Transcript

  /** A page is the next run of items, and its cursor (if any) is where the rest begins. */
  ghost predicate IsStep<T>(all: seq<Entry<T>>, page: Page<T>) {
    var n := |page.items|;
    && n <= |all| && page.items == ItemsOf(all[..n])
    && (page.next.None? ==> n == |all|)
    && (page.next.Some? ==> n > 0 && page.next.value == all[n - 1].start > 0)
  }

  lemma {:induction false} PageFromIsStep<T>(
      size: T -> nat, all: seq<Entry<T>>, end: nat, found: seq<Entry<T>>, limit: nat, windowed: bool, cap: int)
    requires limit > 0 && Descending(all, end)
    requires found <= all && |found| <= limit + 1
    requires |found| <= limit && !windowed ==> found == all
    requires windowed ==> |found| == limit
    ensures IsStep(all, PageFrom(size, found, limit, windowed, cap))
    ensures |PageFrom(size, found, limit, windowed, cap).items| <= limit
  {
    var requested := Take(found, limit);
    var sizes := Sizes(size, ItemsOf(requested));
    var n := LongestFit(sizes, cap);
    assert Allowed(sizes, cap, n);
    assert requested[..n] == all[..n];
    if requested != [] {
      assert Allowed(sizes, cap, 1);
      if requested[n - 1].start == 0 && n < |all| {
        assert all[n].start < all[n - 1].start;
      }
    }
  }

  /** Every page that is returned continues the transcript, whatever the window and budgets are. */
  lemma {:induction false} PageOfIsStep<T>(
      parse: Bytes -> Option<T>, size: T -> nat, f: Bytes, end: nat, limit: nat, scan: nat, cap: int)
    requires end <= |f| && limit > 0 && PageOf(parse, size, f, end, limit, scan, cap).Ok?
    ensures IsStep(Newest(parse, f, end), PageOf(parse, size, f, end, limit, scan, cap).value)
    ensures |PageOf(parse, size, f, end, limit, scan, cap).value.items| <= limit
  {
    var all := Newest(parse, f, end);
    var floor := Floor(end, scan);
    var found := Found(parse, f, end, limit, scan);
    NewestOrdered(parse, f, end);
    PageFromIsStep(size, all, end, found, limit, floor > 0 && |found| <= limit, cap);
  }

  /** Appending to the file never changes a page at an earlier cursor. */
  lemma {:induction false} AppendKeepsPage<T>(
      parse: Bytes -> Option<T>, size: T -> nat, f: Bytes, suffix: Bytes, end: nat, limit: nat, scan: nat,
      cap: int)
    requires end <= |f|
    ensures PageOf(parse, size, f + suffix, end, limit, scan, cap) == PageOf(parse, size, f, end, limit, scan, cap)
  {
    NewestOfPrefix(parse, f, f + suffix, end);
  }

  /** The items left after a page are exactly those before its cursor. */
  lemma {:induction false} RestAfterPage<T>(parse: Bytes -> Option<T>, f: Bytes, end: nat, page: Page<T>)
    requires end <= |f| && IsStep(Newest(parse, f, end), page) && page.next.Some?
    ensures 0 < page.next.value < end
    ensures Newest(parse, f, page.next.value) == Newest(parse, f, end)[|page.items|..]
  {
    NewestOrdered(parse, f, end);
    NewestRestart(parse, f, end, |page.items| - 1);
  }

  /** `pages` is a complete walk: each page read at the cursor of the one before, with any limits, to the end. */
  ghost predicate IsWalk<T>(
      parse: Bytes -> Option<T>, size: T -> nat, f: Bytes, end: nat, limits: seq<nat>, pages: seq<Page<T>>,
      scan: nat, cap: int)
    decreases |pages|
  {
    && end <= |f| && |pages| == |limits| > 0 && limits[0] > 0
    && PageOf(parse, size, f, end, limits[0], scan, cap) == Ok(pages[0])
    && match pages[0].next
       case None => |pages| == 1
       case Some(c) => IsWalk(parse, size, f, c, limits[1..], pages[1..], scan, cap)
  }

  function AllItems<T>(pages: seq<Page<T>>): seq<T> {
    if pages == [] then [] else pages[0].items + AllItems(pages[1..])
  }

  /** Following cursors to the end yields every item of the file exactly once, newest first. */
  lemma {:induction false} WalkYieldsEveryItem<T>(
      parse: Bytes -> Option<T>, size: T -> nat, f: Bytes, end: nat, limits: seq<nat>, pages: seq<Page<T>>,
      scan: nat, cap: int)
    requires IsWalk(parse, size, f, end, limits, pages, scan, cap)
    ensures AllItems(pages) == ItemsOf(Reverse(Items(parse, f, end)))
    decreases |pages|
  {
    NewestIsReversedItems(parse, f, end);
    WalkYieldsNewest(parse, size, f, end, limits, pages, scan, cap);
  }

  lemma {:induction false} WalkYieldsNewest<T>(
      parse: Bytes -> Option<T>, size: T -> nat, f: Bytes, end: nat, limits: seq<nat>, pages: seq<Page<T>>,
      scan: nat, cap: int)
    requires IsWalk(parse, size, f, end, limits, pages, scan, cap)
    ensures AllItems(pages) == ItemsOf(Newest(parse, f, end))
    decreases |pages|
  {
    PageOfIsStep(parse, size, f, end, limits[0], scan, cap);
    match pages[0].next {
      case None =>
        assert AllItems(pages[1..]) == [];
      case Some(c) =>
        RestAfterPage(parse, f, end, pages[0]);
        WalkYieldsNewest(parse, size, f, c, limits[1..], pages[1..], scan, cap);
        ItemsOfSplit(Newest(parse, f, end), |pages[0].items|);
    }
  }

  lemma {:induction false} ItemsOfSplit<T>(all: seq<Entry<T>>, n: nat)
    requires n <= |all|
    ensures ItemsOf(all) == ItemsOf(all[..n]) + ItemsOf(all[n..])
  {
  }

  /** Each cursor is positive and below the one before; only the last page has none. */
  ghost predicate Downward<T>(pages: seq<Page<T>>, end: nat) {
    && pages != []
    && match pages[0].next
       case None => |pages| == 1
       case Some(c) => 0 < c < end && Downward(pages[1..], c)
  }

  /** Along a walk the cursors strictly decrease, so no page is ever asked for twice. */
  lemma {:induction false} WalkCursorsDecrease<T>(
      parse: Bytes -> Option<T>, size: T -> nat, f: Bytes, end: nat, limits: seq<nat>, pages: seq<Page<T>>,
      scan: nat, cap: int)
    requires IsWalk(parse, size, f, end, limits, pages, scan, cap)
    ensures Downward(pages, end) && |pages| <= end + 1
    decreases |pages|
  {
    PageOfIsStep(parse, size, f, end, limits[0], scan, cap);
    if pages[0].next.Some? {
      RestAfterPage(parse, f, end, pages[0]);
      WalkCursorsDecrease(parse, size, f, pages[0].next.value, limits[1..], pages[1..], scan, cap);
    }
  }

  // ---------------------------------------------------------------- history import

  /** The longest newest-first run with at most `maxItems` items inside the byte budget. */
  ghost function HistoryOf<T>(size: T -> nat, items: seq<T>, maxItems: nat, cap: int): seq<T> {
    var candidates := Take(items, maxItems);
    candidates[..LongestFit(Sizes(size, candidates), cap)]
  }

  /** Another process may append to the transcript between two page reads. */
  method Append(file: Bytes) returns (longer: Bytes)
    ensures file <= longer
  {
    var suffix: Bytes := *;
    longer := file + suffix;
  }

  /** The transcript items that end before offset `end`, newest first. */
  ghost function Before<T>(parse: Bytes -> Option<T>, f: Bytes, end: nat): seq<T>
    requires end <= |f|
  {
    ItemsOf(Newest(parse, f, end))
  }

  /** Enough of the transcript lies within the scan limit: all of it, or `limit` items that start inside. */
  ghost predicate ScanReaches<T>(all: seq<Entry<T>>, end: nat, limit: nat, scan: nat)
    requires limit > 0
  {
    end <= scan || (limit <= |all| && all[limit - 1].start > end - scan)
  }

  lemma {:induction false} FoundFront<T>(all: seq<Entry<T>>, end: nat, limit: nat, scan: nat, found: seq<Entry<T>>)
    requires limit > 0 && Descending(all, end) && found == Take(Within(all, Floor(end, scan)), limit + 1)
    ensures ScanReaches(all, end, limit, scan) <==> !(Floor(end, scan) > 0 && |found| < limit)
    ensures ScanReaches(all, end, limit, scan) ==> Take(found, limit) == Take(all, limit)
  {
    var reached := Within(all, Floor(end, scan));
    assert limit <= |all| && Floor(end, scan) > 0 ==> (limit <= |reached| <==> all[limit - 1].start > Floor(end, scan));
  }

  /** There is more exactly if items are left, found or not, or bytes are unread. */
  lemma {:induction false} FoundMore<T>(
      all: seq<Entry<T>>, end: nat, limit: nat, scan: nat, found: seq<Entry<T>>, n: nat)
    requires found == Take(Within(all, Floor(end, scan)), limit + 1) && n <= limit && n <= |found|
    ensures n < |found| || (Floor(end, scan) > 0 && |found| <= limit) <==> n < |all| || scan < end
  {
  }

  lemma {:induction false} TakeItems<T>(all: seq<Entry<T>>, limit: nat)
    ensures ItemsOf(Take(all, limit)) == Take(ItemsOf(all), limit)
  {
  }

  /** The cursor of a page of the first `n` items. */
  ghost function CursorAfter<T>(all: seq<Entry<T>>, n: nat, left: bool): Option<nat>
    requires n <= |all|
  {
    if left && n > 0 && all[n - 1].start > 0 then Some(all[n - 1].start) else None
  }

  lemma {:induction false} PageOfFront<T>(
      size: T -> nat, all: seq<Entry<T>>, found: seq<Entry<T>>, limit: nat, windowed: bool, cap: int)
    requires Take(found, limit) == Take(all, limit)
    ensures var page := PageFrom(size, found, limit, windowed, cap);
            && page.items == HistoryOf(size, ItemsOf(all), limit, cap)
            && |page.items| <= limit && |page.items| <= |found| && |page.items| <= |all|
            && page.next == CursorAfter(all, |page.items|, |page.items| < |found| || windowed)
  {
    TakeItems(all, limit);
    var requested := Take(found, limit);
    var n := LongestFit(Sizes(size, ItemsOf(requested)), cap);
    assert n > 0 ==> requested[n - 1] == all[n - 1];
  }

  /**
   What a page is, from the transcript alone. It cannot be read exactly if the file does not
   fit the scan limit and fewer than `limit` items start inside it. Otherwise it holds as many
   of the newest items as the limit and the byte budget allow, and a cursor unless its last
   item is the file's first line, or everything was read and nothing is left.
   */
  lemma {:induction false} PageIsLongest<T>(
      parse: Bytes -> Option<T>, size: T -> nat, f: Bytes, end: nat, limit: nat, scan: nat, cap: int)
    requires end <= |f| && limit > 0
    ensures var all, r := Newest(parse, f, end), PageOf(parse, size, f, end, limit, scan, cap);
            if ScanReaches(all, end, limit, scan) then
              && r.Ok? && r.value.items == HistoryOf(size, Before(parse, f, end), limit, cap)
              && |r.value.items| <= |all|
              && r.value.next == CursorAfter(all, |r.value.items|, |r.value.items| < |all| || scan < end)
            else r == Err(ScanLimitExceeded)
  {
    var all, found := Newest(parse, f, end), Found(parse, f, end, limit, scan);
    NewestOrdered(parse, f, end);
    FoundFront(all, end, limit, scan, found);
    if ScanReaches(all, end, limit, scan) {
      PageOfFront(size, all, found, limit, Floor(end, scan) > 0 && |found| <= limit, cap);
      FoundMore(all, end, limit, scan, found, |PageOf(parse, size, f, end, limit, scan, cap).value.items|);
    }
  }

  /** `page` is the front of `rest`; its cursor (if any) marks where what follows it begins. */
  ghost predicate Continues<T>(parse: Bytes -> Option<T>, f: Bytes, end: nat, rest: seq<T>, page: Page<T>)
    requires end <= |f|
  {
    var n := |page.items|;
    && n <= |rest| && page.items == rest[..n]
    && match page.next
       case None => n == |rest|
       case Some(c) => 0 < c < end && Before(parse, f, c) == rest[n..]
  }

  type PageReader<!T> = (nat, nat) -> Result<Page<T>, ReadError>

  /** The pages of a file that does not change, by offset and limit. */
  ghost function Pages<T>(parse: Bytes -> Option<T>, size: T -> nat, f: Bytes, limits: Limits): PageReader<T> {
    (end: nat, limit: nat) =>
      if end <= |f| then PageOf(parse, size, f, end, limit, limits.scan, limits.pageBytes) else Err(ScanLimitExceeded)
  }

  ghost predicate Shows<T>(pages: PageReader<T>, parse: Bytes -> Option<T>, size: T -> nat, f: Bytes, limits: Limits) {
    forall end: nat, limit: nat {:trigger PageOf(parse, size, f, end, limit, limits.scan, limits.pageBytes)} ::
      end <= |f| ==> pages(end, limit) == PageOf(parse, size, f, end, limit, limits.scan, limits.pageBytes)
  }

  ghost predicate Lists<T>(before: nat -> seq<T>, parse: Bytes -> Option<T>, f: Bytes) {
    forall end: nat {:trigger Newest(parse, f, end)} :: end <= |f| ==> before(end) == ItemsOf(Newest(parse, f, end))
  }

  /** One page read of a file that has only grown since it was `file0`. */
  method ReadNext<T>(parse: Bytes -> Option<T>, size: T -> nat, file: Bytes, cursor: Option<nat>, limit: nat,
                     limits: Limits,
                     ghost pages: PageReader<T>, ghost file0: Bytes, ghost end: nat, ghost rest: seq<T>)
    returns (r: Result<Page<T>, ReadError>)
    requires limits.Valid() && limit > 0 && Shows(pages, parse, size, file0, limits)
    requires end <= |file0| && file0 <= file && rest == Before(parse, file0, end)
    requires if cursor.Some? then cursor.value == end else end == |file0| == |file|
    ensures r == pages(end, limit)
    ensures r.Ok? ==> Continues(parse, file0, end, rest, r.value) && |r.value.items| <= limit
    ensures r.Err? ==> r.error == ScanLimitExceeded && limits.scan < |file0|
  {
    r := ReadPage(parse, size, file, cursor, limit, limits);
    assert file == file0 + file[|file0|..];
    AppendKeepsPage(parse, size, file0, file[|file0|..], end, limit, limits.scan, limits.pageBytes);
    if r.Ok? {
      PageOfIsStep(parse, size, file, end, limit, limits.scan, limits.pageBytes);
      NewestOfPrefix(parse, file0, file, end);
      StepContinues(parse, file0, end, r.value);
    }
  }

  lemma {:induction false} StepContinues<T>(parse: Bytes -> Option<T>, f: Bytes, end: nat, page: Page<T>)
    requires end <= |f| && IsStep(Newest(parse, f, end), page)
    ensures Continues(parse, f, end, Before(parse, f, end), page)
  {
    var all := Newest(parse, f, end);
    ItemsOfSplit(all, |page.items|);
    if page.next.Some? {
      RestAfterPage(parse, f, end, page);
    }
  }

  /**
   With `n` items imported and the rest ending before `end`, the read of some page to come
   fails, before the item count or the byte budget (which leaves room for `fit` items) is used up.
   */
  ghost predicate ReadFails<T>(pages: PageReader<T>, fit: nat, end: nat, n: nat, pageLimit: nat, maxItems: nat)
    decreases end
  {
    && n < maxItems
    && match pages(end, Min(pageLimit, maxItems - n))
       case Err(_) => true
       case Ok(page) =>
         && page.next.Some? && page.next.value < end && n + |page.items| <= fit
         && ReadFails(pages, fit, page.next.value, n + |page.items|, pageLimit, maxItems)
  }

  /** `fails(end, n)` tells whether a read will fail. */
  ghost predicate Tells<T>(fails: (nat, nat) -> bool, pages: PageReader<T>, fit: nat, pageLimit: nat, maxItems: nat) {
    forall end: nat, n: nat {:trigger ReadFails(pages, fit, end, n, pageLimit, maxItems)} ::
      fails(end, n) == ReadFails(pages, fit, end, n, pageLimit, maxItems)
  }

  lemma {:induction false} NothingMoreRead<T>(
      fails: (nat, nat) -> bool, pages: PageReader<T>, fit: nat, pageLimit: nat, maxItems: nat, end: nat, n: nat)
    requires Tells(fails, pages, fit, pageLimit, maxItems) && n >= maxItems
    ensures !fails(end, n)
  {
    assert !ReadFails(pages, fit, end, n, pageLimit, maxItems);
  }

  lemma {:induction false} AfterRead<T>(
      fails: (nat, nat) -> bool, pages: PageReader<T>, fit: nat, pageLimit: nat, maxItems: nat, end: nat, n: nat,
      read: Result<Page<T>, ReadError>)
    requires Tells(fails, pages, fit, pageLimit, maxItems) && n < maxItems
    requires read == pages(end, Min(pageLimit, maxItems - n))
    ensures read.Err? ==> fails(end, n)
    ensures read.Ok? && read.value.next.None? ==> !fails(end, n)
    ensures read.Ok? && n + |read.value.items| > fit ==> !fails(end, n)
    ensures read.Ok? && read.value.next.Some? && read.value.next.value < end && n + |read.value.items| <= fit ==>
              fails(end, n) == fails(read.value.next.value, n + |read.value.items|)
  {
    assert fails(end, n) == ReadFails(pages, fit, end, n, pageLimit, maxItems);
    if read.Ok? && read.value.next.Some? {
      var next, m := read.value.next.value, n + |read.value.items|;
      assert fails(next, m) == ReadFails(pages, fit, next, m, pageLimit, maxItems);
    }
  }

  /**
   Import history page by page while the file keeps growing. The outcome is a function of
   the file as first read: pages, chunks, short reads and later appends do not show.
   */
  method ReadBoundedHistory<T>(parse: Bytes -> Option<T>, size: T -> nat, file0: Bytes, pageLimit: nat, limits: Limits,
                               maxItems: nat, cap: int)
    returns (r: Result<seq<T>, ReadError>)
    requires limits.Valid() && pageLimit > 0
    ensures r.Ok? ==> r.value == HistoryOf(size, Before(parse, file0, |file0|), maxItems, cap)
    ensures r.Err? ==> r.error == ScanLimitExceeded && limits.scan < |file0|
    ensures r.Err? <==>
              ReadFails(Pages(parse, size, file0, limits),
                        |HistoryOf(size, Before(parse, file0, |file0|), maxItems, cap)|,
                        |file0|, 0, pageLimit, maxItems)
  {
    ghost var pages := Pages(parse, size, file0, limits);
    ghost var before := (end: nat) => if end <= |file0| then Before(parse, file0, end) else [];
    ghost var all := Before(parse, file0, |file0|);
    ghost var candidates := Take(all, maxItems);
    ghost var fit := LongestFit(Sizes(size, candidates), cap);
    ghost var fails := (end: nat, n: nat) => ReadFails(pages, fit, end, n, pageLimit, maxItems);
    r := ReadPages(parse, size, file0, pageLimit, limits, maxItems, cap, pages, fails, before, all, candidates, fit);
  }

  /** The page after the first `n` items of `all`, and what it says about reads to come. */
  method ReadTurn<T>(parse: Bytes -> Option<T>, size: T -> nat, file: Bytes, cursor: Option<nat>, n: nat,
                     pageLimit: nat, limits: Limits,
                     maxItems: nat, ghost pages: PageReader<T>, ghost fails: (nat, nat) -> bool, ghost fit: nat,
                     ghost before: nat -> seq<T>, ghost file0: Bytes, ghost end: nat, ghost all: seq<T>)
    returns (r: Result<Page<T>, ReadError>)
    requires limits.Valid() && pageLimit > 0 && n < maxItems
    requires Shows(pages, parse, size, file0, limits) && Tells(fails, pages, fit, pageLimit, maxItems)
    requires end <= |file0| && file0 <= file && Lists(before, parse, file0) && n <= |all| && all[n..] == before(end)
    requires if cursor.Some? then cursor.value == end else end == |file0| == |file|
    ensures r.Err? ==> r.error == ScanLimitExceeded && limits.scan < |file0| && fails(end, n)
    ensures r.Ok? ==> Advances(before, end, all, n, Take(all, maxItems), r.value)
    ensures r.Ok? ==>
              fails(end, n) ==
              (r.value.next.Some? && n + |r.value.items| <= fit && fails(r.value.next.value, n + |r.value.items|))
  {
    assert before(end) == Before(parse, file0, end);
    r := ReadNext(parse, size, file, cursor, Min(pageLimit, maxItems - n), limits, pages, file0, end, all[n..]);
    AfterRead(fails, pages, fit, pageLimit, maxItems, end, n, r);
    if r.Ok? {
      PageFits(all, n, r.value.items, Take(all, maxItems), maxItems);
      assert r.value.next.Some? ==> before(r.value.next.value) == Before(parse, file0, r.value.next.value);
    }
  }

  ghost predicate Advances<T>(before: nat -> seq<T>, end: nat, all: seq<T>, n: nat, candidates: seq<T>, page: Page<T>) {
    var m := n + |page.items|;
    && m <= |candidates| && m <= |all| && page.items == candidates[n..m]
    && match page.next
       case None => m == |all|
       case Some(c) => c < end && before(c) == all[m..]
  }

  /** The loop over the pages, with room for the first `fit` of the candidates. */
  method ReadPages<T>(parse: Bytes -> Option<T>, size: T -> nat, file0: Bytes, pageLimit: nat, limits: Limits,
                      maxItems: nat, cap: int, ghost pages: PageReader<T>, ghost fails: (nat, nat) -> bool,
                      ghost before: nat -> seq<T>, ghost all: seq<T>, ghost candidates: seq<T>, ghost fit: nat)
    returns (r: Result<seq<T>, ReadError>)
    requires limits.Valid() && pageLimit > 0 && Shows(pages, parse, size, file0, limits)
    requires Tells(fails, pages, fit, pageLimit, maxItems)
    requires Lists(before, parse, file0) && all == before(|file0|) && candidates == Take(all, maxItems)
    requires fit == LongestFit(Sizes(size, candidates), cap)
    ensures r.Ok? ==> r.value == candidates[..fit]
    ensures r.Err? ==> r.error == ScanLimitExceeded && limits.scan < |file0|
    ensures r.Err? <==> fails(|file0|, 0)
  {
    var items: seq<T> := [];
    var cursor: Option<nat> := None;
    var bytes := 0;
    var file := file0;
    ghost var end: nat := |file0|;
    while |items| < maxItems
      invariant end <= |file0| && file0 <= file
      invariant if cursor.Some? then cursor.value == end else end == |file0| == |file|
      invariant |items| <= |all| && all[|items|..] == before(end)
      invariant Imported(size, candidates, cap, items, bytes)
      invariant fails(|file0|, 0) == fails(end, |items|)
      decreases end
    {
      var read := ReadTurn(parse, size, file, cursor, |items|, pageLimit, limits, maxItems, pages, fails, fit, before,
          file0, end, all);
      if read.Err? {
        return Err(read.error);
      }
      var page := read.value;
      var full;
      items, bytes, full := ImportPage(size, candidates, cap, fit, items, bytes, page.items);
      if full {
        return Ok(items);
      }
      if page.next.None? || page.next == cursor {
        break;
      }
      cursor := page.next;
      end := page.next.value;
      file := Append(file);
    }
    if |items| >= maxItems {
      NothingMoreRead(fails, pages, fit, pageLimit, maxItems, end, |items|);
    }
    HistoryComplete(size, candidates, cap, items, bytes);
    r := Ok(items);
  }

  /** `items` is an allowed prefix of the candidates, of total size `bytes`. */
  ghost predicate Imported<T>(size: T -> nat, candidates: seq<T>, cap: int, items: seq<T>, bytes: nat) {
    var n := |items|;
    && n <= |candidates| && items == candidates[..n]
    && bytes == Sum(Sizes(size, candidates)[..n]) && Allowed(Sizes(size, candidates), cap, n)
  }

  lemma {:induction false} PageFits<T>(all: seq<T>, n: nat, page: seq<T>, candidates: seq<T>, maxItems: nat)
    requires n + |page| <= |all| && page == all[n..][..|page|]
    requires n + |page| <= maxItems && candidates == Take(all, maxItems)
    ensures n + |page| <= |candidates| && page == candidates[n..n + |page|]
    ensures all[n..][|page|..] == all[n + |page|..]
  {
    assert all[n..][..|page|] == all[n..n + |page|];
  }

  lemma {:induction false} HistoryComplete<T>(size: T -> nat, candidates: seq<T>, cap: int, items: seq<T>, bytes: nat)
    requires Imported(size, candidates, cap, items, bytes) && |items| == |candidates|
    ensures items == candidates[..LongestFit(Sizes(size, candidates), cap)]
  {
    LongestFitUnique(Sizes(size, candidates), cap, |items|);
  }

  /** Push one page's items; `full` when the byte budget refused one of them. */
  method ImportPage<T>(
      size: T -> nat, ghost candidates: seq<T>, cap: int, ghost fit: nat, items0: seq<T>, bytes0: nat,
      page: seq<T>)
    returns (items: seq<T>, bytes: nat, full: bool)
    requires Imported(size, candidates, cap, items0, bytes0) && fit == LongestFit(Sizes(size, candidates), cap)
    requires |items0| + |page| <= |candidates| && page == candidates[|items0|..|items0| + |page|]
    ensures full <==> |items0| + |page| > fit
    ensures !full ==> |items| == |items0| + |page| && Imported(size, candidates, cap, items, bytes)
    ensures full ==> items == candidates[..fit]
  {
    items, bytes, full := items0, bytes0, false;
    for k := 0 to |page|
      invariant |items| == |items0| + k && Imported(size, candidates, cap, items, bytes)
    {
      ghost var sizes := Sizes(size, candidates);
      var itemBytes := size(page[k]);
      SumPush(sizes, |items|);
      if |items| > 0 && bytes + itemBytes > cap {
        NotAllowedBeyond(sizes, cap, |items| + 1);
        LongestFitUnique(sizes, cap, |items|);
        full := true;
        return;
      }
      items := items + [page[k]];
      bytes := bytes + itemBytes;
    }
  }
}
