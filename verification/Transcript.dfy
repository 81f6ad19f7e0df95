/**
 The backward page reader of a transcript file, and the history import that follows
 its cursors (extensions/anthropic/session-catalog.ts).

 Reads are positional and may return any non-zero short count. Line parsing and the
 serialized size of an item are parameters.
 */
module Transcript {
  import opened Prelude
  import opened Lines

  /** The reader's size constants; `pageBytes` is what remains after the envelope reserve. */
  datatype Limits = Limits(chunk: nat, scan: nat, pageBytes: int) {
    predicate Valid() { chunk > 0 && scan > 0 }
  }

  datatype Page<+T> = Page(items: seq<T>, next: Option<nat>)

  datatype ReadError = InvalidCursor | ScanLimitExceeded

  // ---------------------------------------------------------------- byte budgets

  function Sum(sizes: seq<nat>): nat {
    if sizes == [] then 0 else sizes[0] + Sum(sizes[1..])
  }

  lemma {:induction false} SumPrefixGrows(sizes: seq<nat>, j: nat, k: nat)
    requires j <= k <= |sizes|
    ensures Sum(sizes[..j]) <= Sum(sizes[..k])
    decreases k
  {
    if 0 < j {
      assert sizes[..j][1..] == sizes[1..][..j - 1];
      assert sizes[..k][1..] == sizes[1..][..k - 1];
      SumPrefixGrows(sizes[1..], j - 1, k - 1);
    }
  }

  lemma {:induction false} SumPush(sizes: seq<nat>, k: nat)
    requires k < |sizes|
    ensures Sum(sizes[..k + 1]) == Sum(sizes[..k]) + sizes[k]
  {
    if k > 0 {
      assert sizes[..k + 1][1..] == sizes[1..][..k];
      assert sizes[..k][1..] == sizes[1..][..k - 1];
      SumPush(sizes[1..], k - 1);
    }
  }

  /** A prefix may be taken when it is at most one item or fits the budget. */
  ghost predicate Allowed(sizes: seq<nat>, cap: int, k: nat) {
    k <= |sizes| && (k <= 1 || Sum(sizes[..k]) <= cap)
  }

  /** `k` is the length of the longest allowed prefix. */
  ghost predicate IsLongestFit(sizes: seq<nat>, cap: int, k: nat) {
    Allowed(sizes, cap, k) && forall j :: k < j ==> !Allowed(sizes, cap, j)
  }

  ghost function LongestFit(sizes: seq<nat>, cap: int): (k: nat)
    ensures IsLongestFit(sizes, cap, k)
  {
    LongestFitFrom(sizes, cap, 0)
  }

  ghost function LongestFitFrom(sizes: seq<nat>, cap: int, j: nat): (k: nat)
    requires Allowed(sizes, cap, j)
    ensures j <= k && IsLongestFit(sizes, cap, k)
    decreases |sizes| - j
  {
    if Allowed(sizes, cap, j + 1) then LongestFitFrom(sizes, cap, j + 1)
    else
      NotAllowedBeyond(sizes, cap, j + 1);
      j
  }

  lemma {:induction false} NotAllowedBeyond(sizes: seq<nat>, cap: int, k: nat)
    requires k > 0 && !Allowed(sizes, cap, k)
    ensures forall j :: k <= j ==> !Allowed(sizes, cap, j)
  {
    forall j | k <= j ensures !Allowed(sizes, cap, j) {
      if j <= |sizes| {
        SumPrefixGrows(sizes, k, j);
      }
    }
  }

  lemma {:induction false} LongestFitUnique(sizes: seq<nat>, cap: int, k: nat)
    requires IsLongestFit(sizes, cap, k)
    ensures LongestFit(sizes, cap) == k
  {
    var m := LongestFit(sizes, cap);
    assert m <= k && k <= m;
  }

  function Sizes<T>(size: T -> nat, items: seq<T>): (r: seq<nat>)
    ensures |r| == |items|
    ensures forall k :: 0 <= k < |r| ==> r[k] == size(items[k])
  {
    seq(|items|, k requires 0 <= k < |items| => size(items[k]))
  }

  function ItemsOf<T>(entries: seq<Entry<T>>): (r: seq<T>)
    ensures |r| == |entries|
    ensures forall k :: 0 <= k < |r| ==> r[k] == entries[k].item
  {
    seq(|entries|, k requires 0 <= k < |entries| => entries[k].item)
  }

  /** The selection loop: push entries until one past the first would break the budget. */
  method SelectFitting<T>(size: T -> nat, entries: seq<Entry<T>>, cap: int) returns (selected: seq<Entry<T>>)
    ensures selected == entries[..LongestFit(Sizes(size, ItemsOf(entries)), cap)]
  {
    selected := [];
    var selectedBytes := 0;
    ghost var sizes := Sizes(size, ItemsOf(entries));
    for k := 0 to |entries|
      invariant selected == entries[..k]
      invariant selectedBytes == Sum(sizes[..k])
      invariant Allowed(sizes, cap, k)
    {
      var itemBytes := size(entries[k].item);
      SumPush(sizes, k);
      if |selected| > 0 && selectedBytes + itemBytes > cap {
        NotAllowedBeyond(sizes, cap, k + 1);
        LongestFitUnique(sizes, cap, k);
        return;
      }
      selected := selected + [entries[k]];
      selectedBytes := selectedBytes + itemBytes;
    }
    LongestFitUnique(sizes, cap, |entries|);
  }

  // ---------------------------------------------------------------- what a page is

  function Take<A>(s: seq<A>, n: nat): seq<A> {
    if n <= |s| then s[..n] else s
  }

  /** The leading items whose line is complete once the file is known from `floor` up. */
  function Within<T>(items: seq<Entry<T>>, floor: nat): (r: seq<Entry<T>>)
    ensures |r| <= |items| && r == items[..|r|]
    ensures forall k :: 0 <= k < |r| && floor > 0 ==> floor < r[k].start
    ensures |r| < |items| ==> floor > 0 && items[|r|].start <= floor
  {
    if items == [] || (floor > 0 && items[0].start <= floor) then []
    else [items[0]] + Within(items[1..], floor)
  }

  lemma {:induction false} WithinUnique<T>(items: seq<Entry<T>>, floor: nat, n: nat)
    requires n <= |items|
    requires forall k :: 0 <= k < n && floor > 0 ==> floor < items[k].start
    requires n < |items| ==> floor > 0 && items[n].start <= floor
    ensures Within(items, floor) == items[..n]
  {
    assert Within(items, floor) <= items;
  }

  function Floor(end: nat, scan: nat): nat {
    if end <= scan then 0 else end - scan
  }

  /** At most `limit + 1` of the items the scan window can complete. */
  ghost function Found<T>(parse: Bytes -> Option<T>, f: Bytes, end: nat, limit: nat, scan: nat): seq<Entry<T>>
    requires end <= |f|
  {
    Take(Within(Newest(parse, f, end), Floor(end, scan)), limit + 1)
  }

  /**
   The page of `f` that ends at offset `end`: neither the chunk size, nor how short the
   reads were, nor anything from `end` on matters.
   */
  ghost function PageOf<T>(
      parse: Bytes -> Option<T>, size: T -> nat, f: Bytes, end: nat, limit: nat, scan: nat, cap: int)
    : Result<Page<T>, ReadError>
    requires end <= |f|
  {
    var found := Found(parse, f, end, limit, scan);
    var partial := Floor(end, scan) > 0;
    if partial && |found| < limit then Err(ScanLimitExceeded)
    else Ok(PageFrom(size, found, limit, partial && |found| <= limit, cap))
  }

  ghost function PageFrom<T>(size: T -> nat, found: seq<Entry<T>>, limit: nat, windowed: bool, cap: int): Page<T> {
    var requested := Take(found, limit);
    var n := LongestFit(Sizes(size, ItemsOf(requested)), cap);
    var earlier := n < |found| || windowed;
    Page(ItemsOf(requested[..n]),
         if earlier && n > 0 && requested[n - 1].start > 0 then Some(requested[n - 1].start) else None)
  }

  // ---------------------------------------------------------------- the reader

  /** The pending line, right to left: later fragments hold earlier bytes. */
  function Joined(fragments: seq<Bytes>): Bytes {
    if fragments == [] then []
    else fragments[|fragments| - 1] + Joined(fragments[..|fragments| - 1])
  }

  lemma {:induction false} JoinedEmpty(fragments: seq<Bytes>)
    requires forall k :: 0 <= k < |fragments| ==> fragments[k] != []
    ensures Joined(fragments) == [] <==> fragments == []
  {
  }

  /** The reader holds the bytes of line k from `at` to its end, as fragments. */
  ghost predicate Pending(f: Bytes, end: nat, lines: seq<Line>, k: nat, at: nat, fragments: seq<Bytes>) {
    && k < |lines| && 0 <= EndOf(end, lines, k)
    && NoNewline(f, at, EndOf(end, lines, k))
    && Joined(fragments) == f[at..EndOf(end, lines, k)]
    && (forall i :: 0 <= i < |fragments| ==> fragments[i] != [])
  }

  ghost predicate StartsAbove<T>(entries: seq<Entry<T>>, at: nat) {
    forall k :: 0 <= k < |entries| ==> entries[k].start > at
  }

  /** The items of the newest `k` lines. */
  function Upto<T>(parse: Bytes -> Option<T>, lines: seq<Line>, k: nat): seq<Entry<T>>
    requires k <= |lines|
  {
    if k == 0 then [] else Upto(parse, lines, k - 1) + LineItem(parse, lines[k - 1])
  }

  lemma {:induction false} UptoIsParsed<T>(parse: Bytes -> Option<T>, lines: seq<Line>, k: nat)
    requires k <= |lines|
    ensures Upto(parse, lines, k) == Parsed(parse, lines[..k])
  {
    if k > 0 {
      UptoIsParsed(parse, lines, k - 1);
      ParsedPush(parse, lines[..k - 1], lines[k - 1]);
      assert lines[..k] == lines[..k - 1] + [lines[k - 1]];
    }
  }

  method PositionalRead(file: Bytes, position: nat, want: nat) returns (bytes: Bytes)
    requires 0 < want && position + want <= |file|
    ensures 0 < |bytes| <= want && bytes == file[position..position + |bytes|]
  {
    var n :| 1 <= n <= want;
    bytes := file[position..position + n];
  }

  /** Fill a window exactly, however short the individual reads are. */
  method FillWindow(file: Bytes, position: nat, size: nat) returns (chunk: array<Byte>)
    requires position + size <= |file|
    ensures fresh(chunk) && chunk.Length == size
    ensures chunk[..] == file[position..position + size]
  {
    chunk := new Byte[size](_ => 0);
    var filled := 0;
    while filled < size
      invariant 0 <= filled <= size
      invariant chunk[..filled] == file[position..position + filled]
    {
      var bytes := PositionalRead(file, position + filled, size - filled);
      ghost var before := chunk[..filled];
      forall k | 0 <= k < |bytes| {
        chunk[filled + k] := bytes[k];
      }
      assert chunk[..filled] == before;
      assert chunk[filled..filled + |bytes|] == bytes;
      assert chunk[..filled + |bytes|] == before + bytes;
      SliceJoin(file, position, position + filled, position + filled + |bytes|);
      filled := filled + |bytes|;
    }
  }

  /** Append the item of a completed line, when it is not blank and parses. */
  method Emit<T>(parse: Bytes -> Option<T>, found: seq<Entry<T>>, line: Bytes, start: nat) returns (r: seq<Entry<T>>)
    ensures r == found + LineItem(parse, Line(start, line))
  {
    r := found;
    if |line| > 0 {
      var item := parse(line);
      if item.Some? {
        r := r + [Entry(item.value, start)];
      }
    }
  }

  lemma {:induction false} SliceOfSlice(f: Bytes, p: nat, n: nat, i: nat, j: nat)
    requires i <= j <= n && p + n <= |f|
    ensures f[p..p + n][i..j] == f[p + i..p + j]
  {
    var a, b := f[p..p + n][i..j], f[p + i..p + j];
    assert forall k :: 0 <= k < j - i ==> a[k] == f[p..p + n][i + k] == f[p + (i + k)] == b[k];
  }

  /** A newline at `p` starts the pending line just after it. */
  lemma {:induction false} PendingNewline(
      f: Bytes, end: nat, lines: seq<Line>, k: nat, p: nat, at: nat, segment: Bytes, fragments: seq<Bytes>)
    requires IsChain(f, end, lines) && p < at && Pending(f, end, lines, k, at, fragments)
    requires f[p] == NEWLINE && NoNewline(f, p + 1, at) && segment == f[p + 1..at]
    ensures lines[k] == Line(p + 1, segment + Joined(fragments))
    ensures |segment| > 0 || |fragments| > 0 <==> lines[k].text != []
    ensures Pending(f, end, lines, k + 1, p, [])
  {
    var stop := EndOf(end, lines, k);
    NoNewlineJoin(f, p + 1, at, stop);
    LineAfterNewline(f, end, lines, k, p, stop);
    SliceJoin(f, p + 1, at, stop);
    JoinedEmpty(fragments);
    assert f[p..p] == [];
  }

  lemma {:induction false} LineAfterNewline(f: Bytes, end: nat, lines: seq<Line>, k: nat, p: nat, stop: nat)
    requires IsChain(f, end, lines) && k < |lines| && stop == EndOf(end, lines, k)
    requires p < |f| && f[p] == NEWLINE && NoNewline(f, p + 1, stop)
    ensures lines[k] == Line(p + 1, f[p + 1..stop])
    ensures k + 1 < |lines| && EndOf(end, lines, k + 1) == p
  {
    assert IsLink(f, end, lines, k);
    LineStartUnique(f, lines[k].start, p + 1, stop);
  }

  /** With no newline left below, the pending line is the first line of the file. */
  lemma {:induction false} PendingFirst(
      f: Bytes, end: nat, lines: seq<Line>, k: nat, at: nat, prefix: Bytes, fragments: seq<Bytes>)
    requires IsChain(f, end, lines) && Pending(f, end, lines, k, at, fragments)
    requires NoNewline(f, 0, at) && prefix == f[0..at]
    ensures k + 1 == |lines| && lines[k] == Line(0, prefix + Joined(fragments))
    ensures |prefix| > 0 || |fragments| > 0 <==> lines[k].text != []
  {
    assert IsLink(f, end, lines, k);
    var stop := EndOf(end, lines, k);
    SliceJoin(f, 0, at, stop);
    JoinedEmpty(fragments);
  }

  /** Bytes without a newline to the left extend the pending line. */
  lemma {:induction false} PendingExtend(
      f: Bytes, end: nat, lines: seq<Line>, k: nat, position: nat, at: nat, prefix: Bytes, fragments: seq<Bytes>)
    requires Pending(f, end, lines, k, at, fragments)
    requires NoNewline(f, position, at) && prefix == f[position..at]
    ensures Pending(f, end, lines, k, position, if |prefix| > 0 then fragments + [prefix] else fragments)
  {
    var stop := EndOf(end, lines, k);
    SliceJoin(f, position, at, stop);
    if |prefix| > 0 {
      assert (fragments + [prefix])[..|fragments|] == fragments;
    }
  }

  /** The newline at `index` of the window completes line k: emit it and leave nothing pending. */
  method CompleteLine<T>(parse: Bytes -> Option<T>, ghost f: Bytes, ghost end: nat, ghost lines: seq<Line>,
      ghost k: nat, position: nat,
                         chunk: Bytes, index: nat, right: nat, fragments: seq<Bytes>, found0: seq<Entry<T>>)
    returns (found: seq<Entry<T>>)
    requires IsChain(f, end, lines) && Agrees(f, position, chunk) && index < right <= |chunk|
    requires Pending(f, end, lines, k, position + right, fragments)
    requires chunk[index] == NEWLINE && NoNewline(f, position + index + 1, position + right)
    requires found0 == Upto(parse, lines, k) && StartsAbove(found0, position + index + 1)
    ensures k < |lines| && found == Upto(parse, lines, k + 1)
    ensures StartsAbove(found, position + index) && |found| <= |found0| + 1
    ensures Pending(f, end, lines, k + 1, position + index, [])
  {
    var segment := chunk[index + 1..right];
    WindowFacts(f, position, chunk, index, right);
    PendingNewline(f, end, lines, k, position + index, position + right, segment, fragments);
    found := found0;
    if |segment| > 0 || |fragments| > 0 {
      found := Emit(parse, found, segment + Joined(fragments), position + index + 1);
    }
  }

  /** `chunk` holds the bytes of `f` from `position` on. */
  ghost predicate Agrees(f: Bytes, position: nat, chunk: Bytes) {
    position + |chunk| <= |f| && forall i :: 0 <= i < |chunk| ==> chunk[i] == f[position + i]
  }

  lemma {:induction false} WindowFacts(f: Bytes, position: nat, chunk: Bytes, index: nat, right: nat)
    requires Agrees(f, position, chunk)
    requires index < right <= |chunk|
    ensures chunk[index] == f[position + index]
    ensures chunk[index + 1..right] == f[position + index + 1..position + right]
  {
    var a, b := chunk[index + 1..right], f[position + index + 1..position + right];
    assert forall k :: 0 <= k < |a| ==> a[k] == chunk[index + 1 + k] == b[k];
  }

  /**
   Scan one filled window right to left, finding every line that a newline inside it
   completes. Stops early once one item more than `limit` has been found.
   */
  method ScanWindow<T>(parse: Bytes -> Option<T>, ghost f: Bytes, ghost end: nat, ghost lines: seq<Line>, ghost k0: nat,
                       position: nat, chunk: Bytes, limit: nat, fragments0: seq<Bytes>, found0: seq<Entry<T>>)
    returns (ghost k: nat, right: nat, fragments: seq<Bytes>, found: seq<Entry<T>>)
    requires IsChain(f, end, lines) && Agrees(f, position, chunk)
    requires Pending(f, end, lines, k0, position + |chunk|, fragments0)
    requires found0 == Upto(parse, lines, k0) && StartsAbove(found0, position + |chunk|)
    requires |found0| <= limit
    ensures k <= |lines| && found == Upto(parse, lines, k) && StartsAbove(found, position) && |found| <= limit + 1
    ensures |found| <= limit ==>
              && right <= |chunk| && NoNewline(f, position, position + right)
              && Pending(f, end, lines, k, position + right, fragments)
  {
    k, right, fragments, found := k0, |chunk|, fragments0, found0;
    var index: nat := |chunk|;
    while index > 0
      invariant index <= right <= |chunk| && |found| <= limit
      invariant Scanned(parse, f, end, lines, k, position, index, right, fragments, found)
    {
      index := index - 1;
      k, right, fragments, found := ScanByte(parse, f, end, lines, k, position, chunk, index, right, fragments, found);
      if |found| > limit {
        return;
      }
    }
  }

  /** The window is scanned down to `index`; its bytes from there to `right` belong to line k. */
  ghost predicate Scanned<T>(parse: Bytes -> Option<T>, f: Bytes, end: nat, lines: seq<Line>, k: nat, position: nat,
      index: nat, right: nat,
                             fragments: seq<Bytes>, found: seq<Entry<T>>) {
    && NoNewline(f, position + index, position + right)
    && Pending(f, end, lines, k, position + right, fragments)
    && found == Upto(parse, lines, k) && StartsAbove(found, position + index)
  }

  method ScanByte<T>(parse: Bytes -> Option<T>, ghost f: Bytes, ghost end: nat, ghost lines: seq<Line>, ghost k0: nat,
      position: nat,
                     chunk: Bytes, index: nat, right0: nat, fragments0: seq<Bytes>, found0: seq<Entry<T>>)
    returns (ghost k: nat, right: nat, fragments: seq<Bytes>, found: seq<Entry<T>>)
    requires IsChain(f, end, lines) && Agrees(f, position, chunk) && index < right0 <= |chunk|
    requires Scanned(parse, f, end, lines, k0, position, index + 1, right0, fragments0, found0)
    ensures index <= right <= |chunk| && |found| <= |found0| + 1
    ensures Scanned(parse, f, end, lines, k, position, index, right, fragments, found)
    ensures StartsAbove(found, position)
  {
    k, right, fragments, found := k0, right0, fragments0, found0;
    if chunk[index] == NEWLINE {
      found := CompleteLine(parse, f, end, lines, k, position, chunk, index, right, fragments, found);
      k, fragments, right := k + 1, [], index;
    } else {
      NoNewlineExtend(f, position + index, position + right, found);
    }
  }

  lemma {:induction false} NoNewlineExtend<T>(f: Bytes, p: nat, to: nat, found: seq<Entry<T>>)
    requires p < |f| && f[p] != NEWLINE && NoNewline(f, p + 1, to) && StartsAbove(found, p + 1)
    ensures NoNewline(f, p, to) && StartsAbove(found, p)
  {
  }

  /** The scan misses nothing that its window completes: `rest` lies at or below the floor. */
  lemma {:induction false} FoundIsComplete<T>(found: seq<Entry<T>>, rest: seq<Entry<T>>, limit: nat, floor: nat)
    requires |found| <= limit + 1 && (floor > 0 ==> StartsAbove(found, floor))
    requires |found| <= limit && rest != [] ==> floor > 0 && rest[0].start <= floor
    ensures found == Take(Within(found + rest, floor), limit + 1)
  {
    if |found| <= limit {
      WithinUnique(found + rest, floor, |found|);
    } else {
      WithinKeepsPrefix(found, rest, floor);
    }
  }

  lemma {:induction false} WithinKeepsPrefix<T>(a: seq<Entry<T>>, b: seq<Entry<T>>, floor: nat)
    requires floor > 0 ==> StartsAbove(a, floor)
    ensures a <= Within(a + b, floor)
  {
    var w := Within(a + b, floor);
    assert forall k :: 0 <= k < |a| ==> (a + b)[k] == a[k];
  }

  /** The chunked backward scan. It stops above offset 0 only at the scan limit or with enough items. */
  method ScanBack<T>(
      parse: Bytes -> Option<T>, file: Bytes, end: nat, limit: nat, limits: Limits, ghost lines: seq<Line>)
    returns (position: nat, found: seq<Entry<T>>, ghost k: nat)
    requires limits.Valid() && end <= |file| && IsChain(file, end, lines)
    ensures k <= |lines| && found == Upto(parse, lines, k)
    ensures |found| <= limit + 1 && (position > 0 ==> StartsAbove(found, position))
    ensures Floor(end, limits.scan) <= position
    ensures |found| <= limit ==> position == Floor(end, limits.scan)
    ensures |found| <= limit && position > 0 ==> k < |lines| && lines[k].start <= position
    ensures |found| <= limit && position == 0 ==> k == |lines| || end == 0
  {
    position, found, k := end, [], 0;
    var scanned := 0;
    var fragments: seq<Bytes> := [];
    assert file[end..end] == [];
    while position > 0 && scanned < limits.scan && |found| <= limit
      invariant position + scanned == end && scanned <= limits.scan
      invariant k <= |lines| && found == Upto(parse, lines, k) && |found| <= limit + 1
      invariant position > 0 ==> StartsAbove(found, position)
      invariant position > 0 && |found| <= limit ==> Pending(file, end, lines, k, position, fragments)
      invariant position == 0 && |found| <= limit ==> k == |lines| || end == 0
      decreases position
    {
      var size := Min(Min(limits.chunk, position), limits.scan - scanned);
      position := position - size;
      var window := FillWindow(file, position, size);
      var chunk := window[..];
      scanned := scanned + size;
      var right;
      k, right, fragments, found := ScanWindow(parse, file, end, lines, k, position, chunk, limit, fragments, found);
      if |found| > limit {
        break;
      }
      k, fragments, found := CloseWindow(parse, file, end, lines, k, position, right, chunk, fragments, found);
    }
    if |found| <= limit && position > 0 {
      LineStartsBelow(file, end, lines, k, position, fragments);
    }
  }

  lemma {:induction false} LineStartsBelow(f: Bytes, end: nat, lines: seq<Line>, k: nat, at: nat, fragments: seq<Bytes>)
    requires IsChain(f, end, lines) && Pending(f, end, lines, k, at, fragments)
    ensures lines[k].start <= at
  {
    assert IsLink(f, end, lines, k);
    LineStartBelow(f, lines[k].start, at, EndOf(end, lines, k));
  }

  /** What is left of a window is the first line of the file, or one more fragment. */
  method CloseWindow<T>(parse: Bytes -> Option<T>, ghost f: Bytes, ghost end: nat, ghost lines: seq<Line>,
      ghost k0: nat, position: nat,
                        right: nat, chunk: Bytes, fragments0: seq<Bytes>, found0: seq<Entry<T>>)
    returns (ghost k: nat, fragments: seq<Bytes>, found: seq<Entry<T>>)
    requires IsChain(f, end, lines)
    requires position + |chunk| <= |f| && chunk == f[position..position + |chunk|]
    requires right <= |chunk| && NoNewline(f, position, position + right)
    requires Pending(f, end, lines, k0, position + right, fragments0)
    requires found0 == Upto(parse, lines, k0)
    ensures k == if position == 0 then k0 + 1 else k0
    ensures position == 0 ==> k0 + 1 == |lines| && found == Upto(parse, lines, k0 + 1) && |found| <= |found0| + 1
    ensures position > 0 ==> found == found0 && Pending(f, end, lines, k0, position, fragments)
  {
    var prefix := chunk[..right];
    SliceOfSlice(f, position, |chunk|, 0, right);
    if position == 0 {
      found := CloseFile(parse, f, end, lines, k0, prefix, fragments0, found0);
      k, fragments := k0 + 1, [];
    } else {
      PendingExtend(f, end, lines, k0, position, position + right, prefix, fragments0);
      k, found := k0, found0;
      fragments := if |prefix| > 0 then fragments0 + [prefix] else fragments0;
    }
  }

  method CloseFile<T>(parse: Bytes -> Option<T>, ghost f: Bytes, ghost end: nat, ghost lines: seq<Line>, ghost k: nat,
                      prefix: Bytes, fragments: seq<Bytes>, found0: seq<Entry<T>>)
    returns (found: seq<Entry<T>>)
    requires IsChain(f, end, lines) && NoNewline(f, 0, |prefix|) && prefix == f[0..|prefix|]
    requires Pending(f, end, lines, k, |prefix|, fragments) && found0 == Upto(parse, lines, k)
    ensures k + 1 == |lines| && found == Upto(parse, lines, k + 1) && |found| <= |found0| + 1
  {
    PendingFirst(f, end, lines, k, |prefix|, prefix, fragments);
    found := found0;
    if |prefix| > 0 || |fragments| > 0 {
      found := Emit(parse, found, prefix + Joined(fragments), 0);
    }
  }

  lemma {:induction false} ParsedSplit<T>(parse: Bytes -> Option<T>, lines: seq<Line>, k: nat)
    requires k <= |lines|
    ensures Parsed(parse, lines) == Parsed(parse, lines[..k]) + Parsed(parse, lines[k..])
  {
    assert lines == lines[..k] + lines[k..];
    ParsedConcat(parse, lines[..k], lines[k..]);
  }

  method FindItems<T>(parse: Bytes -> Option<T>, file: Bytes, end: nat, limit: nat, limits: Limits)
    returns (position: nat, found: seq<Entry<T>>)
    requires limits.Valid() && end <= |file|
    ensures found == Found(parse, file, end, limit, limits.scan)
    ensures |found| <= limit ==> position == Floor(end, limits.scan)
  {
    ghost var lines := LinesBefore(file, end);
    ghost var k;
    position, found, k := ScanBack(parse, file, end, limit, limits, lines);
    ParsedSplit(parse, lines, k);
    UptoIsParsed(parse, lines, k);
    ghost var rest := Parsed(parse, lines[k..]);
    if |found| <= limit {
      if position > 0 {
        ParsedOrdered(parse, file, end, lines, k + 1);
        FirstStart(parse, lines, k);
      } else if k < |lines| {
        assert IsLink(file, end, lines, 0);
        assert rest == [];
      }
    }
    FoundIsComplete(found, rest, limit, Floor(end, limits.scan));
  }

  lemma {:induction false} FirstStart<T>(parse: Bytes -> Option<T>, lines: seq<Line>, k: nat)
    requires k < |lines| && Descending(Parsed(parse, lines[k + 1..]), lines[k].start)
    ensures Parsed(parse, lines[k..]) != [] ==> Parsed(parse, lines[k..])[0].start <= lines[k].start
  {
    assert lines[k..][0] == lines[k] && lines[k..][1..] == lines[k + 1..];
  }

  /** Read the page of at most `limit` items that ends at `cursor`, or at the end of the file. */
  method ReadPage<T>(
      parse: Bytes -> Option<T>, size: T -> nat, file: Bytes, cursor: Option<nat>, limit: nat, limits: Limits)
    returns (r: Result<Page<T>, ReadError>)
    requires limits.Valid() && limit > 0
    ensures cursor.Some? && cursor.value > |file| ==> r == Err(InvalidCursor)
    ensures cursor.Some? && cursor.value <= |file| ==>
              r == PageOf(parse, size, file, cursor.value, limit, limits.scan, limits.pageBytes)
    ensures cursor.None? ==> r == PageOf(parse, size, file, |file|, limit, limits.scan, limits.pageBytes)
  {
    var requestedEnd := match cursor case Some(c) => c case None => |file|;
    if requestedEnd > |file| {
      return Err(InvalidCursor);
    }
    var position, found := FindItems(parse, file, requestedEnd, limit, limits);
    if position > 0 && |found| < limit {
      return Err(ScanLimitExceeded);
    }
    var page := BuildPage(size, found, limit, position > 0, limits.pageBytes);
    r := Ok(page);
  }

  method BuildPage<T>(size: T -> nat, found: seq<Entry<T>>, limit: nat, partial: bool, cap: int) returns (page: Page<T>)
    requires |found| <= limit + 1
    ensures page == PageFrom(size, found, limit, partial && |found| <= limit, cap)
  {
    var requested := Take(found, limit);
    var selected := SelectFitting(size, requested, cap);
    var hasEarlier := |selected| < |found| || partial;
    var next := None;
    if hasEarlier && |selected| > 0 && selected[|selected| - 1].start > 0 {
      next := Some(selected[|selected| - 1].start);
    }
    page := Page(ItemsOf(selected), next);
  }
}
