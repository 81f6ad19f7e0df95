/**
 The lines of the first `end` bytes of a file: described by their offsets, newest first
 (the order in which the page reader meets them), and read off the front one by one (the
 reference reading).
 */
module Lines {
  import opened Prelude

  datatype Line = Line(start: nat, text: Bytes)

  /** A parsed line together with the file offset of its first byte. */
  datatype Entry<+T> = Entry(item: T, start: nat)

  ghost predicate NoNewline(f: Bytes, from: nat, to: nat) {
    from <= to <= |f| && forall k :: from <= k < to ==> f[k] != NEWLINE
  }

  predicate AtLineStart(f: Bytes, p: nat) {
    p <= |f| && (p == 0 || f[p - 1] == NEWLINE)
  }

  lemma {:induction false} LineStartUnique(f: Bytes, i: nat, j: nat, end: nat)
    requires NoNewline(f, i, end) && AtLineStart(f, i)
    requires NoNewline(f, j, end) && AtLineStart(f, j)
    ensures i == j
  {
  }

  lemma {:induction false} LineStartBelow(f: Bytes, i: nat, at: nat, end: nat)
    requires AtLineStart(f, i) && i <= end && NoNewline(f, at, end)
    ensures i <= at
  {
  }

  lemma {:induction false} NoNewlineJoin(f: Bytes, i: nat, j: nat, k: nat)
    requires NoNewline(f, i, j) && NoNewline(f, j, k)
    ensures NoNewline(f, i, k)
  {
  }

  // ---------------------------------------------------------------- newest first, by offsets

  /** Where the k-th line from the end stops: at the newline before the line after it. */
  function EndOf(end: nat, lines: seq<Line>, k: nat): int
    requires k <= |lines|
  {
    if k == 0 then end else lines[k - 1].start - 1
  }

  ghost predicate IsLink(f: Bytes, end: nat, lines: seq<Line>, k: nat)
    requires k < |lines|
  {
    var start, stop := lines[k].start, EndOf(end, lines, k);
    && 0 <= stop && NoNewline(f, start, stop) && lines[k].text == f[start..stop]
    && AtLineStart(f, start) && (start > 0 <==> k + 1 < |lines|)
  }

  ghost predicate IsChain(f: Bytes, end: nat, lines: seq<Line>) {
    |lines| > 0 && forall k {:trigger IsLink(f, end, lines, k)} :: 0 <= k < |lines| ==> IsLink(f, end, lines, k)
  }

  lemma {:induction false} ChainUniqueUpTo(f: Bytes, end: nat, a: seq<Line>, b: seq<Line>, k: nat)
    requires IsChain(f, end, a) && IsChain(f, end, b)
    requires k <= |a| && k <= |b|
    ensures a[..k] == b[..k]
  {
    if k > 0 {
      ChainUniqueUpTo(f, end, a, b, k - 1);
      assert IsLink(f, end, a, k - 1) && IsLink(f, end, b, k - 1);
      assert k > 1 ==> a[k - 2] == a[..k - 1][k - 2] == b[k - 2];
      LineStartUnique(f, a[k - 1].start, b[k - 1].start, EndOf(end, a, k - 1));
      assert a[..k] == a[..k - 1] + [a[k - 1]] && b[..k] == b[..k - 1] + [b[k - 1]];
    }
  }

  lemma {:induction false} ChainUnique(f: Bytes, end: nat, a: seq<Line>, b: seq<Line>)
    requires IsChain(f, end, a) && IsChain(f, end, b)
    ensures a == b
  {
    var k := if |a| <= |b| then |a| else |b|;
    ChainUniqueUpTo(f, end, a, b, k);
    assert IsLink(f, end, a, k - 1) && IsLink(f, end, b, k - 1);
    assert a[k - 1] == a[..k][k - 1] == b[k - 1];
    assert a == a[..k] && b == b[..k];
  }

  /** The lines before `end`, newest first. */
  ghost function LinesBefore(f: Bytes, end: nat): (lines: seq<Line>)
    requires end <= |f|
    ensures IsChain(f, end, lines)
  {
    ForwardIsChain(f, end);
    var lines :| IsChain(f, end, lines);
    lines
  }

  /** Cutting at the start of line k leaves an empty line there and the lines before it. */
  lemma {:induction false} LinesAtCut(f: Bytes, end: nat, k: nat)
    requires end <= |f| && k < |LinesBefore(f, end)|
    ensures LinesBefore(f, end)[k].start <= end
    ensures LinesBefore(f, LinesBefore(f, end)[k].start) ==
            [Line(LinesBefore(f, end)[k].start, [])] + LinesBefore(f, end)[k + 1..]
  {
    var lines := LinesBefore(f, end);
    StartsBelow(f, end, lines, k);
    CutIsChain(f, end, lines, k);
    var cut := lines[k].start;
    ChainUnique(f, cut, LinesBefore(f, cut), [Line(cut, [])] + lines[k + 1..]);
  }

  lemma {:induction false} StartsBelow(f: Bytes, end: nat, lines: seq<Line>, k: nat)
    requires IsChain(f, end, lines) && k < |lines|
    ensures lines[k].start <= end
  {
    assert IsLink(f, end, lines, k);
    if k > 0 {
      StartsBelow(f, end, lines, k - 1);
    }
  }

  lemma {:induction false} CutIsChain(f: Bytes, end: nat, lines: seq<Line>, k: nat)
    requires IsChain(f, end, lines) && k < |lines|
    ensures IsChain(f, lines[k].start, [Line(lines[k].start, [])] + lines[k + 1..])
  {
    var cut := lines[k].start;
    var cutLines := [Line(cut, [])] + lines[k + 1..];
    forall j | 0 <= j < |cutLines| ensures IsLink(f, cut, cutLines, j) {
      assert IsLink(f, end, lines, k + j);
      assert j > 0 ==> cutLines[j] == lines[k + j];
      assert EndOf(cut, cutLines, j) == if j == 0 then cut else EndOf(end, lines, k + j);
    }
  }

  /** Only the bytes before `end` matter: appending to the file changes nothing. */
  lemma {:induction false} LinesOfPrefix(f: Bytes, g: Bytes, end: nat)
    requires f <= g && end <= |f|
    ensures LinesBefore(f, end) == LinesBefore(g, end)
  {
    var lines := LinesBefore(f, end);
    forall k | 0 <= k < |lines| ensures IsLink(g, end, lines, k) {
      assert IsLink(f, end, lines, k);
      StartsBelow(f, end, lines, k);
      LinkInLonger(f, g, lines[k].start, EndOf(end, lines, k));
    }
    ChainUnique(g, end, lines, LinesBefore(g, end));
  }

  lemma {:induction false} LinkInLonger(f: Bytes, g: Bytes, start: nat, stop: nat)
    requires f <= g && NoNewline(f, start, stop) && AtLineStart(f, start)
    ensures NoNewline(g, start, stop) && AtLineStart(g, start) && f[start..stop] == g[start..stop]
  {
  }

  // ---------------------------------------------------------------- oldest first, one by one

  function NextNewline(f: Bytes, from: nat, end: nat): (i: nat)
    requires from <= end <= |f|
    ensures from <= i <= end && NoNewline(f, from, i)
    ensures i < end ==> f[i] == NEWLINE
    decreases end - from
  {
    if from == end || f[from] == NEWLINE then from else NextNewline(f, from + 1, end)
  }

  lemma {:induction false} NextNewlineUnique(f: Bytes, from: nat, i: nat, end: nat)
    requires NoNewline(f, from, i) && i <= end <= |f|
    requires i < end ==> f[i] == NEWLINE
    ensures NextNewline(f, from, end) == i
  {
  }

  /** Reference reading: the lines between offsets `from` and `end`, oldest first. */
  function LinesFrom(f: Bytes, from: nat, end: nat): seq<Line>
    requires from <= end <= |f|
    decreases end - from
  {
    var n := NextNewline(f, from, end);
    [Line(from, f[from..n])] + if n == end then [] else LinesFrom(f, n + 1, end)
  }

  function StopOf(end: nat, lines: seq<Line>, i: nat): int
    requires i < |lines|
  {
    if i + 1 < |lines| then lines[i + 1].start - 1 else end
  }

  ghost predicate IsForwardLink(f: Bytes, end: nat, lines: seq<Line>, i: nat)
    requires i < |lines|
  {
    var start, stop := lines[i].start, StopOf(end, lines, i);
    && 0 <= stop && NoNewline(f, start, stop) && lines[i].text == f[start..stop]
    && (i > 0 ==> start > 0 && AtLineStart(f, start))
  }

  ghost predicate IsForward(f: Bytes, from: nat, end: nat, lines: seq<Line>) {
    && |lines| > 0 && lines[0].start == from
    && forall i {:trigger IsForwardLink(f, end, lines, i)} :: 0 <= i < |lines| ==> IsForwardLink(f, end, lines, i)
  }

  lemma {:induction false} LinesFromIsForward(f: Bytes, from: nat, end: nat)
    requires from <= end <= |f|
    ensures IsForward(f, from, end, LinesFrom(f, from, end))
    decreases end - from
  {
    var n := NextNewline(f, from, end);
    if n == end {
      assert LinesFrom(f, from, end) == [Line(from, f[from..n])];
    } else {
      LinesFromIsForward(f, n + 1, end);
      ForwardStep(f, from, n, end, LinesFrom(f, n + 1, end));
    }
  }

  lemma {:induction false} ForwardStep(f: Bytes, from: nat, n: nat, end: nat, rest: seq<Line>)
    requires NoNewline(f, from, n) && n < |f| && f[n] == NEWLINE
    requires IsForward(f, n + 1, end, rest)
    ensures IsForward(f, from, end, [Line(from, f[from..n])] + rest)
  {
    var lines := [Line(from, f[from..n])] + rest;
    forall i | 0 <= i < |lines| ensures IsForwardLink(f, end, lines, i) {
      if i > 0 {
        assert IsForwardLink(f, end, rest, i - 1);
        assert StopOf(end, lines, i) == StopOf(end, rest, i - 1);
      }
    }
  }

  lemma {:induction false} ForwardIsChain(f: Bytes, end: nat)
    requires end <= |f|
    ensures IsChain(f, end, Reverse(LinesFrom(f, 0, end)))
  {
    LinesFromIsForward(f, 0, end);
    ReverseIsChain(f, end, LinesFrom(f, 0, end));
  }

  lemma {:induction false} ReverseIsChain(f: Bytes, end: nat, lines: seq<Line>)
    requires IsForward(f, 0, end, lines)
    ensures IsChain(f, end, Reverse(lines))
  {
    var back := Reverse(lines);
    forall k | 0 <= k < |back| ensures IsLink(f, end, back, k) {
      var i := |lines| - 1 - k;
      assert IsForwardLink(f, end, lines, i);
      assert EndOf(end, back, k) == StopOf(end, lines, i);
    }
  }

  lemma {:induction false} ForwardStartsBelow(f: Bytes, from: nat, end: nat, lines: seq<Line>, i: nat)
    requires IsForward(f, from, end, lines) && i < |lines|
    ensures from <= lines[i].start <= StopOf(end, lines, i) <= end
    ensures i > 0 ==> from < lines[i].start
    decreases |lines| - i
  {
    ForwardStartsAbove(f, from, end, lines, i);
    assert IsForwardLink(f, end, lines, i);
    if i + 1 < |lines| {
      ForwardStartsBelow(f, from, end, lines, i + 1);
    }
  }

  lemma {:induction false} ForwardStartsAbove(f: Bytes, from: nat, end: nat, lines: seq<Line>, i: nat)
    requires IsForward(f, from, end, lines) && i < |lines|
    ensures from <= lines[i].start && (i > 0 ==> from < lines[i].start)
  {
    if i > 0 {
      ForwardStartsAbove(f, from, end, lines, i - 1);
      assert IsForwardLink(f, end, lines, i - 1);
    }
  }

  lemma {:induction false} SameStop(f: Bytes, start: nat, s: nat, t: nat, end: nat)
    requires NoNewline(f, start, s) && NoNewline(f, start, t) && s <= end <= |f| && t <= end
    requires (s < end ==> f[s] == NEWLINE) && (t < end ==> f[t] == NEWLINE)
    ensures s == t
  {
  }

  lemma {:induction false} ForwardUniqueAt(f: Bytes, from: nat, end: nat, a: seq<Line>, b: seq<Line>, k: nat)
    requires IsForward(f, from, end, a) && IsForward(f, from, end, b) && end <= |f|
    requires k < |a|
    ensures k < |b| && a[k] == b[k] && (k + 1 < |a| <==> k + 1 < |b|)
  {
    if k > 0 {
      ForwardUniqueAt(f, from, end, a, b, k - 1);
      ForwardStops(f, from, end, a, b, k - 1);
    }
    ForwardStops(f, from, end, a, b, k);
  }

  lemma {:induction false} ForwardStops(f: Bytes, from: nat, end: nat, a: seq<Line>, b: seq<Line>, k: nat)
    requires IsForward(f, from, end, a) && IsForward(f, from, end, b) && end <= |f|
    requires k < |a| && k < |b| && a[k].start == b[k].start
    ensures a[k] == b[k] && StopOf(end, a, k) == StopOf(end, b, k) && (k + 1 < |a| <==> k + 1 < |b|)
  {
    ForwardStartsBelow(f, from, end, a, k);
    ForwardStartsBelow(f, from, end, b, k);
    ForwardCut(f, from, end, a, k);
    ForwardCut(f, from, end, b, k);
    assert IsForwardLink(f, end, a, k) && IsForwardLink(f, end, b, k);
    SameStop(f, a[k].start, StopOf(end, a, k), StopOf(end, b, k), end);
  }

  lemma {:induction false} ForwardCut(f: Bytes, from: nat, end: nat, lines: seq<Line>, k: nat)
    requires IsForward(f, from, end, lines) && end <= |f| && k < |lines|
    ensures 0 <= StopOf(end, lines, k) <= end
    ensures k + 1 < |lines| <==> StopOf(end, lines, k) < end
    ensures StopOf(end, lines, k) < end ==> f[StopOf(end, lines, k)] == NEWLINE
  {
    ForwardStartsBelow(f, from, end, lines, k);
    if k + 1 < |lines| {
      ForwardStartsBelow(f, from, end, lines, k + 1);
      assert IsForwardLink(f, end, lines, k + 1);
    }
  }

  lemma {:induction false} ForwardUnique(f: Bytes, from: nat, end: nat, a: seq<Line>, b: seq<Line>)
    requires IsForward(f, from, end, a) && IsForward(f, from, end, b) && end <= |f|
    ensures a == b
  {
    ForwardUniqueAt(f, from, end, a, b, |a| - 1);
    forall k | 0 <= k < |a| ensures k < |b| && a[k] == b[k] {
      ForwardUniqueAt(f, from, end, a, b, k);
    }
  }

  /** The lines between two offsets, oldest first. */
  ghost function LinesBetween(f: Bytes, from: nat, end: nat): (lines: seq<Line>)
    requires from <= end <= |f|
    ensures IsForward(f, from, end, lines)
  {
    LinesFromIsForward(f, from, end);
    var lines :| IsForward(f, from, end, lines);
    lines
  }

  /** They are the reference reading. */
  lemma {:induction false} LinesBetweenAreRead(f: Bytes, from: nat, end: nat)
    requires from <= end <= |f|
    ensures LinesBetween(f, from, end) == LinesFrom(f, from, end)
  {
    LinesFromIsForward(f, from, end);
    ForwardUnique(f, from, end, LinesBetween(f, from, end), LinesFrom(f, from, end));
  }

  /** Two stretches that meet behind a newline have the lines of both. */
  lemma {:induction false} ForwardConcat(f: Bytes, a: nat, b: nat, end: nat, older: seq<Line>, newer: seq<Line>)
    requires 0 < b <= end <= |f| && f[b - 1] == NEWLINE
    requires IsForward(f, a, b - 1, older) && IsForward(f, b, end, newer)
    ensures IsForward(f, a, end, older + newer)
  {
    var lines := older + newer;
    forall i | 0 <= i < |lines| ensures IsForwardLink(f, end, lines, i) {
      if i < |older| {
        assert IsForwardLink(f, b - 1, older, i);
        assert StopOf(end, lines, i) == StopOf(b - 1, older, i);
      } else {
        assert IsForwardLink(f, end, newer, i - |older|);
        assert StopOf(end, lines, i) == StopOf(end, newer, i - |older|);
      }
    }
  }

  lemma {:induction false} LinesBetweenSplit(f: Bytes, a: nat, b: nat, end: nat)
    requires a < b <= end <= |f| && f[b - 1] == NEWLINE
    ensures LinesBetween(f, a, end) == LinesBetween(f, a, b - 1) + LinesBetween(f, b, end)
  {
    var older, newer := LinesBetween(f, a, b - 1), LinesBetween(f, b, end);
    ForwardConcat(f, a, b, end, older, newer);
    ForwardUnique(f, a, end, LinesBetween(f, a, end), older + newer);
  }

  // ---------------------------------------------------------------- items

  function LineItem<T>(parse: Bytes -> Option<T>, line: Line): (r: seq<Entry<T>>)
    ensures |r| <= 1
    ensures r != [] ==> line.text != [] && r[0].start == line.start
  {
    if line.text == [] then []
    else match parse(line.text)
      case None => []
      case Some(item) => [Entry(item, line.start)]
  }

  /** Keep the lines that are not blank and parse. */
  function Parsed<T>(parse: Bytes -> Option<T>, lines: seq<Line>): seq<Entry<T>> {
    if lines == [] then [] else LineItem(parse, lines[0]) + Parsed(parse, lines[1..])
  }

  /** The transcript items before `end`, oldest first: the reference reading. */
  function Items<T>(parse: Bytes -> Option<T>, f: Bytes, end: nat): seq<Entry<T>>
    requires end <= |f|
  {
    Parsed(parse, LinesFrom(f, 0, end))
  }

  /** The transcript items before `end`, newest first. */
  ghost function Newest<T>(parse: Bytes -> Option<T>, f: Bytes, end: nat): seq<Entry<T>>
    requires end <= |f|
  {
    Parsed(parse, LinesBefore(f, end))
  }

  lemma {:induction false} ParsedConcat<T>(parse: Bytes -> Option<T>, a: seq<Line>, b: seq<Line>)
    ensures Parsed(parse, a + b) == Parsed(parse, a) + Parsed(parse, b)
  {
    if a == [] {
      assert a + b == b;
    } else {
      assert (a + b)[1..] == a[1..] + b;
      ParsedConcat(parse, a[1..], b);
      Assoc(LineItem(parse, a[0]), Parsed(parse, a[1..]), Parsed(parse, b));
    }
  }

  lemma {:induction false} ParsedPush<T>(parse: Bytes -> Option<T>, lines: seq<Line>, line: Line)
    ensures Parsed(parse, lines + [line]) == Parsed(parse, lines) + LineItem(parse, line)
  {
    ParsedConcat(parse, lines, [line]);
    assert Parsed(parse, [line]) == LineItem(parse, line) + Parsed(parse, []);
  }

  lemma {:induction false} ParsedReverse<T>(parse: Bytes -> Option<T>, a: seq<Line>)
    ensures Parsed(parse, Reverse(a)) == Reverse(Parsed(parse, a))
  {
    if a != [] {
      ParsedReverse(parse, a[1..]);
      ParsedPush(parse, Reverse(a[1..]), a[0]);
      ReverseConcat(LineItem(parse, a[0]), Parsed(parse, a[1..]));
      assert Reverse(LineItem(parse, a[0])) == LineItem(parse, a[0]);
    }
  }

  /** Reading a transcript backwards gives the reversal of reading it forwards. */
  lemma {:induction false} NewestIsReversedItems<T>(parse: Bytes -> Option<T>, f: Bytes, end: nat)
    requires end <= |f|
    ensures Newest(parse, f, end) == Reverse(Items(parse, f, end))
  {
    ForwardIsChain(f, end);
    ChainUnique(f, end, LinesBefore(f, end), Reverse(LinesFrom(f, 0, end)));
    ParsedReverse(parse, LinesFrom(f, 0, end));
  }

  /** Starts lie below `end` at line starts and go strictly down. */
  ghost predicate Descending<T>(items: seq<Entry<T>>, end: nat) {
    && (forall k :: 0 <= k < |items| ==> items[k].start < end)
    && (forall j, k :: 0 <= j < k < |items| ==> items[k].start < items[j].start)
  }

  /** The items of the lines from k on start at or below that line, and go strictly down. */
  lemma {:induction false} ParsedOrdered<T>(parse: Bytes -> Option<T>, f: Bytes, end: nat, lines: seq<Line>, k: nat)
    requires IsChain(f, end, lines) && k <= |lines|
    ensures Descending(Parsed(parse, lines[k..]), if k == 0 then end else lines[k - 1].start)
    decreases |lines| - k
  {
    if k < |lines| {
      ParsedOrdered(parse, f, end, lines, k + 1);
      assert lines[k..][0] == lines[k] && lines[k..][1..] == lines[k + 1..];
      assert IsLink(f, end, lines, k);
      OrderedStep(LineItem(parse, lines[k]), Parsed(parse, lines[k + 1..]), lines[k], EndOf(end, lines, k));
    }
  }

  lemma {:induction false} OrderedStep<T>(first: seq<Entry<T>>, rest: seq<Entry<T>>, line: Line, stop: nat)
    requires |first| <= 1 && Descending(rest, line.start) && line.start <= stop
    requires |line.text| == stop - line.start
    requires first != [] ==> line.text != [] && first[0].start == line.start
    ensures Descending(first + rest, stop)
  {
  }

  lemma {:induction false} NewestOrdered<T>(parse: Bytes -> Option<T>, f: Bytes, end: nat)
    requires end <= |f|
    ensures Descending(Newest(parse, f, end), end)
  {
    var lines := LinesBefore(f, end);
    assert lines[0..] == lines;
    ParsedOrdered(parse, f, end, lines, 0);
  }

  /** The line an item came from, and what the lines after it hold. */
  lemma {:induction false} LineOfItem<T>(parse: Bytes -> Option<T>, lines: seq<Line>, j: nat) returns (k: nat)
    requires j < |Parsed(parse, lines)|
    ensures k < |lines| && lines[k].start == Parsed(parse, lines)[j].start
    ensures Parsed(parse, lines[k + 1..]) == Parsed(parse, lines)[j + 1..]
  {
    var first, rest := LineItem(parse, lines[0]), Parsed(parse, lines[1..]);
    if j < |first| {
      k := 0;
      assert (first + rest)[1..] == rest;
    } else {
      DropOfConcat(first, rest, j);
      k := LineOfItem(parse, lines[1..], j - |first|);
      assert lines[1..][k + 1..] == lines[k + 2..];
      k := k + 1;
    }
  }

  lemma {:induction false} DropOfConcat<A>(a: seq<A>, b: seq<A>, k: nat)
    requires |a| <= k < |a + b|
    ensures (a + b)[k] == b[k - |a|] && (a + b)[k + 1..] == b[k - |a| + 1..]
  {
  }

  /** Restarting at the start of the j-th newest item continues with the items after it. */
  lemma {:induction false} NewestRestart<T>(parse: Bytes -> Option<T>, f: Bytes, end: nat, j: nat)
    requires end <= |f| && j < |Newest(parse, f, end)|
    ensures Newest(parse, f, end)[j].start <= end
    ensures Newest(parse, f, Newest(parse, f, end)[j].start) == Newest(parse, f, end)[j + 1..]
  {
    var lines := LinesBefore(f, end);
    var k := LineOfItem(parse, lines, j);
    LinesAtCut(f, end, k);
    var cutLines := [Line(lines[k].start, [])] + lines[k + 1..];
    assert cutLines[1..] == lines[k + 1..];
    assert LineItem(parse, cutLines[0]) == [];
  }

  /** Only the bytes before `end` matter: appending to the file changes nothing. */
  lemma {:induction false} NewestOfPrefix<T>(parse: Bytes -> Option<T>, f: Bytes, g: Bytes, end: nat)
    requires f <= g && end <= |f|
    ensures Newest(parse, f, end) == Newest(parse, g, end)
  {
    LinesOfPrefix(f, g, end);
  }

  // ---------------------------------------------------------------- items, from the bytes alone

  /** The bytes from `start` to `stop` are a line of the first `end` bytes. */
  ghost predicate IsLine(f: Bytes, end: nat, start: nat, stop: nat) {
    AtLineStart(f, start) && NoNewline(f, start, stop) && stop <= end <= |f| && (stop < end ==> f[stop] == NEWLINE)
  }

  /** Every line start begins one of the lines read, at or behind line `k`. */
  lemma {:induction false} LineAt(f: Bytes, end: nat, lines: seq<Line>, k: nat, start: nat) returns (i: nat)
    requires IsForward(f, 0, end, lines) && end <= |f| && k < |lines| && lines[k].start <= start <= end
    requires AtLineStart(f, start)
    ensures i < |lines| && lines[i].start == start
    decreases |lines| - k
  {
    i := k;
    assert IsForwardLink(f, end, lines, k);
    if lines[k].start < start {
      ForwardCut(f, 0, end, lines, k);
      i := LineAt(f, end, lines, k + 1, start);
    }
  }

  lemma {:induction false} ForwardLineIsLine(f: Bytes, end: nat, lines: seq<Line>, k: nat)
    requires IsForward(f, 0, end, lines) && end <= |f| && k < |lines|
    ensures 0 <= StopOf(end, lines, k) && IsLine(f, end, lines[k].start, StopOf(end, lines, k))
    ensures lines[k].text == f[lines[k].start..StopOf(end, lines, k)]
  {
    assert IsForwardLink(f, end, lines, k);
    ForwardCut(f, 0, end, lines, k);
  }

  predicate Yields<T(==)>(parse: Bytes -> Option<T>, line: Line, e: Entry<T>) {
    line.text != [] && line.start == e.start && parse(line.text) == Some(e.item)
  }

  /** The entry is a line of the first `end` bytes, which is not empty and parses, with its offset. */
  ghost predicate IsItem<T>(parse: Bytes -> Option<T>, f: Bytes, end: nat, e: Entry<T>) {
    exists stop: nat :: IsLine(f, end, e.start, stop) && e.start < stop && parse(f[e.start..stop]) == Some(e.item)
  }

  lemma {:induction false} ParsedMember<T>(parse: Bytes -> Option<T>, lines: seq<Line>, e: Entry<T>)
    ensures e in Parsed(parse, lines) <==> exists k :: 0 <= k < |lines| && Yields(parse, lines[k], e)
  {
    if lines != [] {
      ParsedMember(parse, lines[1..], e);
      if k :| 0 <= k < |lines| && Yields(parse, lines[k], e) {
        assert k > 0 ==> lines[1..][k - 1] == lines[k];
      }
    }
  }

  /** The items are exactly the lines that are not empty and parse. */
  lemma {:induction false} ItemsAreLines<T>(parse: Bytes -> Option<T>, f: Bytes, end: nat, e: Entry<T>)
    requires end <= |f|
    ensures e in Items(parse, f, end) <==> IsItem(parse, f, end, e)
    ensures e in Newest(parse, f, end) <==> e in Items(parse, f, end)
  {
    var lines := LinesFrom(f, 0, end);
    LinesFromIsForward(f, 0, end);
    ParsedMember(parse, lines, e);
    if e in Parsed(parse, lines) {
      var k :| 0 <= k < |lines| && Yields(parse, lines[k], e);
      ForwardLineIsLine(f, end, lines, k);
    }
    if IsItem(parse, f, end, e) {
      var stop: nat :| IsLine(f, end, e.start, stop) && e.start < stop && parse(f[e.start..stop]) == Some(e.item);
      var k := LineAt(f, end, lines, 0, e.start);
      ForwardLineIsLine(f, end, lines, k);
      SameStop(f, e.start, stop, StopOf(end, lines, k), end);
    }
    NewestIsReversedItems(parse, f, end);
    ReverseMember(Items(parse, f, end), e);
  }

  lemma {:induction false} ReverseMember<A>(s: seq<A>, x: A)
    ensures x in Reverse(s) <==> x in s
  {
    if x in s {
      var k :| 0 <= k < |s| && s[k] == x;
      assert Reverse(s)[|s| - 1 - k] == x;
    }
  }
}
