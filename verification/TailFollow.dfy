/**
 Following a growing transcript from a byte marker
 (extensions/anthropic/session-upstream-activity.ts): each poll classifies the complete
 lines of one bounded read and moves the marker behind the last of them.

 Classifying a line is a parameter: `Some(at)` for a human turn, with its time if known.
 */
module TailFollow {
  import opened Prelude
  import opened Lines

  type Classifier = Bytes -> Option<Option<nat>>

  datatype Activity =
    | Missing
    | Advanced(humanTurns: nat, next: nat, occurredAt: Option<nat>)

  const CARRIAGE_RETURN: Byte := 0x0d

  function Chomp(text: Bytes): Bytes {
    if text != [] && text[|text| - 1] == CARRIAGE_RETURN then text[..|text| - 1] else text
  }

  // ---------------------------------------------------------------- the consumed range

  /** A range that can be consumed: it ends right behind a newline. */
  ghost predicate IsConsumable(f: Bytes, from: nat, next: nat) {
    from < next <= |f| && f[next - 1] == NEWLINE
  }

  /** The complete lines of a range, as the plain split of its bytes. */
  ghost function LinesOf(f: Bytes, from: nat, next: nat): seq<Line>
    requires from < next <= |f|
  {
    LinesBetween(f, from, next - 1)
  }

  function TurnsIn(classify: Classifier, lines: seq<Line>): nat {
    if lines == [] then 0
    else TurnsIn(classify, lines[..|lines| - 1]) + if classify(Chomp(lines[|lines| - 1].text)).Some? then 1 else 0
  }

  /** The human turns between two markers. */
  ghost function Turns(classify: Classifier, f: Bytes, from: nat, next: nat): nat
    requires from <= next <= |f|
  {
    if from == next then 0 else TurnsIn(classify, LinesOf(f, from, next))
  }

  function TurnTime(classify: Classifier, mtime: nat, line: Line): Option<nat> {
    match classify(Chomp(line.text))
    case None => None
    case Some(None) => Some(mtime)
    case Some(Some(at)) => Some(at)
  }

  /** The latest time of a human turn; a turn without its own time counts with the file's. */
  ghost predicate IsLatest(classify: Classifier, mtime: nat, lines: seq<Line>, latest: Option<nat>) {
    && (forall k :: 0 <= k < |lines| && TurnTime(classify, mtime, lines[k]).Some? ==>
          latest.Some? && TurnTime(classify, mtime, lines[k]).value <= latest.value)
    && (latest.Some? ==> exists k :: 0 <= k < |lines| && TurnTime(classify, mtime, lines[k]) == latest)
  }

  lemma {:induction false} TurnsInConcat(classify: Classifier, a: seq<Line>, b: seq<Line>)
    ensures TurnsIn(classify, a + b) == TurnsIn(classify, a) + TurnsIn(classify, b)
  {
    if b == [] {
      assert a + b == a;
    } else {
      assert (a + b)[..|a + b| - 1] == a + b[..|b| - 1];
      TurnsInConcat(classify, a, b[..|b| - 1]);
    }
  }

  /** The bytes of lines with their newlines. */
  function Rendered(lines: seq<Line>): Bytes {
    if lines == [] then [] else lines[0].text + [NEWLINE] + Rendered(lines[1..])
  }

  /** Every byte of a consumed range is in exactly one complete line. */
  lemma {:induction false} LinesCoverRange(f: Bytes, from: nat, next: nat)
    requires IsConsumable(f, from, next)
    ensures Rendered(LinesOf(f, from, next)) == f[from..next]
  {
    var lines := LinesOf(f, from, next);
    RenderedFrom(f, from, next, lines, 0);
    assert lines[0..] == lines;
  }

  function BeginsAt(lines: seq<Line>, next: nat, k: nat): nat {
    if k < |lines| then lines[k].start else next
  }

  /** A line of the range, with its newline, reaches to where the next one begins. */
  lemma {:induction false} LineReaches(f: Bytes, from: nat, next: nat, lines: seq<Line>, k: nat)
    requires IsConsumable(f, from, next) && IsForward(f, from, next - 1, lines) && k < |lines|
    ensures BeginsAt(lines, next, k) <= BeginsAt(lines, next, k + 1) <= next
    ensures lines[k].text + [NEWLINE] == f[BeginsAt(lines, next, k)..BeginsAt(lines, next, k + 1)]
  {
    var end := next - 1;
    ForwardStartsBelow(f, from, end, lines, k);
    ForwardCut(f, from, end, lines, k);
    assert IsForwardLink(f, end, lines, k);
    var start, stop := lines[k].start, StopOf(end, lines, k);
    assert f[start..stop] + [f[stop]] == f[start..stop + 1];
  }

  lemma {:induction false} RenderedFrom(f: Bytes, from: nat, next: nat, lines: seq<Line>, k: nat)
    requires IsConsumable(f, from, next) && IsForward(f, from, next - 1, lines) && k <= |lines|
    ensures BeginsAt(lines, next, k) <= next && Rendered(lines[k..]) == f[BeginsAt(lines, next, k)..next]
    decreases |lines| - k
  {
    if k < |lines| {
      LineReaches(f, from, next, lines, k);
      RenderedFrom(f, from, next, lines, k + 1);
      assert lines[k..][1..] == lines[k + 1..];
      SliceJoin(f, BeginsAt(lines, next, k), BeginsAt(lines, next, k + 1), next);
    }
  }

  /** No line holds a newline, and each begins where the one before ended. */
  lemma {:induction false} LinesAreLines(f: Bytes, from: nat, next: nat, k: nat)
    requires IsConsumable(f, from, next) && k < |LinesOf(f, from, next)|
    ensures NEWLINE !in LinesOf(f, from, next)[k].text
    ensures LinesOf(f, from, next)[k].start ==
            if k == 0 then from else LinesOf(f, from, next)[k - 1].start + |LinesOf(f, from, next)[k - 1].text| + 1
  {
    var lines := LinesOf(f, from, next);
    ForwardStartsBelow(f, from, next - 1, lines, k);
    assert IsForwardLink(f, next - 1, lines, k);
    if k > 0 {
      assert IsForwardLink(f, next - 1, lines, k - 1);
    }
  }

  lemma {:induction false} LinesOfLonger(f: Bytes, g: Bytes, from: nat, next: nat)
    requires f <= g && from < next <= |f|
    ensures LinesOf(f, from, next) == LinesOf(g, from, next)
  {
    var end, lines := next - 1, LinesOf(f, from, next);
    forall i | 0 <= i < |lines| ensures IsForwardLink(g, end, lines, i) {
      assert IsForwardLink(f, end, lines, i);
      ForwardStartsBelow(f, from, end, lines, i);
      assert f[lines[i].start..StopOf(end, lines, i)] == g[lines[i].start..StopOf(end, lines, i)];
    }
    ForwardUnique(g, from, end, lines, LinesOf(g, from, next));
  }

  // ---------------------------------------------------------------- one poll

  /** What a poll returns that has read `read` bytes behind the marker. */
  ghost predicate PollResult(classify: Classifier, f: Bytes, mtime: nat, marker: nat, read: nat, r: Option<Activity>) {
    if marker + read > |f| || NoNewline(f, marker, marker + read) then r.None?
    else
      && r.Some? && r.value.Advanced?
      && IsConsumable(f, marker, r.value.next) && NoNewline(f, r.value.next, marker + read)
      && r.value.humanTurns == Turns(classify, f, marker, r.value.next)
      && (r.value.occurredAt.Some? <==> r.value.humanTurns > 0)
      && IsLatest(classify, mtime, LinesOf(f, marker, r.value.next), r.value.occurredAt)
  }

  method LastNewline(tail: Bytes) returns (last: int)
    ensures -1 <= last < |tail|
    ensures last >= 0 ==> tail[last] == NEWLINE
    ensures forall k :: last < k < |tail| ==> tail[k] != NEWLINE
  {
    last := |tail| - 1;
    while last >= 0 && tail[last] != NEWLINE
      invariant -1 <= last < |tail|
      invariant forall k :: last < k < |tail| ==> tail[k] != NEWLINE
    {
      last := last - 1;
    }
  }

  /** The lines of a complete tail, by scanning it for newlines. */
  method Split(tail: Bytes) returns (lines: seq<Line>)
    requires tail != [] && tail[|tail| - 1] == NEWLINE
    ensures IsForward(tail, 0, |tail| - 1, lines)
  {
    lines := [];
    var start := 0;
    while start < |tail|
      invariant start <= |tail|
      invariant if start == 0 then lines == [] else tail[start - 1] == NEWLINE && IsForward(tail, 0, start - 1, lines)
    {
      var stop := start;
      while tail[stop] != NEWLINE
        invariant start <= stop < |tail| && NoNewline(tail, start, stop)
        decreases |tail| - stop
      {
        stop := stop + 1;
      }
      var line := Line(start, tail[start..stop]);
      assert IsForward(tail, start, stop, [line]);
      if start > 0 {
        ForwardConcat(tail, 0, start, stop, lines, [line]);
      } else {
        assert lines + [line] == [line];
      }
      lines := lines + [line];
      start := stop + 1;
    }
  }

  /** Lines of a stretch of the file, moved to where the stretch lies. */
  lemma {:induction false} LinesMoved(f: Bytes, tail: Bytes, marker: nat, lines: seq<Line>)
    requires tail != [] && marker + |tail| <= |f| && tail == f[marker..marker + |tail|]
    requires IsForward(tail, 0, |tail| - 1, lines)
    ensures SameTexts(lines, LinesOf(f, marker, marker + |tail|))
  {
    var end, fileEnd := |tail| - 1, marker + |tail| - 1;
    var moved := seq(|lines|, i requires 0 <= i < |lines| => Line(marker + lines[i].start, lines[i].text));
    forall i | 0 <= i < |moved| ensures IsForwardLink(f, fileEnd, moved, i) {
      LinkMoved(f, tail, marker, lines, moved, i);
    }
    ForwardUnique(f, marker, fileEnd, moved, LinesOf(f, marker, marker + |tail|));
  }

  lemma {:induction false} LinkMoved(f: Bytes, tail: Bytes, marker: nat, lines: seq<Line>, moved: seq<Line>, i: nat)
    requires tail != [] && marker + |tail| <= |f| && tail == f[marker..marker + |tail|]
    requires IsForward(tail, 0, |tail| - 1, lines) && i < |lines| == |moved|
    requires moved[i] == Line(marker + lines[i].start, lines[i].text)
    requires i + 1 < |lines| ==> moved[i + 1].start == marker + lines[i + 1].start
    ensures IsForwardLink(f, marker + |tail| - 1, moved, i)
  {
    var end := |tail| - 1;
    assert IsForwardLink(tail, end, lines, i);
    ForwardStartsBelow(tail, 0, end, lines, i);
    var start, stop := lines[i].start, StopOf(end, lines, i);
    assert StopOf(marker + end, moved, i) == marker + stop;
    assert forall k :: marker + start <= k < marker + stop ==> f[k] == tail[k - marker];
    assert i > 0 ==> f[marker + start - 1] == tail[start - 1];
    assert tail[start..stop] == f[marker + start..marker + stop];
  }

  ghost predicate SameTexts(a: seq<Line>, b: seq<Line>) {
    |a| == |b| && forall k :: 0 <= k < |a| ==> a[k].text == b[k].text
  }

  lemma {:induction false} TurnsByText(classify: Classifier, a: seq<Line>, b: seq<Line>)
    requires SameTexts(a, b)
    ensures TurnsIn(classify, a) == TurnsIn(classify, b)
  {
    if a != [] {
      TurnsByText(classify, a[..|a| - 1], b[..|b| - 1]);
    }
  }

  lemma {:induction false} LatestByText(
      classify: Classifier, mtime: nat, a: seq<Line>, b: seq<Line>, latest: Option<nat>)
    requires SameTexts(a, b) && IsLatest(classify, mtime, a, latest)
    ensures IsLatest(classify, mtime, b, latest)
  {
    assert forall k :: 0 <= k < |a| ==> TurnTime(classify, mtime, a[k]) == TurnTime(classify, mtime, b[k]);
    if latest.Some? {
      var k :| 0 <= k < |a| && TurnTime(classify, mtime, a[k]) == latest;
      assert TurnTime(classify, mtime, b[k]) == latest;
    }
  }

  /** The classification loop over the lines of one read. */
  method CountTurns(
      classify: Classifier, mtime: nat, lines: seq<Line>) returns (humanTurns: nat, occurredAt: Option<nat>)
    ensures humanTurns == TurnsIn(classify, lines)
    ensures occurredAt.Some? <==> humanTurns > 0
    ensures IsLatest(classify, mtime, lines, occurredAt)
  {
    humanTurns, occurredAt := 0, None;
    var k := 0;
    while k < |lines|
      invariant k <= |lines|
      invariant humanTurns == TurnsIn(classify, lines[..k])
      invariant occurredAt.Some? <==> humanTurns > 0
      invariant IsLatest(classify, mtime, lines[..k], occurredAt)
    {
      var classification := classify(Chomp(lines[k].text));
      var latest := occurredAt;
      if classification.Some? {
        humanTurns := humanTurns + 1;
        var at := if classification.value.Some? then classification.value.value else mtime;
        latest := Some(Max(if occurredAt.Some? then occurredAt.value else 0, at));
      }
      LatestPush(classify, mtime, lines[..k], lines[k], occurredAt);
      assert lines[..k + 1] == lines[..k] + [lines[k]];
      assert lines[..k + 1][..k] == lines[..k];
      occurredAt := latest;
      k := k + 1;
    }
    assert lines[..k] == lines;
  }

  lemma {:induction false} LatestPush(
      classify: Classifier, mtime: nat, lines: seq<Line>, line: Line, latest: Option<nat>)
    requires IsLatest(classify, mtime, lines, latest)
    ensures var at := TurnTime(classify, mtime, line);
            IsLatest(classify, mtime, lines + [line],
                     if at.None? then latest else if latest.None? then at else Some(Max(latest.value, at.value)))
  {
    var at := TurnTime(classify, mtime, line);
    var all := lines + [line];
    assert all[|lines|] == line;
    if latest.Some? {
      var k :| 0 <= k < |lines| && TurnTime(classify, mtime, lines[k]) == latest;
      assert all[k] == lines[k];
    }
  }

  /** What was read, seen in the file: nothing complete, or a consumable range and an open rest. */
  lemma {:induction false} TailInFile(f: Bytes, marker: nat, tail: Bytes, last: int)
    requires marker + |tail| <= |f| && tail == f[marker..marker + |tail|] && -1 <= last < |tail|
    requires (last >= 0 ==> tail[last] == NEWLINE) && forall k :: last < k < |tail| ==> tail[k] != NEWLINE
    ensures last < 0 ==> NoNewline(f, marker, marker + |tail|)
    ensures last >= 0 ==>
              && IsConsumable(f, marker, marker + last + 1) && NoNewline(f, marker + last + 1, marker + |tail|)
              && !NoNewline(f, marker, marker + |tail|) && tail[..last + 1] == f[marker..marker + last + 1]
  {
    assert forall k :: marker <= k < marker + |tail| ==> f[k] == tail[k - marker];
    if last >= 0 {
      assert f[marker + last] == NEWLINE;
    }
  }

  /** The turns counted in the lines of a stretch are those of the stretch in the file. */
  lemma {:induction false} TurnsInFile(
      classify: Classifier, f: Bytes, mtime: nat, marker: nat, tail: Bytes, lines: seq<Line>,
      latest: Option<nat>)
    requires tail != [] && marker + |tail| <= |f| && tail == f[marker..marker + |tail|]
    requires IsForward(tail, 0, |tail| - 1, lines) && IsLatest(classify, mtime, lines, latest)
    ensures TurnsIn(classify, lines) == Turns(classify, f, marker, marker + |tail|)
    ensures IsLatest(classify, mtime, LinesOf(f, marker, marker + |tail|), latest)
  {
    LinesMoved(f, tail, marker, lines);
    TurnsByText(classify, lines, LinesOf(f, marker, marker + |tail|));
    LatestByText(classify, mtime, lines, LinesOf(f, marker, marker + |tail|), latest);
  }

  /** One poll: `read` bytes arrive of the at most `cap` bytes asked for. */
  method Poll(
      classify: Classifier, file: Option<Bytes>, mtime: nat, marker: nat, cap: nat, read: nat)
    returns (r: Option<Activity>)
    requires file.Some? && marker < |file.value| ==> read <= Min(|file.value| - marker, cap)
    ensures file.None? ==> r == Some(Missing)
    ensures file.Some? && |file.value| <= marker ==> r.None?
    ensures file.Some? && marker < |file.value| ==> PollResult(classify, file.value, mtime, marker, read, r)
  {
    if file.None? {
      return Some(Missing);
    }
    var f := file.value;
    if |f| <= marker {
      return None;
    }
    var tail := f[marker..marker + read];
    var lastNewline := LastNewline(tail);
    TailInFile(f, marker, tail, lastNewline);
    if lastNewline < 0 {
      return None;
    }
    var completeTail := tail[..lastNewline + 1];
    var lines := Split(completeTail);
    var humanTurns, occurredAt := CountTurns(classify, mtime, lines);
    TurnsInFile(classify, f, mtime, marker, completeTail, lines, occurredAt);
    r := Some(Advanced(humanTurns, marker + lastNewline + 1, occurredAt));
  }

  // ---------------------------------------------------------------- series of polls

  /** One poll of a series: the file as it was, its time, what was read, and what came back. */
  datatype Step = Step(file: Bytes, mtime: nat, read: nat, result: Option<Activity>)

  function MarkerAfter(marker: nat, step: Step): nat {
    if step.result.Some? && step.result.value.Advanced? then step.result.value.next else marker
  }

  function TurnsOf(step: Step): nat {
    if step.result.Some? && step.result.value.Advanced? then step.result.value.humanTurns else 0
  }

  /** Polls of a file that only grows into `g`, each from the marker the one before left. */
  ghost predicate IsSeries(classify: Classifier, g: Bytes, marker: nat, steps: seq<Step>)
    decreases |steps|
  {
    steps == [] || (
      && steps[0].file <= g
      && (if |steps[0].file| <= marker then steps[0].result.None?
          else PollResult(classify, steps[0].file, steps[0].mtime, marker, steps[0].read, steps[0].result))
      && IsSeries(classify, g, MarkerAfter(marker, steps[0]), steps[1..]))
  }

  function FinalMarker(marker: nat, steps: seq<Step>): nat
    decreases |steps|
  {
    if steps == [] then marker else FinalMarker(MarkerAfter(marker, steps[0]), steps[1..])
  }

  function TotalTurns(steps: seq<Step>): nat {
    if steps == [] then 0 else TurnsOf(steps[0]) + TotalTurns(steps[1..])
  }

  lemma {:induction false} TurnsSplit(classify: Classifier, g: Bytes, a: nat, b: nat, c: nat)
    requires a <= b <= c <= |g|
    requires a < b ==> g[b - 1] == NEWLINE
    ensures Turns(classify, g, a, c) == Turns(classify, g, a, b) + Turns(classify, g, b, c)
  {
    if a < b < c {
      LinesBetweenSplit(g, a, b, c - 1);
      TurnsInConcat(classify, LinesOf(g, a, b), LinesOf(g, b, c));
    }
  }

  lemma {:induction false} StepAdvances(
      classify: Classifier, f: Bytes, g: Bytes, mtime: nat, marker: nat, read: nat, r: Option<Activity>)
    requires f <= g && PollResult(classify, f, mtime, marker, read, r) && r.Some?
    ensures IsConsumable(g, marker, r.value.next)
    ensures r.value.humanTurns == Turns(classify, g, marker, r.value.next)
  {
    LinesOfLonger(f, g, marker, r.value.next);
  }

  /**
   However a growing file is polled — any cap, any short reads, any timing — the marker
   moves only onto line ends, and the turns reported add up to the turns of the whole range
   consumed: no line is missed and none is counted twice.
   */
  lemma {:induction false} PollsCountEachLineOnce(classify: Classifier, g: Bytes, marker: nat, steps: seq<Step>)
    requires marker <= |g| && IsSeries(classify, g, marker, steps)
    ensures marker <= FinalMarker(marker, steps) <= |g|
    ensures marker < FinalMarker(marker, steps) ==> IsConsumable(g, marker, FinalMarker(marker, steps))
    ensures TotalTurns(steps) == Turns(classify, g, marker, FinalMarker(marker, steps))
    decreases |steps|
  {
    if steps != [] {
      var next := MarkerAfter(marker, steps[0]);
      if steps[0].result.Some? {
        StepAdvances(classify, steps[0].file, g, steps[0].mtime, marker, steps[0].read, steps[0].result);
      }
      PollsCountEachLineOnce(classify, g, next, steps[1..]);
      TurnsSplit(classify, g, marker, next, FinalMarker(marker, steps));
    }
  }

  /**
   A marker at a line start keeps to the file's own lines: those before it and those after make up the
   plain split.
   */
  lemma {:induction false} ConsumedLinesAreTheFiles(g: Bytes, marker: nat, next: nat)
    requires IsConsumable(g, marker, next) && AtLineStart(g, marker)
    ensures LinesBetween(g, 0, next - 1)
        == (if marker == 0 then [] else LinesBetween(g, 0, marker - 1)) + LinesOf(g, marker, next)
  {
    if marker > 0 {
      LinesBetweenSplit(g, 0, marker, next - 1);
    }
  }

  /** A full read advances exactly when a newline lies within the cap; a longer line stays deferred. */
  lemma {:induction false} FullReadAdvances(
      classify: Classifier, f: Bytes, mtime: nat, marker: nat, cap: nat, r: Option<Activity>)
    requires marker < |f| && PollResult(classify, f, mtime, marker, Min(|f| - marker, cap), r)
    ensures r.Some? <==> exists k :: marker <= k < |f| && k < marker + cap && f[k] == NEWLINE
  {
  }

  /** Two advances never share a marker, so the identifiers taken from it differ. */
  lemma {:induction false} MarkersIncrease(classify: Classifier, g: Bytes, marker: nat, steps: seq<Step>, j: nat)
    requires IsSeries(classify, g, marker, steps) && marker <= |g|
    requires j < |steps| && steps[j].result.Some?
    ensures steps[j].result.value.Advanced? && FinalMarker(marker, steps[..j]) < steps[j].result.value.next
    decreases j
  {
    if j > 0 {
      var next := MarkerAfter(marker, steps[0]);
      if steps[0].result.Some? {
        StepAdvances(classify, steps[0].file, g, steps[0].mtime, marker, steps[0].read, steps[0].result);
      }
      MarkersIncrease(classify, g, next, steps[1..], j - 1);
      assert steps[..j][1..] == steps[1..][..j - 1];
    }
  }

  // ---------------------------------------------------------------- turns, from the bytes alone

  /** What is classified of a line: all of it, without one carriage return at its end. */
  ghost predicate IsClassified(text: Bytes, line: Bytes) {
    text == line + [0x0d] || (text == line && (line == [] || line[|line| - 1] != 0x0d))
  }

  ghost predicate IsHumanTurn(classify: Classifier, text: Bytes) {
    exists line :: IsClassified(text, line) && classify(line).Some?
  }

  /** The turn happened at `at`: at its own time, or, if it has none, when the file was last written. */
  ghost predicate HappenedAt(classify: Classifier, mtime: nat, text: Bytes, at: nat) {
    exists line :: IsClassified(text, line)
        && (classify(line) == Some(Some(at)) || (classify(line) == Some(None) && at == mtime))
  }

  lemma {:induction false} ChompClassifies(text: Bytes, line: Bytes)
    ensures IsClassified(text, line) <==> line == Chomp(text)
  {
    if text == line + [0x0d] {
      assert text[..|text| - 1] == line;
    }
    if text != [] && text[|text| - 1] == 0x0d {
      assert text == text[..|text| - 1] + [0x0d];
    }
  }

  /** The lines that are human turns. */
  ghost function HumanTurns(classify: Classifier, lines: seq<Line>): set<nat> {
    set k: nat | k < |lines| && IsHumanTurn(classify, lines[k].text)
  }

  lemma {:induction false} HumanTurnIsChomped(classify: Classifier, text: Bytes)
    ensures IsHumanTurn(classify, text) <==> classify(Chomp(text)).Some?
  {
    ChompClassifies(text, Chomp(text));
    forall line | IsClassified(text, line) ensures line == Chomp(text) {
      ChompClassifies(text, line);
    }
  }

  lemma {:induction false} HumanTurnsPush(classify: Classifier, older: seq<Line>, line: Line)
    ensures HumanTurns(classify, older + [line]) ==
            HumanTurns(classify, older) + if IsHumanTurn(classify, line.text) then {|older|} else {}
  {
    var lines := older + [line];
    assert lines[|older|] == line && forall k :: 0 <= k < |older| ==> lines[k] == older[k];
  }

  lemma {:induction false} TurnsAreCounted(classify: Classifier, lines: seq<Line>)
    ensures TurnsIn(classify, lines) == |HumanTurns(classify, lines)|
  {
    if lines != [] {
      var older, last := lines[..|lines| - 1], lines[|lines| - 1];
      assert lines == older + [last];
      TurnsAreCounted(classify, older);
      HumanTurnIsChomped(classify, last.text);
      HumanTurnsPush(classify, older, last);
      assert |older| !in HumanTurns(classify, older);
    }
  }

  lemma {:induction false} TimesAreOwn(classify: Classifier, mtime: nat, line: Line, at: nat)
    ensures TurnTime(classify, mtime, line) == Some(at) <==> HappenedAt(classify, mtime, line.text, at)
  {
    ChompClassifies(line.text, Chomp(line.text));
    forall other | IsClassified(line.text, other) ensures other == Chomp(line.text) {
      ChompClassifies(line.text, other);
    }
  }

  /**
   What a poll reports, from the bytes alone: how many of the lines it consumed are human
   turns, and the latest time of one.
   */
  lemma {:induction false} PollReports(
      classify: Classifier, f: Bytes, mtime: nat, marker: nat, read: nat, r: Option<Activity>)
    requires PollResult(classify, f, mtime, marker, read, r) && r.Some?
    ensures marker < r.value.next <= |f|
    ensures var lines := LinesOf(f, marker, r.value.next);
            && r.value.humanTurns == |HumanTurns(classify, lines)|
            && (r.value.occurredAt.None? <==> HumanTurns(classify, lines) == {})
            && (r.value.occurredAt.Some? ==>
                  && (exists k ::
                      0 <= k < |lines| && HappenedAt(classify, mtime, lines[k].text, r.value.occurredAt.value))
                  && forall k, at: nat :: 0 <= k < |lines| && HappenedAt(classify, mtime, lines[k].text, at) ==>
                       at <= r.value.occurredAt.value)
  {
    var lines := LinesOf(f, marker, r.value.next);
    TurnsAreCounted(classify, lines);
    forall k, at: nat | 0 <= k < |lines|
      ensures TurnTime(classify, mtime, lines[k]) == Some(at) <==> HappenedAt(classify, mtime, lines[k].text, at)
    {
      TimesAreOwn(classify, mtime, lines[k], at);
    }
  }
}
