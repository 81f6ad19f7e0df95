/**
 What discovery finds, in terms of the rows of the files alone
 (extensions/anthropic/session-catalog.ts, discoverCliRecords).
 */
module DiscoveryLaws {
  import opened Prelude
  import opened Lines
  import opened Discovery

  // ---------------------------------------------------------------- one row

  /** A line that is a row of the session. */
  predicate IsRow<M>(src: Source<M>, sid: SessionId, line: Line) {
    src.parse(line.text).Some? && src.parse(line.text).value.sessionId == sid
  }

  function RowOf<M>(src: Source<M>, sid: SessionId, line: Line): Row<M>
    requires IsRow(src, sid, line)
  {
    src.parse(line.text).value
  }

  /** An ai-title row that has a title. */
  predicate IsTitle<M>(src: Source<M>, sid: SessionId, line: Line) {
    IsRow(src, sid, line) && RowOf(src, sid, line).kind == AiTitle && RowOf(src, sid, line).aiTitle.Some?
  }

  predicate IsForeign<M>(src: Source<M>, sid: SessionId, line: Line) {
    IsRow(src, sid, line) && RowOf(src, sid, line).kind != AiTitle && RowOf(src, sid, line).entrypoint == Foreign
  }

  predicate IsSidechain<M>(src: Source<M>, sid: SessionId, line: Line) {
    && IsRow(src, sid, line) && RowOf(src, sid, line).kind != AiTitle
    && RowOf(src, sid, line).entrypoint == Cli && RowOf(src, sid, line).sidechain
  }

  /** A user's prompt typed in the CLI. */
  predicate IsPrompt<M>(src: Source<M>, sid: SessionId, line: Line) {
    && IsRow(src, sid, line) && RowOf(src, sid, line).kind == User
    && RowOf(src, sid, line).entrypoint == Cli && !RowOf(src, sid, line).sidechain && RowOf(src, sid, line).userMessage
  }

  predicate Settles<M>(src: Source<M>, sid: SessionId, line: Line) {
    IsForeign(src, sid, line) || IsSidechain(src, sid, line) || IsPrompt(src, sid, line)
  }

  // ---------------------------------------------------------------- one file

  /** Line `k` is the first that settles the file. */
  ghost predicate SettlesFirst<M>(src: Source<M>, sid: SessionId, lines: seq<Line>, k: nat) {
    k < |lines| && Settles(src, sid, lines[k]) && forall j :: 0 <= j < k ==> !Settles(src, sid, lines[j])
  }

  /** `title` is that of the last row before line `k` that has one, if any. */
  ghost predicate LastTitle<M>(src: Source<M>, sid: SessionId, lines: seq<Line>, k: nat, title: Option<string>)
    requires k <= |lines|
  {
    match title
    case None => forall j :: 0 <= j < k ==> !IsTitle(src, sid, lines[j])
    case Some(_) =>
      exists j :: 0 <= j < k && IsTitle(src, sid, lines[j]) && title == RowOf(src, sid, lines[j]).aiTitle
        && forall i :: j < i < k ==> !IsTitle(src, sid, lines[i])
  }

  /** The session's name: the last title before its first prompt; without one, that prompt. */
  ghost predicate Names<M>(src: Source<M>, sid: SessionId, lines: seq<Line>, k: nat, name: Option<string>)
    requires k < |lines| && IsPrompt(src, sid, lines[k])
  {
    exists title :: LastTitle(src, sid, lines, k, title)
      && name == if title.Some? then title else RowOf(src, sid, lines[k]).firstPrompt
  }

  /** What line `k`, the first that settles, makes of the file. */
  ghost predicate SaysAt<M>(src: Source<M>, sid: SessionId, lines: seq<Line>, k: nat, verdict: Verdict<M>)
    requires k < |lines|
  {
    match verdict
    case Continue => false
    case StopForeign => IsForeign(src, sid, lines[k])
    case StopSidechain => IsSidechain(src, sid, lines[k])
    case StopRecord(name, meta) =>
      IsPrompt(src, sid, lines[k]) && Names(src, sid, lines, k, name) && meta == RowOf(src, sid, lines[k]).meta
  }

  /** What the first `n` lines say about the session. */
  ghost predicate Says<M>(src: Source<M>, sid: SessionId, lines: seq<Line>, n: nat, verdict: Verdict<M>)
    requires n <= |lines|
  {
    if verdict.Continue? then forall j :: 0 <= j < n ==> !Settles(src, sid, lines[j])
    else exists k: nat :: k < n && SettlesFirst(src, sid, lines, k) && SaysAt(src, sid, lines, k, verdict)
  }

  lemma {:induction false} LastTitleUnique<M>(
      src: Source<M>, sid: SessionId, lines: seq<Line>, k: nat, a: Option<string>, b: Option<string>)
    requires k <= |lines| && LastTitle(src, sid, lines, k, a) && LastTitle(src, sid, lines, k, b)
    ensures a == b
  {
  }

  lemma {:induction false} SettlesFirstUnique<M>(src: Source<M>, sid: SessionId, lines: seq<Line>, j: nat, k: nat)
    requires SettlesFirst(src, sid, lines, j) && SettlesFirst(src, sid, lines, k)
    ensures j == k
  {
  }

  lemma {:induction false} NamesOnce<M>(
      src: Source<M>, sid: SessionId, lines: seq<Line>, k: nat, a: Option<string>, b: Option<string>)
    requires k < |lines| && IsPrompt(src, sid, lines[k])
    requires Names(src, sid, lines, k, a) && Names(src, sid, lines, k, b)
    ensures a == b
  {
    var s :| LastTitle(src, sid, lines, k, s) && a == if s.Some? then s else RowOf(src, sid, lines[k]).firstPrompt;
    var t :| LastTitle(src, sid, lines, k, t) && b == if t.Some? then t else RowOf(src, sid, lines[k]).firstPrompt;
    LastTitleUnique(src, sid, lines, k, s, t);
  }

  /** The lines say one thing. */
  lemma {:induction false} SaysOneThing<M>(
      src: Source<M>, sid: SessionId, lines: seq<Line>, n: nat, a: Verdict<M>, b: Verdict<M>)
    requires n <= |lines| && Says(src, sid, lines, n, a) && Says(src, sid, lines, n, b)
    ensures a == b
  {
    if !a.Continue? && !b.Continue? {
      var j: nat :| j < n && SettlesFirst(src, sid, lines, j) && SaysAt(src, sid, lines, j, a);
      var k: nat :| k < n && SettlesFirst(src, sid, lines, k) && SaysAt(src, sid, lines, k, b);
      SettlesFirstUnique(src, sid, lines, j, k);
      if a.StopRecord? && b.StopRecord? {
        NamesOnce(src, sid, lines, k, a.name, b.name);
      }
    }
  }

  // ---------------------------------------------------------------- the inspection does so

  /** One line: the title after it, and what it says if it settles the file. */
  lemma {:induction false} InspectSays<M>(
      src: Source<M>, sid: SessionId, lines: seq<Line>, k: nat, title: Option<string>)
    requires k < |lines| && LastTitle(src, sid, lines, k, title)
    ensures var (title', verdict) := Inspect(src, sid, title, lines[k].text);
            && (verdict.Continue? <==> !Settles(src, sid, lines[k]))
            && (verdict.Continue? ==> LastTitle(src, sid, lines, k + 1, title'))
            && (!verdict.Continue? ==> SaysAt(src, sid, lines, k, verdict))
  {
    var (title', verdict) := Inspect(src, sid, title, lines[k].text);
    if verdict.Continue? {
      TitleAfter(src, sid, lines, k, title, title');
    }
  }

  lemma {:induction false} TitleAfter<M>(
      src: Source<M>, sid: SessionId, lines: seq<Line>, k: nat, title: Option<string>, title': Option<string>)
    requires k < |lines| && LastTitle(src, sid, lines, k, title)
    requires title' == if IsTitle(src, sid, lines[k]) then RowOf(src, sid, lines[k]).aiTitle else title
    ensures LastTitle(src, sid, lines, k + 1, title')
  {
    if !IsTitle(src, sid, lines[k]) && title.Some? {
      var j :| 0 <= j < k && IsTitle(src, sid, lines[j]) && title == RowOf(src, sid, lines[j]).aiTitle
        && forall i :: j < i < k ==> !IsTitle(src, sid, lines[i]);
      assert forall i :: j < i < k + 1 ==> !IsTitle(src, sid, lines[i]);
    }
  }

  /** Reading on from line `i`, with nothing settled before it. */
  lemma {:induction false} InspectedSays<M>(
      src: Source<M>, sid: SessionId, b: Bytes, end: nat, lines: seq<Line>, i: nat, title: Option<string>)
    requires end <= |b| && IsForward(b, 0, end, lines) && i < |lines| && lines[i].start <= end
    requires LastTitle(src, sid, lines, i, title) && forall j :: 0 <= j < i ==> !Settles(src, sid, lines[j])
    ensures var p := Inspected(src, sid, b, end, lines[i].start, title);
            && Says(src, sid, lines, |lines| - 1, p.verdict)
            && (p.verdict.Continue? ==>
                p.open == lines[|lines| - 1].start && LastTitle(src, sid, lines, |lines| - 1, p.title))
    decreases |lines| - i
  {
    var n := StopOf(end, lines, i);
    ForwardLineIsLine(b, end, lines, i);
    ForwardCut(b, 0, end, lines, i);
    NextNewlineUnique(b, lines[i].start, n, end);
    if i < |lines| - 1 {
      InspectSays(src, sid, lines, i, title);
      var (title', verdict) := Inspect(src, sid, title, lines[i].text);
      if verdict.Continue? {
        InspectedSays(src, sid, b, end, lines, i + 1, title');
      } else {
        assert SettlesFirst(src, sid, lines, i);
      }
    }
  }

  /** How many lines count once `off` bytes are read: the last one only at the end of the file. */
  function Counted(b: Bytes, off: nat, lines: seq<Line>): nat
    requires lines != []
  {
    if off >= |b| && lines[|lines| - 1].text != [] then |lines| else |lines| - 1
  }

  /** What the lines of the first `off` bytes say. */
  ghost predicate FileSays<M>(src: Source<M>, sid: SessionId, b: Bytes, off: nat, verdict: Verdict<M>)
    requires off <= |b|
  {
    Says(src, sid, LinesFrom(b, 0, off), Counted(b, off, LinesFrom(b, 0, off)), verdict)
  }

  lemma {:induction false} LastLineSays<M>(
      src: Source<M>, sid: SessionId, lines: seq<Line>, last: nat, title: Option<string>)
    requires last == |lines| - 1 && LastTitle(src, sid, lines, last, title)
    requires forall j :: 0 <= j < last ==> !Settles(src, sid, lines[j])
    ensures Says(src, sid, lines, |lines|, Inspect(src, sid, title, lines[last].text).1)
  {
    InspectSays(src, sid, lines, last, title);
    if Settles(src, sid, lines[last]) {
      assert SettlesFirst(src, sid, lines, last);
    }
  }

  lemma {:induction false} MoreLines<M>(src: Source<M>, sid: SessionId, lines: seq<Line>, n: nat, verdict: Verdict<M>)
    requires n <= |lines| && Says(src, sid, lines, n, verdict) && !verdict.Continue?
    ensures Says(src, sid, lines, |lines|, verdict)
  {
  }

  lemma {:induction false} VerdictSays<M>(src: Source<M>, sid: SessionId, b: Bytes, off: nat)
    requires off <= |b|
    ensures FileSays(src, sid, b, off, VerdictAt(src, sid, b, off))
  {
    var lines, p := LinesFrom(b, 0, off), Inspected(src, sid, b, off, 0, None);
    LinesFromIsForward(b, 0, off);
    InspectedSays(src, sid, b, off, lines, 0, None);
    ForwardLineIsLine(b, off, lines, |lines| - 1);
    if !p.verdict.Continue? {
      MoreLines(src, sid, lines, |lines| - 1, p.verdict);
    } else if Counted(b, off, lines) == |lines| {
      assert lines[|lines| - 1].text == b[p.open..off];
      LastLineSays(src, sid, lines, |lines| - 1, p.title);
    }
  }

  /** The verdict after `off` bytes is what the lines read say, and nothing else. */
  lemma {:induction false} VerdictIsSaid<M>(src: Source<M>, sid: SessionId, b: Bytes, off: nat, verdict: Verdict<M>)
    requires off <= |b|
    ensures verdict == VerdictAt(src, sid, b, off) <==> FileSays(src, sid, b, off, verdict)
  {
    VerdictSays(src, sid, b, off);
    if FileSays(src, sid, b, off, verdict) {
      var lines := LinesFrom(b, 0, off);
      SaysOneThing(src, sid, lines, Counted(b, off, lines), verdict, VerdictAt(src, sid, b, off));
    }
  }

  // ---------------------------------------------------------------- how much of a file is read

  /** A complete line of the first `off` bytes settles the file. */
  ghost predicate SettledBy<M>(src: Source<M>, sid: SessionId, b: Bytes, off: nat)
    requires off <= |b|
  {
    var lines := LinesFrom(b, 0, off);
    exists j :: 0 <= j < |lines| - 1 && Settles(src, sid, lines[j])
  }

  predicate IsMultiple(chunk: nat, m: nat)
    requires chunk > 0
    decreases m
  {
    m == 0 || (m >= chunk && IsMultiple(chunk, m - chunk))
  }

  /** Reading stops at the first multiple of the chunk size by which the file is settled, or at the cap. */
  ghost predicate StopsAt<M>(src: Source<M>, sid: SessionId, b: Bytes, chunk: nat, cap: nat, off: nat)
    requires chunk > 0 && cap <= |b|
  {
    && off <= cap && (off < cap ==> IsMultiple(chunk, off) && SettledBy(src, sid, b, off))
    && forall m: nat {:trigger SettledBy(src, sid, b, m)} :: m < off && IsMultiple(chunk, m) ==>
        !SettledBy(src, sid, b, m)
  }

  lemma {:induction false} DecidedIsSettled<M>(src: Source<M>, sid: SessionId, b: Bytes, off: nat)
    requires off <= |b|
    ensures Decided(src, sid, b, off) <==> SettledBy(src, sid, b, off)
  {
    LinesFromIsForward(b, 0, off);
    InspectedSays(src, sid, b, off, LinesFrom(b, 0, off), 0, None);
  }

  lemma {:induction false} ReadToStops<M>(src: Source<M>, sid: SessionId, b: Bytes, chunk: nat, off: nat, cap: nat)
    requires chunk > 0 && off <= cap <= |b| && (off < cap ==> IsMultiple(chunk, off))
    requires forall m: nat {:trigger SettledBy(src, sid, b, m)} :: m < off && IsMultiple(chunk, m) ==>
        !SettledBy(src, sid, b, m)
    ensures StopsAt(src, sid, b, chunk, cap, ReadTo(src, sid, b, chunk, off, cap))
    decreases cap - off
  {
    DecidedIsSettled(src, sid, b, off);
    if off < cap && !Decided(src, sid, b, off) {
      var next := Min(off + chunk, cap);
      forall m: nat | off < m < next ensures !IsMultiple(chunk, m) {
        NextMultiple(chunk, off, m);
      }
      ReadToStops(src, sid, b, chunk, next, cap);
    }
  }

  lemma {:induction false} NextMultiple(chunk: nat, off: nat, m: nat)
    requires chunk > 0 && IsMultiple(chunk, off) && off < m < off + chunk
    ensures !IsMultiple(chunk, m)
    decreases off
  {
    if off > 0 {
      NextMultiple(chunk, off - chunk, m - chunk);
    }
  }

  lemma {:induction false} StopsOnce<M>(src: Source<M>, sid: SessionId, b: Bytes, chunk: nat, cap: nat, x: nat, y: nat)
    requires chunk > 0 && cap <= |b| && StopsAt(src, sid, b, chunk, cap, x) && StopsAt(src, sid, b, chunk, cap, y)
    ensures x == y
  {
  }

  /** A scan with `left` bytes of the budget left: how much is read, and what that says. */
  ghost predicate IsScan<M>(
      src: Source<M>, limits: Limits, sid: SessionId, b: Bytes, left: nat, scan: FileScan<M>)
    requires limits.Valid()
  {
    && StopsAt(src, sid, b, limits.chunk, Min(Min(|b|, limits.prefix), left), scan.cost)
    && FileSays(src, sid, b, scan.cost, scan.verdict)
  }

  lemma {:induction false} ScanIsSaid<M>(
      src: Source<M>, limits: Limits, sid: SessionId, b: Bytes, left: nat, scan: FileScan<M>)
    requires limits.Valid()
    ensures scan == ScanOf(src, limits, sid, b, left) <==> IsScan(src, limits, sid, b, left, scan)
  {
    var cap, actual := Min(Min(|b|, limits.prefix), left), ScanOf(src, limits, sid, b, left);
    ReadToStops(src, sid, b, limits.chunk, 0, cap);
    if StopsAt(src, sid, b, limits.chunk, cap, scan.cost) {
      StopsOnce(src, sid, b, limits.chunk, cap, scan.cost, actual.cost);
      VerdictIsSaid(src, sid, b, scan.cost, scan.verdict);
    }
    VerdictIsSaid(src, sid, b, actual.cost, actual.verdict);
  }

  // ---------------------------------------------------------------- the whole scan

  /** The scans made so far, one for every candidate reached; none where there was nothing to scan. */
  type Scans<M> = seq<Option<FileScan<M>>>

  function Costs<M>(scans: Scans<M>): nat {
    if scans == [] then 0
    else
      var last := scans[|scans| - 1];
      Costs(scans[..|scans| - 1]) + if last.Some? then last.value.cost else 0
  }

  /** A scan that makes a record, or finds a sidechain: the session is not looked for again. */
  predicate Files<M>(scan: Option<FileScan<M>>) {
    scan.Some? && (scan.value.verdict.StopRecord? || scan.value.verdict.StopSidechain?)
  }

  /** What there is to scan of candidate `i`, given the scans before it. */
  ghost predicate ScannedRight<M>(
      src: Source<M>, limits: Limits, found0: Found<M>, cands: seq<Candidate>, scans: Scans<M>, i: nat)
    requires limits.Valid() && i < |scans| <= |cands|
  {
    var c, used := cands[i], found0.scanned + Costs(scans[..i]);
    && used < limits.budget
    && (scans[i].None? <==>
          || c.file.None? || c.sid in found0.records || c.sid in found0.sidechains
          || exists j :: 0 <= j < i && cands[j].sid == c.sid && Files(scans[j]))
    && (scans[i].Some? && c.file.Some? ==>
          IsScan(src, limits, c.sid, src.content(c.file.value.0, c.file.value.1), limits.budget - used, scans[i].value))
  }

  /** Every candidate in directory order, until the budget is used up. */
  ghost predicate IsScanOfAll<M>(
      src: Source<M>, limits: Limits, found0: Found<M>, cands: seq<Candidate>, scans: Scans<M>)
    requires limits.Valid()
  {
    && |scans| <= |cands|
    && (forall i {:trigger ScannedRight(src, limits, found0, cands, scans, i)} ::
          0 <= i < |scans| ==> ScannedRight(src, limits, found0, cands, scans, i))
  }

  /** The record candidate `i` makes. */
  ghost predicate Makes<M>(cands: seq<Candidate>, scans: Scans<M>, i: nat, record: Record<M>) {
    && i < |scans| <= |cands| && scans[i].Some? && scans[i].value.verdict.StopRecord? && cands[i].file.Some?
    && record == Record(cands[i].sid, scans[i].value.verdict.name, scans[i].value.verdict.meta,
                        cands[i].file.value.1.mtime, cands[i].file.value.0)
  }

  ghost predicate MakesRecord<M>(cands: seq<Candidate>, scans: Scans<M>, i: nat) {
    i < |scans| <= |cands| && scans[i].Some? && scans[i].value.verdict.StopRecord? && cands[i].file.Some?
  }

  ghost predicate MakesSidechain<M>(cands: seq<Candidate>, scans: Scans<M>, i: nat) {
    i < |scans| <= |cands| && scans[i].Some? && scans[i].value.verdict.StopSidechain?
  }

  /** The records are those there were before, and those the scans make; each where it belongs. */
  ghost predicate RecordsAre<M>(found0: Found<M>, cands: seq<Candidate>, scans: Scans<M>, found: Found<M>) {
    && (forall sid :: sid in found0.records ==> sid in found.records && found.records[sid] == found0.records[sid])
    && (forall i: nat {:trigger MakesRecord(cands, scans, i)} :: MakesRecord(cands, scans, i) ==>
          cands[i].sid in found.records && Makes(cands, scans, i, found.records[cands[i].sid]))
    && (forall sid :: sid in found.records && sid !in found0.records ==>
          exists i: nat :: MakesRecord(cands, scans, i) && cands[i].sid == sid)
  }

  ghost predicate SidechainsAre<M>(found0: Found<M>, cands: seq<Candidate>, scans: Scans<M>, found: Found<M>) {
    forall sid :: sid in found.sidechains <==>
        sid in found0.sidechains || exists i: nat :: MakesSidechain(cands, scans, i) && cands[i].sid == sid
  }

  ghost predicate IsFound<M>(found0: Found<M>, cands: seq<Candidate>, scans: Scans<M>, found: Found<M>, budget: nat) {
    && |scans| <= |cands| && RecordsAre(found0, cands, scans, found) && SidechainsAre(found0, cands, scans, found)
    && found.scanned == found0.scanned + Costs(scans)
    && (found.truncated <==> found0.truncated || found.scanned >= budget)
  }

  /** What a step does with its candidate. */
  lemma {:induction false} StepScans<M>(src: Source<M>, limits: Limits, found: Found<M>, c: Candidate)
    returns (scan: Option<FileScan<M>>)
    requires limits.Valid() && found.scanned < limits.budget
    ensures scan.None? <==> Skipped(found, c)
    ensures scan.None? ==> ColdStep(src, limits, found, c) == found
    ensures scan.Some? ==>
              var (path, stat) := c.file.value;
              && IsScan(src, limits, c.sid, src.content(path, stat), limits.budget - found.scanned, scan.value)
              && ColdStep(src, limits, found, c) ==
                 Charge(found, c.sid, Discovery.RecordOf(c.sid, path, stat, scan.value.verdict),
                        scan.value.verdict.StopSidechain?, scan.value.cost, limits.budget)
  {
    scan := None;
    if !Skipped(found, c) {
      var (path, stat) := c.file.value;
      scan := Some(ScanOf(src, limits, c.sid, src.content(path, stat), limits.budget - found.scanned));
      ScanIsSaid(src, limits, c.sid, src.content(path, stat), limits.budget - found.scanned, scan.value);
    }
  }

  /** One candidate more. */
  lemma {:induction false} OneMore<M>(
      src: Source<M>, limits: Limits, found0: Found<M>, cands: seq<Candidate>, scans: Scans<M>, found: Found<M>)
    returns (scans': Scans<M>)
    requires limits.Valid() && IsScanOfAll(src, limits, found0, cands, scans) && |scans| < |cands|
    requires IsFound(found0, cands, scans, found, limits.budget) && found.scanned < limits.budget
    ensures |scans'| == |scans| + 1 && IsScanOfAll(src, limits, found0, cands, scans')
    ensures IsFound(found0, cands, scans', ColdStep(src, limits, found, cands[|scans|]), limits.budget)
  {
    var next := ColdStep(src, limits, found, cands[|scans|]);
    var scan := StepScans(src, limits, found, cands[|scans|]);
    scans' := scans + [scan];
    CostsPush(scans, scan);
    StillRight(src, limits, found0, cands, scans, scan, found);
    RecordsPush(found0, cands, scans, scan, found, next);
    SidechainsPush(found0, cands, scans, scan, found, next);
  }

  lemma {:induction false} CostsPush<M>(scans: Scans<M>, scan: Option<FileScan<M>>)
    ensures Costs(scans + [scan]) == Costs(scans) + if scan.Some? then scan.value.cost else 0
  {
    assert (scans + [scan])[..|scans|] == scans;
  }

  /** The sessions not looked for again. */
  lemma {:induction false} FiledBefore<M>(
      src: Source<M>, limits: Limits, found0: Found<M>, cands: seq<Candidate>, scans: Scans<M>, found: Found<M>,
      sid: SessionId)
    requires limits.Valid() && IsScanOfAll(src, limits, found0, cands, scans)
    requires IsFound(found0, cands, scans, found, limits.budget)
    ensures sid in found.records || sid in found.sidechains <==>
        || sid in found0.records || sid in found0.sidechains
        || exists j :: 0 <= j < |scans| && cands[j].sid == sid && Files(scans[j])
  {
    forall j | 0 <= j < |scans| && Files(scans[j])
      ensures MakesRecord(cands, scans, j) || MakesSidechain(cands, scans, j)
    {
      assert ScannedRight(src, limits, found0, cands, scans, j);
    }
  }

  lemma {:induction false} RightInLonger<M>(
      src: Source<M>, limits: Limits, found0: Found<M>, cands: seq<Candidate>, scans: Scans<M>,
      scan: Option<FileScan<M>>, i: nat)
    requires limits.Valid() && i < |scans| < |cands| && ScannedRight(src, limits, found0, cands, scans, i)
    ensures ScannedRight(src, limits, found0, cands, scans + [scan], i)
  {
    var scans' := scans + [scan];
    assert scans'[..i] == scans[..i] && scans'[i] == scans[i];
    assert forall j :: 0 <= j < i ==> scans'[j] == scans[j];
  }

  lemma {:induction false} StillRight<M>(
      src: Source<M>, limits: Limits, found0: Found<M>, cands: seq<Candidate>, scans: Scans<M>,
      scan: Option<FileScan<M>>, found: Found<M>)
    requires limits.Valid() && IsScanOfAll(src, limits, found0, cands, scans) && |scans| < |cands|
    requires IsFound(found0, cands, scans, found, limits.budget) && found.scanned < limits.budget
    requires scan.None? <==> Skipped(found, cands[|scans|])
    requires scan.Some? ==>
               var c := cands[|scans|];
               IsScan(src, limits, c.sid, src.content(c.file.value.0, c.file.value.1), limits.budget - found.scanned,
                   scan.value)
    ensures IsScanOfAll(src, limits, found0, cands, scans + [scan])
  {
    var scans', n := scans + [scan], |scans|;
    forall i | 0 <= i < |scans'| ensures ScannedRight(src, limits, found0, cands, scans', i) {
      if i < n {
        RightInLonger(src, limits, found0, cands, scans, scan, i);
      } else {
        assert scans'[..n] == scans && scans'[n] == scan;
        FiledBefore(src, limits, found0, cands, scans, found, cands[n].sid);
        assert forall j :: 0 <= j < n ==> scans'[j] == scans[j];
      }
    }
  }

  lemma {:induction false} RecordsPush<M>(
      found0: Found<M>, cands: seq<Candidate>, scans: Scans<M>, scan: Option<FileScan<M>>, found: Found<M>,
      found': Found<M>)
    requires |scans| < |cands| && RecordsAre(found0, cands, scans, found)
    requires scan.None? ==> found'.records == found.records
    requires scan.Some? ==>
               var c := cands[|scans|];
               && c.file.Some? && c.sid !in found.records
               && var record := Discovery.RecordOf(c.sid, c.file.value.0, c.file.value.1, scan.value.verdict);
                  found'.records == if record.Some? then found.records[c.sid := record.value] else found.records
    ensures RecordsAre(found0, cands, scans + [scan], found')
  {
    var scans', n := scans + [scan], |scans|;
    assert forall i :: 0 <= i < n ==> scans'[i] == scans[i];
    assert scans'[n] == scan;
    forall i: nat | MakesRecord(cands, scans', i)
      ensures cands[i].sid in found'.records && Makes(cands, scans', i, found'.records[cands[i].sid])
    {
      if i < n {
        assert MakesRecord(cands, scans, i);
      }
    }
    forall sid | sid in found'.records && sid !in found0.records
      ensures exists i: nat :: MakesRecord(cands, scans', i) && cands[i].sid == sid
    {
      if sid in found.records {
        var i: nat :| MakesRecord(cands, scans, i) && cands[i].sid == sid;
        assert MakesRecord(cands, scans', i);
      } else {
        assert MakesRecord(cands, scans', n);
      }
    }
  }

  lemma {:induction false} SidechainsPush<M>(
      found0: Found<M>, cands: seq<Candidate>, scans: Scans<M>, scan: Option<FileScan<M>>, found: Found<M>,
      found': Found<M>)
    requires |scans| < |cands| && SidechainsAre(found0, cands, scans, found)
    requires found'.sidechains ==
             found.sidechains + if scan.Some? && scan.value.verdict.StopSidechain? then {cands[|scans|].sid} else {}
    ensures SidechainsAre(found0, cands, scans + [scan], found')
  {
    var scans', n := scans + [scan], |scans|;
    assert scans'[n] == scan;
    forall sid ensures sid in found'.sidechains <==>
        sid in found0.sidechains || exists i: nat :: MakesSidechain(cands, scans', i) && cands[i].sid == sid
    {
      if i: nat :| MakesSidechain(cands, scans, i) && cands[i].sid == sid {
        assert MakesSidechain(cands, scans', i);
      }
      if i: nat :| MakesSidechain(cands, scans', i) && cands[i].sid == sid && i < n {
        assert MakesSidechain(cands, scans, i);
      }
      if MakesSidechain(cands, scans', n) && cands[n].sid == sid {
        assert sid in found'.sidechains;
      }
    }
  }

  lemma {:induction false} ScanFrom<M>(
      src: Source<M>, limits: Limits, found0: Found<M>, cands: seq<Candidate>, scans0: Scans<M>, found: Found<M>)
    returns (scans: Scans<M>)
    requires limits.Valid() && IsScanOfAll(src, limits, found0, cands, scans0)
    requires IsFound(found0, cands, scans0, found, limits.budget) && found.scanned < limits.budget
    ensures IsScanOfAll(src, limits, found0, cands, scans)
    ensures IsFound(found0, cands, scans, ColdScan(src, limits, found, cands, |scans0|), limits.budget)
    ensures |scans| == |cands| || found0.scanned + Costs(scans) >= limits.budget
    decreases |cands| - |scans0|
  {
    scans := scans0;
    if |scans0| < |cands| {
      scans := OneMore(src, limits, found0, cands, scans0, found);
      var next := ColdStep(src, limits, found, cands[|scans0|]);
      if next.scanned < limits.budget {
        scans := ScanFrom(src, limits, found0, cands, scans, next);
      }
    }
  }

  /**
   What discovery finds: the candidates are scanned in directory order, each with what is left
   of the budget and unless its session was found before, until the budget is used up; and
   exactly the records and sidechains those files speak of are added.
   */
  lemma {:induction false} DiscoveryFinds<M>(src: Source<M>, limits: Limits, found0: Found<M>, cands: seq<Candidate>)
    returns (scans: Scans<M>)
    requires limits.Valid() && found0.scanned < limits.budget
    ensures IsScanOfAll(src, limits, found0, cands, scans)
    ensures |scans| == |cands| || found0.scanned + Costs(scans) >= limits.budget
    ensures IsFound(found0, cands, scans, ColdScan(src, limits, found0, cands, 0), limits.budget)
  {
    scans := ScanFrom(src, limits, found0, cands, [], found0);
  }
}
