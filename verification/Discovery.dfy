/**
 Discovery of CLI transcripts under a global byte budget, with a cache of earlier scans
 (extensions/anthropic/session-catalog.ts, discoverCliRecords).

 JSON parsing is a parameter. A path together with its mtime, size and inode determines the
 bytes of a file, as the source assumes; reads are full and nothing fails.
 */
module Discovery {
  import opened Prelude
  import opened Lines
  import opened OrderedMap

  type Path = string
  type SessionId = string

  datatype Stat = Stat(mtime: int, size: nat, ino: int)

  datatype Kind = AiTitle | User | Other

  datatype Entrypoint = NoEntrypoint | Cli | Foreign

  /** The fields of one JSON row that the scan looks at; `meta` is whatever the record copies. */
  datatype Row<M> = Row(sessionId: SessionId, kind: Kind, aiTitle: Option<string>, entrypoint: Entrypoint,
                        sidechain: bool, userMessage: bool, firstPrompt: Option<string>, meta: M)

  datatype Record<M> = Record(threadId: SessionId, name: Option<string>, meta: M, updatedAt: int, filePath: Path)

  /** What one row decides: keep reading, or stop the file with this outcome. */
  datatype Verdict<M> = Continue | StopForeign | StopSidechain | StopRecord(name: Option<string>, meta: M)

  datatype Source<!M> = Source(parse: Bytes -> Option<Row<M>>, content: (Path, Stat) -> Bytes)

  datatype Limits = Limits(chunk: nat, prefix: nat, budget: nat, cacheEntries: nat) {
    predicate Valid() { chunk > 0 && budget > 0 && cacheEntries > 0 }
  }

  function OrElse<A>(a: Option<A>, b: Option<A>): Option<A> {
    if a.Some? then a else b
  }

  /** Inspect one line: the title seen so far may change, and the file may be decided. */
  function Inspect<M>(
      src: Source<M>, sid: SessionId, title: Option<string>, line: Bytes): (Option<string>, Verdict<M>) {
    match src.parse(line)
    case None => (title, Continue)
    case Some(row) =>
      if row.sessionId != sid then (title, Continue)
      else if row.kind.AiTitle? then (OrElse(row.aiTitle, title), Continue)
      else if row.entrypoint.Foreign? then (title, StopForeign)
      else if row.entrypoint.Cli? && row.sidechain then (title, StopSidechain)
      else if !row.entrypoint.Cli? || !row.kind.User? || !row.userMessage then (title, Continue)
      else (title, StopRecord(OrElse(title, row.firstPrompt), row.meta))
  }

  // ---------------------------------------------------------------- one file, unbuffered

  /** How far a left-to-right reading got: the verdict, the title so far, where the open line starts. */
  datatype Progress<M> = Progress(verdict: Verdict<M>, title: Option<string>, open: nat)

  /** Inspect the complete lines of the first `end` bytes, from offset `from` on. */
  function Inspected<M>(
      src: Source<M>, sid: SessionId, b: Bytes, end: nat, from: nat, title: Option<string>): (p: Progress<M>)
    requires from <= end <= |b|
    ensures p.open <= end
    decreases end - from
  {
    var n := NextNewline(b, from, end);
    if n == end then Progress(Continue, title, from)
    else
      var (title', verdict) := Inspect(src, sid, title, b[from..n]);
      if !verdict.Continue? then Progress(verdict, title', n + 1)
      else Inspected(src, sid, b, end, n + 1, title')
  }

  ghost predicate Decided<M>(src: Source<M>, sid: SessionId, b: Bytes, end: nat)
    requires end <= |b|
  {
    !Inspected(src, sid, b, end, 0, None).verdict.Continue?
  }

  /** Where reading chunk by chunk stops: at the first chunk boundary where the file is decided, or at `cap`. */
  ghost function ReadTo<M>(src: Source<M>, sid: SessionId, b: Bytes, chunk: nat, off: nat, cap: nat): (r: nat)
    requires chunk > 0 && off <= cap <= |b|
    ensures off <= r <= cap
    decreases cap - off
  {
    if off >= cap || Decided(src, sid, b, off) then off
    else ReadTo(src, sid, b, chunk, Min(off + chunk, cap), cap)
  }

  datatype FileScan<M> = FileScan(verdict: Verdict<M>, cost: nat)

  /** The verdict once `off` bytes are read; an unterminated last line counts at the end of the file. */
  function VerdictAt<M>(src: Source<M>, sid: SessionId, b: Bytes, off: nat): Verdict<M>
    requires off <= |b|
  {
    var p := Inspected(src, sid, b, off, 0, None);
    if p.verdict.Continue? && off >= |b| && p.open < off
    then Inspect(src, sid, p.title, b[p.open..off]).1
    else p.verdict
  }

  /** Scan one file with `left` bytes of the global budget left. */
  ghost function ScanOf<M>(src: Source<M>, limits: Limits, sid: SessionId, b: Bytes, left: nat): FileScan<M>
    requires limits.Valid()
  {
    var off := ReadTo(src, sid, b, limits.chunk, 0, Min(Min(|b|, limits.prefix), left));
    FileScan(VerdictAt(src, sid, b, off), off)
  }

  /** The scan an unlimited budget allows: what every cache entry records. */
  ghost function FullScanOf<M>(src: Source<M>, limits: Limits, sid: SessionId, b: Bytes): FileScan<M>
    requires limits.Valid()
  {
    ScanOf(src, limits, sid, b, limits.prefix)
  }

  /** Raising the cap changes nothing once reading stopped below the lower cap. */
  lemma {:induction false} ReadToBelowCap<M>(
      src: Source<M>, sid: SessionId, b: Bytes, chunk: nat, off: nat, low: nat, high: nat)
    requires chunk > 0 && off <= low <= high <= |b|
    ensures ReadTo(src, sid, b, chunk, off, low) < low ==>
              ReadTo(src, sid, b, chunk, off, high) == ReadTo(src, sid, b, chunk, off, low)
    ensures ReadTo(src, sid, b, chunk, off, high) <= low ==>
              ReadTo(src, sid, b, chunk, off, high) == ReadTo(src, sid, b, chunk, off, low)
    decreases low - off
  {
    if off < low && !Decided(src, sid, b, off) && off + chunk <= low {
      ReadToBelowCap(src, sid, b, chunk, off + chunk, low, high);
    }
  }

  /** A budget that does not bite, and one that the full cost still fits, both give the full scan. */
  lemma {:induction false} BudgetDoesNotBite<M>(src: Source<M>, limits: Limits, sid: SessionId, b: Bytes, left: nat)
    requires limits.Valid()
    requires ScanOf(src, limits, sid, b, left).cost < left || FullScanOf(src, limits, sid, b).cost <= left
    ensures ScanOf(src, limits, sid, b, left) == FullScanOf(src, limits, sid, b)
  {
    var high := Min(|b|, limits.prefix);
    ReadToBelowCap(src, sid, b, limits.chunk, 0, Min(high, left), high);
  }

  // ---------------------------------------------------------------- one file, chunk by chunk

  /** Reading on from the open line is reading from the start. */
  lemma {:induction false} InspectedResume<M>(
      src: Source<M>, sid: SessionId, b: Bytes, end: nat, end': nat, from: nat, title: Option<string>)
    requires from <= end <= end' <= |b|
    requires Inspected(src, sid, b, end, from, title).verdict.Continue?
    ensures var p := Inspected(src, sid, b, end, from, title);
            Inspected(src, sid, b, end', from, title) == Inspected(src, sid, b, end', p.open, p.title)
    decreases end - from
  {
    var n := NextNewline(b, from, end);
    if n < end {
      NextNewlineUnique(b, from, n, end');
      var next := Inspect(src, sid, title, b[from..n]);
      assert Inspected(src, sid, b, end, from, title) == Inspected(src, sid, b, end, n + 1, next.0);
      assert Inspected(src, sid, b, end', from, title) == Inspected(src, sid, b, end', n + 1, next.0);
      InspectedResume(src, sid, b, end, end', n + 1, next.0);
    }
  }

  /** The first newline of a buffer, or its length. */
  method IndexOfNewline(pending: Bytes) returns (i: nat)
    ensures i <= |pending| && NoNewline(pending, 0, i)
    ensures i < |pending| ==> pending[i] == NEWLINE
  {
    i := 0;
    while i < |pending| && pending[i] != NEWLINE
      invariant i <= |pending| && NoNewline(pending, 0, i)
    {
      i := i + 1;
    }
  }

  /** `pending` holds the bytes of `b` from `open` to `off`. */
  ghost predicate Holds(b: Bytes, open: nat, off: nat, pending: Bytes) {
    open + |pending| == off <= |b| && forall k :: 0 <= k < |pending| ==> pending[k] == b[open + k]
  }

  lemma {:induction false} HeldLine(b: Bytes, open: nat, off: nat, pending: Bytes, n: nat)
    requires Holds(b, open, off, pending) && n <= |pending| && NoNewline(pending, 0, n)
    requires n < |pending| ==> pending[n] == NEWLINE
    ensures NextNewline(b, open, off) == open + n
    ensures b[open..open + n] == pending[..n]
    ensures n < |pending| ==> Holds(b, open + n + 1, off, pending[n + 1..])
  {
    assert forall k :: open <= k < open + n ==> pending[k - open] == b[k];
    NextNewlineUnique(b, open, open + n, off);
  }

  /** Inspect every complete line in the buffer, stopping at the first that decides the file. */
  method InspectPending<M>(
      src: Source<M>, sid: SessionId, ghost b: Bytes, ghost off: nat, p0: Progress<M>, pending0: Bytes)
    returns (p: Progress<M>, pending: Bytes)
    requires Holds(b, p0.open, off, pending0) && p0.verdict.Continue?
    ensures p == Inspected(src, sid, b, off, p0.open, p0.title)
    ensures Holds(b, p.open, off, pending)
  {
    p, pending := p0, pending0;
    while p.verdict.Continue?
      invariant Holds(b, p.open, off, pending)
      invariant Inspected(src, sid, b, off, p0.open, p0.title) ==
                if p.verdict.Continue? then Inspected(src, sid, b, off, p.open, p.title) else p
      decreases p.verdict.Continue?, |pending|
    {
      var newline := IndexOfNewline(pending);
      HeldLine(b, p.open, off, pending, newline);
      if newline == |pending| {
        return;
      }
      var inspected := Inspect(src, sid, p.title, pending[..newline]);
      p := Progress(inspected.1, inspected.0, p.open + newline + 1);
      pending := pending[newline + 1..];
    }
  }

  /** The buffered reader has seen the first `off` bytes. */
  ghost predicate At<M>(src: Source<M>, sid: SessionId, b: Bytes, off: nat, p: Progress<M>, pending: Bytes) {
    Holds(b, p.open, off, pending) && p == Inspected(src, sid, b, off, 0, None)
  }

  /** Append one chunk to the buffer and inspect what it completes. */
  method ReadChunk<M>(src: Source<M>, sid: SessionId, b: Bytes, off: nat, size: nat, p0: Progress<M>, pending0: Bytes)
    returns (p: Progress<M>, pending: Bytes)
    requires At(src, sid, b, off, p0, pending0) && p0.verdict.Continue? && off + size <= |b|
    ensures At(src, sid, b, off + size, p, pending)
  {
    pending := pending0 + b[off..off + size];
    InspectedResume(src, sid, b, off, off + size, 0, None);
    p, pending := InspectPending(src, sid, b, off + size, p0, pending);
  }

  /** At the end of the file the unterminated last line counts too. */
  method LastLine<M>(
      src: Source<M>, sid: SessionId, b: Bytes, off: nat, p: Progress<M>, pending: Bytes)
    returns (verdict: Verdict<M>)
    requires At(src, sid, b, off, p, pending)
    ensures verdict == VerdictAt(src, sid, b, off)
  {
    verdict := p.verdict;
    if verdict.Continue? && off >= |b| && |pending| > 0 {
      assert b[p.open..off] == pending;
      verdict := Inspect(src, sid, p.title, pending).1;
    }
  }

  /** Scan one file chunk by chunk, carrying the unfinished line over in a buffer. */
  method ScanFile<M>(
      src: Source<M>, limits: Limits, sid: SessionId, b: Bytes, left: nat) returns (scan: FileScan<M>, finished: bool)
    requires limits.Valid()
    ensures scan == ScanOf(src, limits, sid, b, left)
    ensures finished ==> !scan.verdict.Continue? || scan.cost >= |b| || scan.cost >= limits.prefix
    ensures scan.cost < left ==> finished
  {
    var fileOffset: nat := 0;
    var p: Progress<M>, pending: Bytes := Progress(Continue, None, 0), [];
    ghost var cap := Min(Min(|b|, limits.prefix), left);
    while p.verdict.Continue? && fileOffset < |b| && fileOffset < limits.prefix && fileOffset < left
      invariant fileOffset <= cap && At(src, sid, b, fileOffset, p, pending)
      invariant ReadTo(src, sid, b, limits.chunk, 0, cap) == ReadTo(src, sid, b, limits.chunk, fileOffset, cap)
      decreases cap - fileOffset
    {
      var size := Min(Min(limits.chunk, |b| - fileOffset), Min(limits.prefix - fileOffset, left - fileOffset));
      p, pending := ReadChunk(src, sid, b, fileOffset, size, p, pending);
      fileOffset := fileOffset + size;
    }
    finished := !p.verdict.Continue? || fileOffset >= |b| || fileOffset >= limits.prefix;
    var verdict := LastLine(src, sid, b, fileOffset, p, pending);
    scan := FileScan(verdict, fileOffset);
  }

  // ---------------------------------------------------------------- the whole scan, without a cache

  /** One directory entry: its session id and, when the path is safe, the resolved file. */
  datatype Candidate = Candidate(sid: SessionId, file: Option<(Path, Stat)>)

  datatype Found<M> = Found(records: map<SessionId, Record<M>>, sidechains: set<SessionId>, scanned: nat,
      truncated: bool)

  function RecordOf<M>(sid: SessionId, path: Path, stat: Stat, verdict: Verdict<M>): Option<Record<M>> {
    if verdict.StopRecord? then Some(Record(sid, verdict.name, verdict.meta, stat.mtime, path)) else None
  }

  /** Charge one file's scan and file its outcome; the scan ends when the budget is used up. */
  function Charge<M>(
      found: Found<M>, sid: SessionId, record: Option<Record<M>>, sidechain: bool, cost: nat, budget: nat): Found<M> {
    Found(if record.Some? then found.records[sid := record.value] else found.records,
          if sidechain then found.sidechains + {sid} else found.sidechains,
          found.scanned + cost, found.truncated || found.scanned + cost >= budget)
  }

  predicate Skipped<M>(found: Found<M>, c: Candidate) {
    c.sid in found.records || c.sid in found.sidechains || c.file.None?
  }

  /** The effect of one candidate on a scan that has never seen any file before. */
  ghost function ColdStep<M>(src: Source<M>, limits: Limits, found: Found<M>, c: Candidate): Found<M>
    requires limits.Valid() && found.scanned < limits.budget
  {
    if Skipped(found, c) then found
    else
      var (path, stat) := c.file.value;
      var scan := ScanOf(src, limits, c.sid, src.content(path, stat), limits.budget - found.scanned);
      Charge(found, c.sid, RecordOf(c.sid, path, stat, scan.verdict), scan.verdict.StopSidechain?, scan.cost,
          limits.budget)
  }

  /** A cold scan: the candidates in directory order, until the budget cuts off. */
  ghost function ColdScan<M>(src: Source<M>, limits: Limits, found: Found<M>, cands: seq<Candidate>, i: nat): Found<M>
    requires limits.Valid() && found.scanned < limits.budget && i <= |cands|
    decreases |cands| - i
  {
    if i == |cands| then found
    else
      var next := ColdStep(src, limits, found, cands[i]);
      if next.scanned >= limits.budget then next else ColdScan(src, limits, next, cands, i + 1)
  }

  // ---------------------------------------------------------------- the cache

  datatype Cached<M> = Cached(root: Path, stat: Stat, sid: SessionId, cost: nat, record: Option<Record<M>>,
      sidechain: bool)

  /** An entry records exactly what an unlimited scan of its file gives. */
  ghost predicate Truthful<M>(src: Source<M>, limits: Limits, path: Path, e: Cached<M>)
    requires limits.Valid()
  {
    var scan := FullScanOf(src, limits, e.sid, src.content(path, e.stat));
    && e.cost == scan.cost && e.sidechain == scan.verdict.StopSidechain?
    && e.record == RecordOf(e.sid, path, e.stat, scan.verdict)
  }

  /** Replaying a truthful entry that still fits the budget is the cold step. */
  lemma {:induction false} ReplayIsCold<M>(
      src: Source<M>, limits: Limits, found: Found<M>, c: Candidate, path: Path, e: Cached<M>)
    requires limits.Valid() && found.scanned < limits.budget && !Skipped(found, c)
    requires Truthful(src, limits, path, e) && c == Candidate(e.sid, Some((path, e.stat)))
    requires found.scanned + e.cost <= limits.budget
    ensures ColdStep(src, limits, found, c) == Charge(found, c.sid, e.record, e.sidechain, e.cost, limits.budget)
  {
    BudgetDoesNotBite(src, limits, e.sid, src.content(path, e.stat), limits.budget - found.scanned);
  }

  /** The entry stored after a scan that left some budget unused is truthful. */
  lemma {:induction false} StoredIsTruthful<M>(
      src: Source<M>, limits: Limits, sid: SessionId, path: Path, e: Cached<M>, scan: FileScan<M>, left: nat)
    requires limits.Valid() && scan == ScanOf(src, limits, sid, src.content(path, e.stat), left) && scan.cost < left
    requires e == Cached(e.root, e.stat, sid, scan.cost, RecordOf(sid, path, e.stat, scan.verdict),
        scan.verdict.StopSidechain?)
    ensures Truthful(src, limits, path, e)
  {
    BudgetDoesNotBite(src, limits, sid, src.content(path, e.stat), left);
  }

  type Cache<M> = seq<(Path, Cached<M>)>

  /** The invariant of the cache over any history of scans. */
  ghost predicate SoundCache<M>(src: Source<M>, limits: Limits, cache: Cache<M>)
    requires limits.Valid()
  {
    && Distinct(cache) && |cache| <= limits.cacheEntries
    && forall x :: x in cache ==> Truthful(src, limits, x.0, x.1)
  }

  lemma {:induction false} SoundAfterStore<M>(src: Source<M>, limits: Limits, cache: Cache<M>, path: Path, e: Cached<M>)
    requires limits.Valid() && SoundCache(src, limits, cache) && Truthful(src, limits, path, e)
    ensures SoundCache(src, limits, Bounded(cache, path, e, limits.cacheEntries))
  {
    BoundedMembers(cache, path, e, limits.cacheEntries);
  }

  lemma {:induction false} SoundAfterEviction<M>(
      src: Source<M>, limits: Limits, cache: Cache<M>, keep: ((Path, Cached<M>)) -> bool)
    requires limits.Valid() && SoundCache(src, limits, cache)
    ensures SoundCache(src, limits, Filter(cache, keep))
  {
    forall x | x in Filter(cache, keep) ensures x in cache {
      FilterMember(cache, keep, x);
    }
    FilterDistinct(cache, keep);
  }

  /** The process-wide discovery cache, in insertion order. */
  class Catalog<M> {
    const src: Source<M>
    const limits: Limits
    var cache: Cache<M>

    ghost predicate Valid()
      reads this
    {
      limits.Valid() && SoundCache(src, limits, cache)
    }

    constructor (src: Source<M>, limits: Limits)
      requires limits.Valid()
      ensures Valid() && this.src == src && this.limits == limits && cache == []
    {
      this.src, this.limits, cache := src, limits, [];
    }

    /**
     Scan one candidate. A cached outcome is replayed, at its recorded cost, only when its
     file is unchanged and the cost still fits; otherwise the file is scanned again.
     */
    method Visit(root: Path, c: Candidate, found0: Found<M>) returns (found: Found<M>)
      requires Valid() && found0.scanned < limits.budget && !Skipped(found0, c)
      modifies this
      ensures Valid() && found == ColdStep(src, limits, found0, c)
    {
      var (path, stat) := c.file.value;
      var hit := Get(cache, path);
      if hit.Some? && hit.value.root == root && hit.value.stat == stat && hit.value.sid == c.sid
         && found0.scanned + hit.value.cost <= limits.budget
      {
        ReplayIsCold(src, limits, found0, c, path, hit.value);
        return Charge(found0, c.sid, hit.value.record, hit.value.sidechain, hit.value.cost, limits.budget);
      }
      found := Rescan(root, c, path, stat, found0);
    }

    /** Scan the file itself; remember the outcome unless the budget may have cut it short. */
    method Rescan(root: Path, c: Candidate, path: Path, stat: Stat, found0: Found<M>) returns (found: Found<M>)
      requires Valid() && found0.scanned < limits.budget && !Skipped(found0, c) && c.file == Some((path, stat))
      modifies this
      ensures Valid() && found == ColdStep(src, limits, found0, c)
    {
      var left := limits.budget - found0.scanned;
      var scan, finished := ScanFile(src, limits, c.sid, src.content(path, stat), left);
      var record, sidechain := RecordOf(c.sid, path, stat, scan.verdict), scan.verdict.StopSidechain?;
      found := Charge(found0, c.sid, record, sidechain, scan.cost, limits.budget);
      var budgetConstrained := found.scanned >= limits.budget;
      if !budgetConstrained && finished {
        var e := Cached(root, stat, c.sid, scan.cost, record, sidechain);
        StoredIsTruthful(src, limits, c.sid, path, e, scan, left);
        Store(path, e);
      }
    }

    method Store(path: Path, e: Cached<M>)
      requires Valid() && Truthful(src, limits, path, e)
      modifies this
      ensures Valid() && cache == Bounded(old(cache), path, e, limits.cacheEntries)
    {
      SoundAfterStore(src, limits, cache, path, e);
      cache := SetBounded(cache, path, e, limits.cacheEntries);
    }

    /**
     A whole scan through the cache. Whatever earlier scans left in it, the records, the
     sidechain ids, the bytes charged and the cut-off are those of a scan with no cache.
     A root that is gone, or a scan that was not cut off, drops the root's unseen entries.
     */
    method Discover(root: Path, resolved: bool, cands: seq<Candidate>, listingCut: bool,
                    records: map<SessionId, Record<M>>, sidechains: set<SessionId>) returns (found: Found<M>)
      requires Valid()
      modifies this
      ensures Valid()
      ensures resolved ==> found == ColdScan(src, limits, Found(records, sidechains, 0, listingCut), cands, 0)
      ensures !resolved ==> found == Found(records, sidechains, 0, listingCut)
      ensures !resolved ==> forall x :: x in cache ==> x.1.root != root
      ensures resolved && !found.truncated ==>
                forall x :: x in cache && x.1.root == root ==> Listed(cands, x.0)
    {
      found := Found(records, sidechains, 0, listingCut);
      if !resolved {
        Evict(root, {});
        return;
      }
      var seen: set<Path> := {};
      for i := 0 to |cands|
        invariant Valid() && found.scanned < limits.budget
        invariant ColdScan(src, limits, Found(records, sidechains, 0, listingCut), cands, 0)
            == ColdScan(src, limits, found, cands, i)
        invariant forall path :: path in seen ==> Listed(cands, path)
        invariant listingCut ==> found.truncated
      {
        if !Skipped(found, cands[i]) {
          seen := seen + {cands[i].file.value.0};
          found := Visit(root, cands[i], found);
          if found.scanned >= limits.budget {
            return;
          }
        }
      }
      if !found.truncated {
        Evict(root, seen);
      }
    }

    /** Drop the entries of `root` that were not seen. */
    method Evict(root: Path, seen: set<Path>)
      requires Valid()
      modifies this
      ensures Valid()
      ensures forall x :: x in cache <==> x in old(cache) && (x.1.root != root || x.0 in seen)
    {
      var keep := (x: (Path, Cached<M>)) => x.1.root != root || x.0 in seen;
      SoundAfterEviction(src, limits, cache, keep);
      forall x ensures x in Filter(cache, keep) <==> x in cache && keep(x) {
        FilterMember(cache, keep, x);
      }
      cache := Filter(cache, keep);
    }
  }

  ghost predicate Listed(cands: seq<Candidate>, path: Path) {
    exists i :: 0 <= i < |cands| && cands[i].file.Some? && cands[i].file.value.0 == path
  }
}
