/**
 Reading LevelDB tables: prefix-compressed block entries, block handles and the footer
 (extensions/anthropic/claude-desktop-groups.ts). The writer's side of LevelDB's table
 format (doc/table_format.md) serves as specification.
 */
module LevelDb {
  import opened Prelude
  import opened Binary
  import Snappy

  const FOOTER_BYTES: nat := 48
  const TRAILER_BYTES: nat := 5

  datatype Error = TooShort | BadRestartArray | BadVarint | BadEntry | BadHandle | UnsupportedCompression | BadSnappy

  datatype Pair = Pair(key: Bytes, value: Bytes)

  /** What a visitor saw, and the error that ended the block early, if any. */
  datatype Visited = Visited(pairs: seq<Pair>, error: Option<Error>)

  function After(visited: seq<Pair>, rest: Visited): Visited {
    Visited(visited + rest.pairs, rest.error)
  }

  lemma {:induction false} AfterNone(rest: Visited)
    ensures After([], rest) == rest
  {
    assert [] + rest.pairs == rest.pairs;
  }

  lemma {:induction false} AfterTwice(a: seq<Pair>, b: seq<Pair>, rest: Visited)
    ensures After(a, After(b, rest)) == After(a + b, rest)
  {
    assert a + (b + rest.pairs) == (a + b) + rest.pairs;
  }

  // ---------------------------------------------------------------- reading a block

  /**
   The entry at `off` of a block whose entries end at `end`: three varints, then the key
   suffix and the value. It may share no more than the previous key has, nor reach past `end`.
   */
  function EntryAt(block: Bytes, end: nat, off: nat, previousKey: Bytes): (r: Result<(Pair, nat), Error>)
    requires end <= |block|
    ensures r.Ok? ==> off < r.value.1 <= end
  {
    match Numbers(block, off, 3)
    case None => Err(BadVarint)
    case Some((ns, start)) => Parts(block, end, start, ns[0], ns[1], ns[2], previousKey)
  }

  function Parts(
      block: Bytes, end: nat, start: nat, shared: nat, unshared: nat, valueLength: nat, previousKey: Bytes)
    : (r: Result<(Pair, nat), Error>)
    requires end <= |block|
    ensures r.Ok? ==> r.value.1 == start + unshared + valueLength <= end
  {
    var keyEnd := start + unshared;
    var valueEnd := keyEnd + valueLength;
    if shared > |previousKey| || valueEnd > end then Err(BadEntry)
    else Ok((Pair(previousKey[..shared] + block[start..keyEnd], block[keyEnd..valueEnd]), valueEnd))
  }

  ghost predicate Advancing(read: (nat, Bytes) -> Result<(Pair, nat), Error>) {
    forall o: nat, k: Bytes :: read(o, k).Ok? ==> o < read(o, k).value.1
  }

  /** Read entry after entry, each key built on the one before. */
  function Walk(read: (nat, Bytes) -> Result<(Pair, nat), Error>, off: nat, end: nat, previousKey: Bytes): Visited
    requires Advancing(read)
    decreases end - off
  {
    if off >= end then Visited([], None)
    else match read(off, previousKey)
      case Err(e) => Visited([], Some(e))
      case Ok((pair, next)) => After([pair], Walk(read, next, end, pair.key))
  }

  function EntryReader(block: Bytes, end: nat): (read: (nat, Bytes) -> Result<(Pair, nat), Error>)
    requires end <= |block|
    ensures Advancing(read)
    ensures forall o: nat, k: Bytes :: read(o, k) == EntryAt(block, end, o, k)
  {
    (off: nat, previousKey: Bytes) => EntryAt(block, end, off, previousKey)
  }

  /** Where the entries end and the restart array begins. */
  function EntriesEnd(block: Bytes): int
    requires |block| >= 4
  {
    |block| - 4 - ReadLE(block, |block| - 4, 4) * 4
  }

  function Visit(block: Bytes): Visited {
    if |block| < 4 then Visited([], Some(TooShort))
    else if EntriesEnd(block) < 0 then Visited([], Some(BadRestartArray))
    else Walk(EntryReader(block, EntriesEnd(block)), 0, EntriesEnd(block), [])
  }

  method ReadEntry(block: Bytes, end: nat, off: nat, previousKey: Bytes) returns (r: Result<(Pair, nat), Error>)
    requires end <= |block|
    ensures r == EntryAt(block, end, off, previousKey)
  {
    var numbers := ReadNumbers(block, off, 3);
    if numbers.None? {
      return Err(BadVarint);
    }
    var (ns, start) := numbers.value;
    var keyEnd := start + ns[1];
    var valueEnd := keyEnd + ns[2];
    if ns[0] > |previousKey| || valueEnd > end {
      return Err(BadEntry);
    }
    r := Ok((Pair(previousKey[..ns[0]] + block[start..keyEnd], block[keyEnd..valueEnd]), valueEnd));
  }

  /** Visit every entry of a block in order, keeping the previous key. */
  method ForEachEntry(block: Bytes) returns (r: Visited)
    ensures r == Visit(block)
  {
    if |block| < 4 {
      return Visited([], Some(TooShort));
    }
    var restartCount := ReadLE(block, |block| - 4, 4);
    var entriesEnd := |block| - 4 - restartCount * 4;
    if entriesEnd < 0 {
      return Visited([], Some(BadRestartArray));
    }
    var offset: nat := 0;
    var previousKey: Bytes := [];
    var visited: seq<Pair> := [];
    ghost var read := EntryReader(block, entriesEnd);
    AfterNone(Visit(block));
    while offset < entriesEnd
      invariant Visit(block) == After(visited, Walk(read, offset, entriesEnd, previousKey))
      decreases entriesEnd - offset
    {
      var entry := ReadEntry(block, entriesEnd, offset, previousKey);
      assert read(offset, previousKey) == entry;
      if entry.Err? {
        return Visited(visited, Some(entry.error));
      }
      var (pair, valueEnd) := entry.value;
      AfterTwice(visited, [pair], Walk(read, valueEnd, entriesEnd, pair.key));
      visited := visited + [pair];
      previousKey := pair.key;
      offset := valueEnd;
    }
    r := Visited(visited, None);
  }

  // ---------------------------------------------------------------- writing a block

  /** The key before entry `i`. */
  function KeyBefore(pairs: seq<Pair>, previousKey: Bytes, i: nat): Bytes
    requires i <= |pairs|
  {
    if i == 0 then previousKey else pairs[i - 1].key
  }

  /** Legal choices of shared-prefix lengths for a list of entries. */
  ghost predicate Legal(pairs: seq<Pair>, shared: seq<nat>) {
    |pairs| == |shared| && forall i :: 0 <= i < |pairs| ==> LegalEntry(pairs[i], shared[i], KeyBefore(pairs, [], i))
  }

  ghost predicate LegalEntry(pair: Pair, shared: nat, previousKey: Bytes) {
    && shared <= |previousKey| && shared <= |pair.key| && pair.key[..shared] == previousKey[..shared]
    && Encodable(|pair.key|) && Encodable(|pair.value|)
  }

  function EncodeEntry(pair: Pair, shared: nat): Bytes
    requires shared <= |pair.key|
  {
    EncodeNumbers([shared, |pair.key| - shared, |pair.value|]) + (pair.key[shared..] + pair.value)
  }

  function Flat(chunks: seq<Bytes>): Bytes {
    if chunks == [] then [] else chunks[0] + Flat(chunks[1..])
  }

  ghost function EncodedEntries(pairs: seq<Pair>, shared: seq<nat>): (chunks: seq<Bytes>)
    requires Legal(pairs, shared)
    ensures |chunks| == |pairs|
  {
    seq(|pairs|, i requires 0 <= i < |pairs| => EncodeEntry(pairs[i], shared[i]))
  }

  function EncodeRestarts(restarts: seq<nat>): (r: Bytes)
    requires forall i :: 0 <= i < |restarts| ==> restarts[i] < Pow256(4)
    ensures |r| == 4 * |restarts|
  {
    if restarts == [] then [] else LE(restarts[0], 4) + EncodeRestarts(restarts[1..])
  }

  /** A block: its entries, the restart array, and the number of restarts. */
  ghost function EncodeBlock(pairs: seq<Pair>, shared: seq<nat>, restarts: seq<nat>): Bytes
    requires Legal(pairs, shared)
    requires |restarts| < Pow256(4) && forall i :: 0 <= i < |restarts| ==> restarts[i] < Pow256(4)
  {
    Flat(EncodedEntries(pairs, shared)) + (EncodeRestarts(restarts) + LE(|restarts|, 4))
  }

  lemma {:induction false} PartsInvert(block: Bytes, end: nat, start: nat, pair: Pair, shared: nat, previousKey: Bytes)
    requires LegalEntry(pair, shared, previousKey) && Has(block, start, pair.key[shared..] + pair.value)
    requires start + |pair.key| - shared + |pair.value| <= end <= |block|
    ensures Parts(block, end, start, shared, |pair.key| - shared, |pair.value|, previousKey) ==
            Ok((pair, start + |pair.key| - shared + |pair.value|))
  {
    var suffix := pair.key[shared..];
    HasParts(block, start, suffix, pair.value);
    HasSlice(block, start, suffix);
    HasSlice(block, start + |suffix|, pair.value);
    assert pair.key == pair.key[..shared] + suffix;
  }

  /** An encoded entry is read back. */
  lemma {:induction false} EntryInverts(block: Bytes, end: nat, off: nat, pair: Pair, shared: nat, previousKey: Bytes)
    requires LegalEntry(pair, shared, previousKey) && Has(block, off, EncodeEntry(pair, shared))
    requires off + |EncodeEntry(pair, shared)| <= end <= |block|
    ensures EntryAt(block, end, off, previousKey) == Ok((pair, off + |EncodeEntry(pair, shared)|))
  {
    FieldsInvert(block, end, off, [shared, |pair.key| - shared, |pair.value|], pair, shared, previousKey);
  }

  lemma {:induction false} FieldsInvert(
      block: Bytes, end: nat, off: nat, ns: seq<nat>, pair: Pair, shared: nat, previousKey: Bytes)
    requires LegalEntry(pair, shared, previousKey)
    requires |ns| == 3 && ns[0] == shared && ns[1] == |pair.key| - shared && ns[2] == |pair.value|
    requires Has(block, off, EncodeNumbers(ns) + (pair.key[shared..] + pair.value))
    requires off + |EncodeNumbers(ns)| + ns[1] + ns[2] <= end <= |block|
    ensures EntryAt(block, end, off, previousKey) == Ok((pair, off + |EncodeNumbers(ns)| + ns[1] + ns[2]))
  {
    HasParts(block, off, EncodeNumbers(ns), pair.key[shared..] + pair.value);
    NumbersInvert(block, off, ns);
    PartsInvert(block, end, off + |EncodeNumbers(ns)|, pair, shared, previousKey);
  }

  /** Wherever the chunk stands, reading there after `previousKey` gives the pair. */
  ghost predicate ReadsBack(
      block: Bytes, end: nat, read: (nat, Bytes) -> Result<(Pair, nat), Error>, previousKey: Bytes, pair: Pair,
      chunk: Bytes) {
    |chunk| > 0 && forall o: nat :: Has(block, o, chunk) && o + |chunk| <= end ==>
        read(o, previousKey) == Ok((pair, o + |chunk|))
  }

  lemma {:induction false} EntryReads(block: Bytes, end: nat, pair: Pair, shared: nat, previousKey: Bytes)
    requires LegalEntry(pair, shared, previousKey) && end <= |block|
    ensures ReadsBack(block, end, EntryReader(block, end), previousKey, pair, EncodeEntry(pair, shared))
  {
    forall o: nat | Has(block, o, EncodeEntry(pair, shared)) && o + |EncodeEntry(pair, shared)| <= end
      ensures EntryReader(block, end)(o, previousKey) == Ok((pair, o + |EncodeEntry(pair, shared)|))
    {
      EntryInverts(block, end, o, pair, shared, previousKey);
      assert EntryReader(block, end)(o, previousKey) == EntryAt(block, end, o, previousKey);
    }
  }

  lemma {:induction false} WalkChunks(
      block: Bytes, off: nat, end: nat, read: (nat, Bytes) -> Result<(Pair, nat), Error>, pairs: seq<Pair>,
      chunks: seq<Bytes>, previousKey: Bytes)
    requires Advancing(read) && |pairs| == |chunks|
    requires forall i :: 0 <= i < |pairs| ==>
        ReadsBack(block, end, read, KeyBefore(pairs, previousKey, i), pairs[i], chunks[i])
    requires Has(block, off, Flat(chunks)) && end == off + |Flat(chunks)|
    ensures Walk(read, off, end, previousKey) == Visited(pairs, None)
    decreases |pairs|
  {
    if pairs != [] {
      var next := off + |chunks[0]|;
      HasParts(block, off, chunks[0], Flat(chunks[1..]));
      assert KeyBefore(pairs, previousKey, 0) == previousKey;
      forall i | 0 <= i < |pairs[1..]|
          ensures ReadsBack(block, end, read, KeyBefore(pairs[1..], pairs[0].key, i), pairs[1..][i], chunks[1..][i]) {
        assert KeyBefore(pairs[1..], pairs[0].key, i) == KeyBefore(pairs, previousKey, i + 1);
      }
      WalkChunks(block, next, end, read, pairs[1..], chunks[1..], pairs[0].key);
      WalkStep(read, off, end, previousKey, pairs, next);
    }
  }

  lemma {:induction false} WalkStep(
      read: (nat, Bytes) -> Result<(Pair, nat), Error>, off: nat, end: nat, previousKey: Bytes,
      pairs: seq<Pair>, next: nat)
    requires Advancing(read)
    requires pairs != [] && off < end && read(off, previousKey) == Ok((pairs[0], next))
    requires Walk(read, next, end, pairs[0].key) == Visited(pairs[1..], None)
    ensures Walk(read, off, end, previousKey) == Visited(pairs, None)
  {
  }

  /** Reading a block undoes writing it, for every legal choice of shared prefixes and restarts. */
  lemma {:induction false} VisitInvertsEncode(pairs: seq<Pair>, shared: seq<nat>, restarts: seq<nat>)
    requires Legal(pairs, shared)
    requires |restarts| < Pow256(4) && forall i :: 0 <= i < |restarts| ==> restarts[i] < Pow256(4)
    ensures Visit(EncodeBlock(pairs, shared, restarts)) == Visited(pairs, None)
  {
    var chunks := EncodedEntries(pairs, shared);
    var entries, tail, count := Flat(chunks), EncodeRestarts(restarts), LE(|restarts|, 4);
    var block := entries + (tail + count);
    assert forall i :: 0 <= i < 4 ==> ByteAt(block, |block| - 4 + i) == count[i];
    ReadLEInverts(block, |block| - 4, |restarts|, 4);
    assert EntriesEnd(block) == |entries|;
    var read := EntryReader(block, |entries|);
    forall i | 0 <= i < |pairs|
        ensures ReadsBack(block, |entries|, read, KeyBefore(pairs, [], i), pairs[i], chunks[i]) {
      EntryReads(block, |entries|, pairs[i], shared[i], KeyBefore(pairs, [], i));
    }
    WalkChunks(block, 0, |entries|, read, pairs, chunks, []);
  }

  /** Entry `i` was read at its offset, after the key before it. */
  ghost predicate ReadAt(
      read: (nat, Bytes) -> Result<(Pair, nat), Error>, end: nat, previousKey: Bytes, pairs: seq<Pair>,
      offsets: seq<nat>, i: nat)
    requires i < |pairs| && |offsets| == |pairs| + 1
  {
    offsets[i] < end && read(offsets[i], KeyBefore(pairs, previousKey, i)) == Ok((pairs[i], offsets[i + 1]))
  }

  ghost predicate EndsAt(
      read: (nat, Bytes) -> Result<(Pair, nat), Error>, end: nat, previousKey: Bytes, visited: Visited, last: nat)
  {
    match visited.error
    case None => last >= end
    case Some(e) => last < end && read(last, KeyBefore(visited.pairs, previousKey, |visited.pairs|)) == Err(e)
  }

  /** `offsets` are where the entries visited begin, and where the visit ended: at `end`, or at an entry in error. */
  ghost predicate IsVisit(
      read: (nat, Bytes) -> Result<(Pair, nat), Error>, end: nat, previousKey: Bytes, visited: Visited,
      offsets: seq<nat>) {
    && |offsets| == |visited.pairs| + 1
    && (forall i {:trigger ReadAt(read, end, previousKey, visited.pairs, offsets, i)} ::
          0 <= i < |visited.pairs| ==> ReadAt(read, end, previousKey, visited.pairs, offsets, i))
    && EndsAt(read, end, previousKey, visited, offsets[|visited.pairs|])
  }

  /** A block is visited entry after entry up to the first that is in error, which ends it. */
  lemma {:induction false} VisitEndsAtError(
      read: (nat, Bytes) -> Result<(Pair, nat), Error>, off: nat, end: nat, previousKey: Bytes)
    returns (offsets: seq<nat>)
    requires Advancing(read)
    ensures IsVisit(read, end, previousKey, Walk(read, off, end, previousKey), offsets) && offsets[0] == off
    decreases end - off
  {
    offsets := [off];
    if off < end && read(off, previousKey).Ok? {
      var (pair, next) := read(off, previousKey).value;
      var rest := VisitEndsAtError(read, next, end, pair.key);
      VisitPush(read, off, end, previousKey, pair, Walk(read, next, end, pair.key), rest);
      offsets := [off] + rest;
    }
  }

  lemma {:induction false} KeyBeforePush(pair: Pair, pairs: seq<Pair>, previousKey: Bytes, i: nat)
    requires i <= |pairs|
    ensures KeyBefore([pair] + pairs, previousKey, i + 1) == KeyBefore(pairs, pair.key, i)
  {
  }

  lemma {:induction false} VisitPush(
      read: (nat, Bytes) -> Result<(Pair, nat), Error>, off: nat, end: nat, previousKey: Bytes,
      pair: Pair, later: Visited, offsets: seq<nat>)
    requires IsVisit(read, end, pair.key, later, offsets) && off < end
    requires read(off, previousKey) == Ok((pair, offsets[0]))
    ensures IsVisit(read, end, previousKey, After([pair], later), [off] + offsets)
  {
    var visited, all := After([pair], later), [off] + offsets;
    forall i | 0 <= i < |visited.pairs| ensures ReadAt(read, end, previousKey, visited.pairs, all, i) {
      if i > 0 {
        KeyBeforePush(pair, later.pairs, previousKey, i - 1);
        assert ReadAt(read, end, pair.key, later.pairs, offsets, i - 1);
      }
    }
    KeyBeforePush(pair, later.pairs, previousKey, |later.pairs|);
  }

  /** Bytes from `end` on, such as the restart array, are never used as entry data. */
  lemma {:induction false} RestartBytesUnused(a: Bytes, b: Bytes, off: nat, end: nat, previousKey: Bytes)
    requires end <= |a| && end <= |b| && forall k :: 0 <= k < end ==> a[k] == b[k]
    ensures Walk(EntryReader(a, end), off, end, previousKey).pairs
        == Walk(EntryReader(b, end), off, end, previousKey).pairs
    ensures Walk(EntryReader(a, end), off, end, previousKey).error.Some?
        == Walk(EntryReader(b, end), off, end, previousKey).error.Some?
    decreases end - off
  {
    if off < end {
      SameEntry(a, b, off, end, previousKey);
      SameEntry(b, a, off, end, previousKey);
      var e := EntryAt(a, end, off, previousKey);
      if e.Ok? {
        RestartBytesUnused(a, b, e.value.1, end, e.value.0.key);
      }
    }
  }

  lemma {:induction false} SameEntry(a: Bytes, b: Bytes, off: nat, end: nat, previousKey: Bytes)
    requires end <= |a| && end <= |b| && forall k :: 0 <= k < end ==> a[k] == b[k]
    ensures EntryAt(a, end, off, previousKey).Ok? ==>
        EntryAt(b, end, off, previousKey) == EntryAt(a, end, off, previousKey)
  {
    var numbers := Numbers(a, off, 3);
    if EntryAt(a, end, off, previousKey).Ok? {
      SameNumbers(a, b, off, end, 3);
      var (ns, start) := numbers.value;
      assert a[start..start + ns[1]] == b[start..start + ns[1]];
      assert a[start + ns[1]..start + ns[1] + ns[2]] == b[start + ns[1]..start + ns[1] + ns[2]];
    }
  }

  // ---------------------------------------------------------------- tables

  /** The block at a handle: raw, or Snappy-compressed, as the byte after it says. */
  function BlockAt(file: Bytes, offset: nat, size: nat): Result<Bytes, Error> {
    if offset + size + TRAILER_BYTES > |file| then Err(BadHandle)
    else if file[offset + size] == 0 then Ok(file[offset..offset + size])
    else if file[offset + size] == 1 then
      match Snappy.Decode(file[offset..offset + size])
      case Err(_) => Err(BadSnappy)
      case Ok(b) => Ok(b)
    else Err(UnsupportedCompression)
  }

  method ReadBlock(file: Bytes, offset: nat, size: nat) returns (r: Result<Bytes, Error>)
    ensures r == BlockAt(file, offset, size)
  {
    var trailerOffset := offset + size;
    if trailerOffset + TRAILER_BYTES > |file| {
      return Err(BadHandle);
    }
    var block := file[offset..trailerOffset];
    match file[trailerOffset] {
      case 0 =>
        return Ok(block);
      case 1 =>
        var decoded := Snappy.DecodeSnappy(block);
        if decoded.Err? {
          return Err(BadSnappy);
        }
        return Ok(decoded.value);
      case _ =>
        return Err(UnsupportedCompression);
    }
  }

  /** The block an index entry's handle points at. */
  function BlockOf(file: Bytes, handle: Bytes): Result<Bytes, Error> {
    match Numbers(handle, 0, 2)
    case None => Err(BadVarint)
    case Some((ns, _)) => BlockAt(file, ns[0], ns[1])
  }

  function BlockReader(file: Bytes): Bytes -> Result<Bytes, Error> {
    (handle: Bytes) => BlockOf(file, handle)
  }

  function Pushed(blocks: seq<Bytes>, rest: Result<seq<Bytes>, Error>): Result<seq<Bytes>, Error> {
    if rest.Ok? then Ok(blocks + rest.value) else rest
  }

  lemma {:induction false} PushedNone(rest: Result<seq<Bytes>, Error>)
    ensures Pushed([], rest) == rest
  {
    if rest.Ok? {
      assert [] + rest.value == rest.value;
    }
  }

  lemma {:induction false} PushedTwice(a: seq<Bytes>, b: seq<Bytes>, rest: Result<seq<Bytes>, Error>)
    ensures Pushed(a, Pushed(b, rest)) == Pushed(a + b, rest)
  {
    if rest.Ok? {
      assert a + (b + rest.value) == (a + b) + rest.value;
    }
  }

  /** The blocks the index entries from `k` on lead to, up to the first that cannot be read. */
  function Gather(read: Bytes -> Result<Bytes, Error>, index: Visited, k: nat): Result<seq<Bytes>, Error>
    requires k <= |index.pairs|
    decreases |index.pairs| - k
  {
    if k == |index.pairs| then (if index.error.Some? then Err(index.error.value) else Ok([]))
    else match read(index.pairs[k].value)
      case Err(e) => Err(e)
      case Ok(block) => Pushed([block], Gather(read, index, k + 1))
  }

  /** The footer holds the metaindex handle, then the index handle. */
  function DataBlocks(file: Bytes): Result<seq<Bytes>, Error> {
    if |file| < FOOTER_BYTES then Ok([])
    else match Numbers(file[|file| - FOOTER_BYTES..], 0, 4)
      case None => Err(BadVarint)
      case Some((ns, _)) =>
        match BlockAt(file, ns[2], ns[3])
        case Err(e) => Err(e)
        case Ok(index) => Gather(BlockReader(file), Visit(index), 0)
  }

  /** Collect the data blocks of a table through its footer and index. */
  method ReadDataBlocks(file: Bytes) returns (r: Result<seq<Bytes>, Error>)
    ensures r == DataBlocks(file)
  {
    if |file| < FOOTER_BYTES {
      return Ok([]);
    }
    var handles := ReadNumbers(file[|file| - FOOTER_BYTES..], 0, 4);
    if handles.None? {
      return Err(BadVarint);
    }
    var ns := handles.value.0;
    var indexBlock := ReadBlock(file, ns[2], ns[3]);
    if indexBlock.Err? {
      return Err(indexBlock.error);
    }
    var index := ForEachEntry(indexBlock.value);
    r := FollowIndex(file, index);
  }

  method FollowIndex(file: Bytes, index: Visited) returns (r: Result<seq<Bytes>, Error>)
    ensures r == Gather(BlockReader(file), index, 0)
  {
    var blocks: seq<Bytes> := [];
    PushedNone(Gather(BlockReader(file), index, 0));
    for k := 0 to |index.pairs|
      invariant Gather(BlockReader(file), index, 0) == Pushed(blocks, Gather(BlockReader(file), index, k))
    {
      var block := FollowHandle(file, index.pairs[k].value);
      if block.Err? {
        return Err(block.error);
      }
      PushedTwice(blocks, [block.value], Gather(BlockReader(file), index, k + 1));
      blocks := blocks + [block.value];
    }
    assert blocks + [] == blocks;
    r := if index.error.Some? then Err(index.error.value) else Ok(blocks);
  }

  method FollowHandle(file: Bytes, handle: Bytes) returns (r: Result<Bytes, Error>)
    ensures r == BlockReader(file)(handle)
  {
    var fields := ReadNumbers(handle, 0, 2);
    if fields.None? {
      return Err(BadVarint);
    }
    r := ReadBlock(file, fields.value.0[0], fields.value.0[1]);
  }

  // ---------------------------------------------------------------- writing a table

  /** A block as a writer stored it, with what it stands for. */
  datatype Stored = Stored(bytes: Bytes, compressed: bool, contents: Bytes)

  ghost predicate Compresses(bytes: Bytes, contents: Bytes, es: seq<Snappy.Element>) {
    Snappy.Valid([], es) && bytes == Snappy.Compress(es) && contents == Snappy.Meaning([], es)
  }

  /** Either the block itself, or some Snappy compression of it within the size cap. */
  ghost predicate Storable(st: Stored) {
    if st.compressed then |st.contents| <= 16 * 1024 * 1024 && exists es :: Compresses(st.bytes, st.contents, es)
    else st.bytes == st.contents
  }

  /** `st` stands at `offset`, with its trailer. */
  ghost predicate StoredAt(file: Bytes, offset: nat, st: Stored) {
    && Storable(st) && Has(file, offset, st.bytes)
    && offset + |st.bytes| + 5 <= |file|
    && file[offset + |st.bytes|] == (if st.compressed then 1 else 0)
  }

  lemma {:induction false} CompressedIsRead(st: Stored)
    requires Storable(st) && st.compressed
    ensures Snappy.Decode(st.bytes) == Ok(st.contents)
  {
    var es :| Compresses(st.bytes, st.contents, es);
    Snappy.DecodeInvertsCompress(es);
  }

  lemma {:induction false} StoredIsRead(file: Bytes, offset: nat, st: Stored)
    requires StoredAt(file, offset, st)
    ensures BlockAt(file, offset, |st.bytes|) == Ok(st.contents)
  {
    HasSlice(file, offset, st.bytes);
    if st.compressed {
      CompressedIsRead(st);
    }
  }

  /** A data block stands at `offset`, and its index entry holds its handle. */
  ghost predicate IndexedAt(file: Bytes, st: Stored, offset: nat, handle: Bytes) {
    && StoredAt(file, offset, st) && Encodable(offset) && Encodable(|st.bytes|)
    && Has(handle, 0, EncodeNumbers([offset, |st.bytes|]))
  }

  lemma {:induction false} IndexedIsRead(file: Bytes, st: Stored, offset: nat, handle: Bytes)
    requires IndexedAt(file, st, offset, handle)
    ensures BlockOf(file, handle) == Ok(st.contents)
  {
    NumbersInvert(handle, 0, [offset, |st.bytes|]);
    StoredIsRead(file, offset, st);
  }

  /** What the index block of a table says: its entries, in any legal prefix-compressed form. */
  datatype Index = Index(pairs: seq<Pair>, shared: seq<nat>, restarts: seq<nat>)

  ghost predicate IsIndex(block: Bytes, index: Index) {
    && Legal(index.pairs, index.shared) && |index.restarts| < Pow256(4)
    && (forall i :: 0 <= i < |index.restarts| ==> index.restarts[i] < Pow256(4))
    && block == EncodeBlock(index.pairs, index.shared, index.restarts)
  }

  ghost predicate Indexed(file: Bytes, blocks: seq<Stored>, offsets: seq<nat>, index: seq<Pair>) {
    && |blocks| == |offsets| == |index|
    && forall i {:trigger blocks[i]} :: 0 <= i < |blocks| ==> IndexedAt(file, blocks[i], offsets[i], index[i].value)
  }

  /** The footer leads to the index block. */
  ghost predicate HasFooter(file: Bytes, metaOffset: nat, metaSize: nat, indexOffset: nat, stored: Stored) {
    && |file| >= 48 && StoredAt(file, indexOffset, stored)
    && Encodable(metaOffset) && Encodable(metaSize) && Encodable(indexOffset) && Encodable(|stored.bytes|)
    && Has(file[|file| - 48..], 0, EncodeNumbers([metaOffset, metaSize, indexOffset, |stored.bytes|]))
  }

  function ContentsFrom(blocks: seq<Stored>, k: nat): seq<Bytes>
    requires k <= |blocks|
    decreases |blocks| - k
  {
    if k == |blocks| then [] else [blocks[k].contents] + ContentsFrom(blocks, k + 1)
  }

  lemma {:induction false} GatherAll(read: Bytes -> Result<Bytes, Error>, index: Visited, blocks: seq<Stored>, k: nat)
    requires index.error.None? && |index.pairs| == |blocks| && k <= |blocks|
    requires forall i :: 0 <= i < |blocks| ==> read(index.pairs[i].value) == Ok(blocks[i].contents)
    ensures Gather(read, index, k) == Ok(ContentsFrom(blocks, k))
    decreases |blocks| - k
  {
    if k < |blocks| {
      GatherAll(read, index, blocks, k + 1);
    }
  }

  /** Going through footer and index recovers every data block of a table, in index order. */
  lemma {:induction false} TableIsRead(file: Bytes, blocks: seq<Stored>, offsets: seq<nat>, index: Index,
                                          stored: Stored, indexOffset: nat,
                    metaOffset: nat, metaSize: nat)
    requires HasFooter(file, metaOffset, metaSize, indexOffset, stored)
    requires IsIndex(stored.contents, index) && Indexed(file, blocks, offsets, index.pairs)
    ensures DataBlocks(file) == Ok(ContentsFrom(blocks, 0))
  {
    NumbersInvert(file[|file| - 48..], 0, [metaOffset, metaSize, indexOffset, |stored.bytes|]);
    StoredIsRead(file, indexOffset, stored);
    VisitInvertsEncode(index.pairs, index.shared, index.restarts);
    IndexedAreRead(file, blocks, offsets, Visited(index.pairs, None));
  }

  lemma {:induction false} IndexedAreRead(file: Bytes, blocks: seq<Stored>, offsets: seq<nat>, index: Visited)
    requires Indexed(file, blocks, offsets, index.pairs) && index.error.None?
    ensures Gather(BlockReader(file), index, 0) == Ok(ContentsFrom(blocks, 0))
  {
    forall i | 0 <= i < |blocks| ensures BlockReader(file)(index.pairs[i].value) == Ok(blocks[i].contents) {
      IndexedIsRead(file, blocks[i], offsets[i], index.pairs[i].value);
    }
    GatherAll(BlockReader(file), index, blocks, 0);
  }
}
