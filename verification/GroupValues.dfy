/**
 Merging the entries of many tables into the newest value per key
 (extensions/anthropic/claude-desktop-groups.ts, collectLevelDbValues). Whether a payload
 carries group records is a parameter.
 */
module GroupValues {
  import opened Prelude
  import opened Binary
  import LevelDb

  const VALUE_KIND: Byte := 1

  /** One stored version of a user key. */
  datatype Version = Version(userKey: Bytes, sequence: nat, payload: Bytes)

  datatype Kept = Kept(sequence: nat, payload: Bytes)

  /** An internal key is the user key, a kind byte, and a 56-bit little-endian sequence. */
  function VersionOf(live: Bytes -> bool, pair: LevelDb.Pair): Version
    requires |pair.key| >= 8
  {
    var n := |pair.key| - 8;
    Version(pair.key[..n], ReadLE(pair.key, n + 1, 7),
            if pair.key[n] == VALUE_KIND && live(pair.value) then pair.value else [])
  }

  /** Keep the version with the larger sequence; the first of equals stays. */
  function Keep(values: map<Bytes, Kept>, v: Version): map<Bytes, Kept> {
    if v.userKey in values && v.sequence <= values[v.userKey].sequence then values
    else values[v.userKey := Kept(v.sequence, v.payload)]
  }

  function KeepAll(values: map<Bytes, Kept>, vs: seq<Version>): map<Bytes, Kept>
    decreases |vs|
  {
    if vs == [] then values else KeepAll(Keep(values, vs[0]), vs[1..])
  }

  lemma {:induction false} KeepAllConcat(values: map<Bytes, Kept>, a: seq<Version>, b: seq<Version>)
    ensures KeepAll(values, a + b) == KeepAll(KeepAll(values, a), b)
    decreases |a|
  {
    if a == [] {
      assert a + b == b;
    } else {
      assert (a + b)[1..] == a[1..] + b;
      KeepAllConcat(Keep(values, a[0]), a[1..], b);
    }
  }

  lemma {:induction false} KeepAllStep(values: map<Bytes, Kept>, v: Version, rest: seq<Version>)
    ensures KeepAll(values, [v] + rest) == KeepAll(Keep(values, v), rest)
  {
    assert ([v] + rest)[1..] == rest;
  }

  // ---------------------------------------------------------------- newest wins

  /** `m` holds, for every key of `vs`, a version whose sequence is the largest, and nothing else. */
  ghost predicate IsNewest(m: map<Bytes, Kept>, vs: seq<Version>) {
    && (forall key :: key in m ==> Version(key, m[key].sequence, m[key].payload) in vs)
    && (forall v :: v in vs ==> v.userKey in m && v.sequence <= m[v.userKey].sequence)
  }

  lemma {:induction false} KeepAllIsNewest(vs: seq<Version>)
    ensures IsNewest(KeepAll(map[], vs), vs)
    decreases |vs|
  {
    if vs != [] {
      var older, last := vs[..|vs| - 1], vs[|vs| - 1];
      assert vs == older + [last];
      KeepAllConcat(map[], older, [last]);
      KeepAllIsNewest(older);
      assert KeepAll(KeepAll(map[], older), [last]) == Keep(KeepAll(map[], older), last) by {
        assert [last][1..] == [];
      }
      KeepNewest(KeepAll(map[], older), older, last);
    }
  }

  lemma {:induction false} KeepNewest(m: map<Bytes, Kept>, older: seq<Version>, last: Version)
    requires IsNewest(m, older)
    ensures IsNewest(Keep(m, last), older + [last])
  {
    var vs := older + [last];
    assert vs[|vs| - 1] == last;
    forall v | v in older ensures v in vs {}
  }

  /** Versions of one key that carry one sequence are one version. */
  ghost predicate Consistent(vs: seq<Version>) {
    forall v, w :: v in vs && w in vs && v.userKey == w.userKey && v.sequence == w.sequence ==> v == w
  }

  /** With consistent sequences the outcome does not depend on the order of blocks and files. */
  lemma {:induction false} NewestIsOrderIndependent(vs: seq<Version>, ws: seq<Version>)
    requires Consistent(vs) && forall v :: v in vs <==> v in ws
    ensures KeepAll(map[], vs) == KeepAll(map[], ws)
  {
    KeepAllIsNewest(vs);
    KeepAllIsNewest(ws);
    var m, n := KeepAll(map[], vs), KeepAll(map[], ws);
    forall key | key in m ensures key in n && m[key] == n[key] {
      var v := Version(key, m[key].sequence, m[key].payload);
      assert v in ws;
      var w := Version(key, n[key].sequence, n[key].payload);
      assert w in vs;
    }
    forall key | key in n ensures key in m {
      assert Version(key, n[key].sequence, n[key].payload) in ws;
    }
    assert m.Keys == n.Keys;
  }

  /** The version with the largest sequence of its key is the one kept. */
  lemma {:induction false} LargestIsKept(vs: seq<Version>, i: nat)
    requires Consistent(vs) && i < |vs|
    requires forall k :: 0 <= k < |vs| && vs[k].userKey == vs[i].userKey ==> vs[k].sequence <= vs[i].sequence
    ensures vs[i].userKey in KeepAll(map[], vs)
    ensures KeepAll(map[], vs)[vs[i].userKey] == Kept(vs[i].sequence, vs[i].payload)
  {
    KeepAllIsNewest(vs);
    var m, key := KeepAll(map[], vs), vs[i].userKey;
    assert vs[i] in vs;
    var w := Version(key, m[key].sequence, m[key].payload);
    var k :| 0 <= k < |vs| && vs[k] == w;
    assert w == vs[i];
  }

  /** A newest version that is a deletion, or carries no group records, masks every older value. */
  lemma {:induction false} DeletionMasks(live: Bytes -> bool, pair: LevelDb.Pair, vs: seq<Version>, i: nat)
    requires Consistent(vs) && i < |vs| && |pair.key| >= 8 && vs[i] == VersionOf(live, pair)
    requires forall k :: 0 <= k < |vs| && vs[k].userKey == vs[i].userKey ==> vs[k].sequence <= vs[i].sequence
    requires pair.key[|pair.key| - 8] != 1 || !live(pair.value)
    ensures vs[i].userKey in KeepAll(map[], vs) && KeepAll(map[], vs)[vs[i].userKey].payload == []
  {
    LargestIsKept(vs, i);
  }

  // ---------------------------------------------------------------- the collector

  /** The versions from entry `i` on, before the first key too short to be an internal key. */
  function Versions(live: Bytes -> bool, pairs: seq<LevelDb.Pair>, i: nat): seq<Version>
    requires i <= |pairs|
    decreases |pairs| - i
  {
    if i == |pairs| || |pairs[i].key| < 8 then [] else [VersionOf(live, pairs[i])] + Versions(live, pairs, i + 1)
  }

  /** The versions one block contributes, and whether it was read to its end. */
  ghost function BlockVersions(live: Bytes -> bool, block: Bytes): (seq<Version>, bool) {
    var visited := LevelDb.Visit(block);
    (Versions(live, visited.pairs, 0),
     (forall i :: 0 <= i < |visited.pairs| ==> |visited.pairs[i].key| >= 8) && visited.error.None?)
  }

  /** Take an internal key apart. */
  method ReadVersion(live: Bytes -> bool, pair: LevelDb.Pair) returns (v: Version)
    requires |pair.key| >= 8
    ensures v == VersionOf(live, pair)
  {
    var key := pair.key;
    var kind := key[|key| - 8];
    var sequence: nat := 0;
    for index := 0 to 7
      invariant sequence == ReadLE(key, |key| - 7, index)
    {
      sequence := sequence + key[|key| - 7 + index] * Pow256(index);
    }
    v := Version(key[..|key| - 8], sequence, if kind == VALUE_KIND && live(pair.value) then pair.value else []);
  }

  method CollectValues(
      live: Bytes -> bool, block: Bytes, values0: map<Bytes, Kept>) returns (values: map<Bytes, Kept>, ok: bool)
    ensures values == KeepAll(values0, BlockVersions(live, block).0)
    ensures ok == BlockVersions(live, block).1
  {
    var visited := LevelDb.ForEachEntry(block);
    values, ok := CollectPairs(live, visited.pairs, values0);
    ok := ok && visited.error.None?;
  }

  lemma {:induction false} CollectStep(live: Bytes -> bool, pairs: seq<LevelDb.Pair>, i: nat, values: map<Bytes, Kept>)
    requires i < |pairs| && |pairs[i].key| >= 8
    ensures KeepAll(values, Versions(live, pairs, i))
        == KeepAll(Keep(values, VersionOf(live, pairs[i])), Versions(live, pairs, i + 1))
  {
    KeepAllStep(values, VersionOf(live, pairs[i]), Versions(live, pairs, i + 1));
  }

  method KeepOne(values0: map<Bytes, Kept>, v: Version) returns (values: map<Bytes, Kept>)
    ensures values == Keep(values0, v)
  {
    values := values0;
    if !(v.userKey in values && v.sequence <= values[v.userKey].sequence) {
      values := values[v.userKey := Kept(v.sequence, v.payload)];
    }
  }

  method CollectPairs(
      live: Bytes -> bool, pairs: seq<LevelDb.Pair>, values0: map<Bytes, Kept>)
    returns (values: map<Bytes, Kept>, ok: bool)
    ensures values == KeepAll(values0, Versions(live, pairs, 0))
    ensures ok == forall i :: 0 <= i < |pairs| ==> |pairs[i].key| >= 8
  {
    values := values0;
    ghost var all := KeepAll(values0, Versions(live, pairs, 0));
    for i := 0 to |pairs|
      invariant KeepAll(values, Versions(live, pairs, i)) == all
      invariant forall j :: 0 <= j < i ==> |pairs[j].key| >= 8
    {
      if |pairs[i].key| < 8 {
        return values, false;
      }
      var v := ReadVersion(live, pairs[i]);
      CollectStep(live, pairs, i, values);
      values := KeepOne(values, v);
    }
    ok := true;
  }

  /** The versions of a table's blocks up to the first that fails. */
  ghost function TableVersions(live: Bytes -> bool, blocks: seq<Bytes>): seq<Version>
    decreases |blocks|
  {
    if blocks == [] then []
    else
      var (vs, ok) := BlockVersions(live, blocks[0]);
      if ok then vs + TableVersions(live, blocks[1..]) else vs
  }

  ghost function FileVersions(live: Bytes -> bool, file: Bytes): seq<Version> {
    match LevelDb.DataBlocks(file)
    case Err(_) => []
    case Ok(blocks) => TableVersions(live, blocks)
  }

  /** What the files contribute, one after the other. */
  ghost function Gathered(versions: Bytes -> seq<Version>, files: seq<Bytes>): seq<Version>
    decreases |files|
  {
    if files == [] then [] else versions(files[0]) + Gathered(versions, files[1..])
  }

  ghost function AllVersions(live: Bytes -> bool, files: seq<Bytes>): seq<Version> {
    Gathered(file => FileVersions(live, file), files)
  }

  method CollectTable(live: Bytes -> bool, file: Bytes, values0: map<Bytes, Kept>) returns (values: map<Bytes, Kept>)
    ensures values == KeepAll(values0, FileVersions(live, file))
  {
    values := values0;
    var table := LevelDb.ReadDataBlocks(file);
    if table.Err? {
      return;
    }
    var blocks := table.value;
    assert blocks[0..] == blocks;
    for i := 0 to |blocks|
      invariant KeepAll(values0, TableVersions(live, blocks)) == KeepAll(values, TableVersions(live, blocks[i..]))
    {
      assert blocks[i..][0] == blocks[i] && blocks[i..][1..] == blocks[i + 1..];
      var ok;
      ghost var before := values;
      values, ok := CollectValues(live, blocks[i], values);
      if !ok {
        return;
      }
      KeepAllConcat(before, BlockVersions(live, blocks[i]).0, TableVersions(live, blocks[i + 1..]));
    }
  }

  /** Collect every table: a file that cannot be read to its end contributes what came before. */
  method CollectTables(live: Bytes -> bool, files: seq<Bytes>) returns (values: map<Bytes, Kept>)
    ensures values == KeepAll(map[], AllVersions(live, files))
    ensures IsNewest(values, AllVersions(live, files))
  {
    values := map[];
    assert files[0..] == files;
    for i := 0 to |files|
      invariant KeepAll(map[], AllVersions(live, files)) == KeepAll(values, AllVersions(live, files[i..]))
    {
      assert files[i..][0] == files[i] && files[i..][1..] == files[i + 1..];
      KeepAllConcat(values, FileVersions(live, files[i]), AllVersions(live, files[i + 1..]));
      values := CollectTable(live, files[i], values);
    }
    KeepAllIsNewest(AllVersions(live, files));
  }

  /** Reading the same tables in another order gives the same values. */
  lemma {:induction false} FileOrderDoesNotMatter(live: Bytes -> bool, files: seq<Bytes>, other: seq<Bytes>)
    requires Consistent(AllVersions(live, files)) && forall f :: f in files <==> f in other
    ensures KeepAll(map[], AllVersions(live, files)) == KeepAll(map[], AllVersions(live, other))
  {
    var versions := file => FileVersions(live, file);
    forall v ensures v in Gathered(versions, files) <==> v in Gathered(versions, other) {
      VersionOfSomeFile(versions, files, v);
      VersionOfSomeFile(versions, other, v);
    }
    NewestIsOrderIndependent(AllVersions(live, files), AllVersions(live, other));
  }

  lemma {:induction false} VersionOfSomeFile(versions: Bytes -> seq<Version>, files: seq<Bytes>, v: Version)
    ensures v in Gathered(versions, files) <==> exists f :: f in files && v in versions(f)
    decreases |files|
  {
    if files != [] {
      VersionOfSomeFile(versions, files[1..], v);
      assert files == [files[0]] + files[1..];
    }
  }

  // ---------------------------------------------------------------- what a damaged table contributes

  /** Entry `k` ends the block: its key is too short, or it could not be read. */
  ghost predicate EndsAt(visited: LevelDb.Visited, k: nat) {
    && k <= |visited.pairs| && (forall j :: 0 <= j < k ==> |visited.pairs[j].key| >= 8)
    && if k < |visited.pairs| then |visited.pairs[k].key| < 8 else visited.error.Some?
  }

  lemma {:induction false} VersionsBefore(live: Bytes -> bool, pairs: seq<LevelDb.Pair>, i: nat, k: nat, v: Version)
    requires i <= k <= |pairs| && (forall j :: 0 <= j < k ==> |pairs[j].key| >= 8)
    requires k < |pairs| ==> |pairs[k].key| < 8
    ensures v in Versions(live, pairs, i) <==> exists j :: i <= j < k && v == VersionOf(live, pairs[j])
    decreases k - i
  {
    if i < k {
      VersionsBefore(live, pairs, i + 1, k, v);
    }
  }

  /** `table` gathers what the blocks contribute, up to the first that fails. */
  ghost predicate Gathers(table: seq<Bytes> -> seq<Version>, block: Bytes -> (seq<Version>, bool)) {
    forall blocks: seq<Bytes> {:trigger table(blocks)} :: blocks != [] ==>
        table(blocks) == block(blocks[0]).0 + if block(blocks[0]).1 then table(blocks[1..]) else []
  }

  lemma {:induction false} FailingBlockIsLast(
      table: seq<Bytes> -> seq<Version>, block: Bytes -> (seq<Version>, bool), blocks: seq<Bytes>, b: nat, v: Version)
    requires Gathers(table, block) && b < |blocks| && !block(blocks[b]).1
    requires forall i :: 0 <= i < b ==> block(blocks[i]).1
    ensures v in table(blocks) <==> exists i :: 0 <= i <= b && v in block(blocks[i]).0
    decreases b
  {
    if b > 0 {
      var rest := blocks[1..];
      FailingBlockIsLast(table, block, rest, b - 1, v);
      if i :| 0 <= i <= b && v in block(blocks[i]).0 {
        assert i > 0 ==> rest[i - 1] == blocks[i];
      }
      if i :| 0 <= i <= b - 1 && v in block(rest[i]).0 {
        assert blocks[i + 1] == rest[i];
      }
    }
  }

  lemma {:induction false} TableGathers(live: Bytes -> bool)
    ensures Gathers(blocks => TableVersions(live, blocks), block => BlockVersions(live, block))
  {
    forall blocks: seq<Bytes> | blocks != []
      ensures TableVersions(live, blocks) ==
              BlockVersions(live, blocks[0]).0
              + if BlockVersions(live, blocks[0]).1 then TableVersions(live, blocks[1..]) else []
    {
    }
  }

  /** A failing block ends its table: what came before it counts, in that block too, and nothing after it. */
  lemma {:induction false} FailureKeepsWhatCameBefore(
      live: Bytes -> bool, blocks: seq<Bytes>, b: nat, k: nat, v: Version)
    requires b < |blocks| && EndsAt(LevelDb.Visit(blocks[b]), k)
    requires forall i :: 0 <= i < b ==> BlockVersions(live, blocks[i]).1
    ensures v in TableVersions(live, blocks) <==>
        || (exists i :: 0 <= i < b && v in BlockVersions(live, blocks[i]).0)
        || (exists j :: 0 <= j < k && v == VersionOf(live, LevelDb.Visit(blocks[b]).pairs[j]))
  {
    TableGathers(live);
    FailingBlockIsLast(bs => TableVersions(live, bs), block => BlockVersions(live, block), blocks, b, v);
    VersionsBefore(live, LevelDb.Visit(blocks[b]).pairs, 0, k, v);
  }

  // ---------------------------------------------------------------- what a writer stored

  /** One entry as a writer stores it: kind 1 is a value, anything else a deletion. */
  datatype Written = Written(userKey: Bytes, kind: Byte, sequence: nat, value: Bytes)

  /** LevelDB's internal key: the user key, the kind, and the sequence in seven bytes, least significant first. */
  function InternalKey(w: Written): Bytes
    requires w.sequence < Pow256(7)
  {
    w.userKey + [w.kind] + LE(w.sequence, 7)
  }

  function PayloadOf(live: Bytes -> bool, w: Written): Bytes {
    if w.kind == 1 && live(w.value) then w.value else []
  }

  /** Taking an internal key apart undoes putting it together. */
  lemma {:induction false} VersionInverts(live: Bytes -> bool, w: Written)
    requires w.sequence < Pow256(7)
    ensures |InternalKey(w)| >= 8
    ensures VersionOf(live, LevelDb.Pair(InternalKey(w), w.value)) == Version(w.userKey, w.sequence, PayloadOf(live, w))
  {
    var key, n := InternalKey(w), |w.userKey|;
    assert key[..n] == w.userKey && key[n] == w.kind;
    assert forall i :: 0 <= i < 7 ==> ByteAt(key, n + 1 + i) == LE(w.sequence, 7)[i];
    ReadLEInverts(key, n + 1, w.sequence, 7);
  }

  /** The pairs of a block are the entries written to it. */
  ghost predicate Stores(pairs: seq<LevelDb.Pair>, entries: seq<Written>) {
    && |pairs| == |entries|
    && forall i {:trigger entries[i]} :: 0 <= i < |entries| ==>
         entries[i].sequence < Pow256(7) && pairs[i] == LevelDb.Pair(InternalKey(entries[i]), entries[i].value)
  }

  /** A block of these entries, with any legal sharing of prefixes. */
  ghost predicate IsDataBlock(contents: Bytes, entries: seq<Written>) {
    exists index: LevelDb.Index :: LevelDb.IsIndex(contents, index) && Stores(index.pairs, entries)
  }

  /** Where the parts of a table stand. */
  datatype Layout = Layout(blocks: seq<LevelDb.Stored>, offsets: seq<nat>, index: LevelDb.Index, stored: LevelDb.Stored,
                           indexOffset: nat, metaOffset: nat, metaSize: nat)

  ghost predicate IsLaidOut(file: Bytes, layout: Layout, entries: seq<seq<Written>>) {
    && LevelDb.HasFooter(file, layout.metaOffset, layout.metaSize, layout.indexOffset, layout.stored)
    && LevelDb.IsIndex(layout.stored.contents, layout.index)
    && LevelDb.Indexed(file, layout.blocks, layout.offsets, layout.index.pairs)
    && |layout.blocks| == |entries|
    && forall i {:trigger entries[i]} :: 0 <= i < |entries| ==> IsDataBlock(layout.blocks[i].contents, entries[i])
  }

  /** A well-formed table of these entries, block by block. */
  ghost predicate IsTable(file: Bytes, entries: seq<seq<Written>>) {
    exists layout :: IsLaidOut(file, layout, entries)
  }

  function VersionWritten(live: Bytes -> bool, w: Written): Version {
    Version(w.userKey, w.sequence, PayloadOf(live, w))
  }

  lemma {:induction false} StoredVersions(
      live: Bytes -> bool, pairs: seq<LevelDb.Pair>, entries: seq<Written>, i: nat, v: Version)
    requires Stores(pairs, entries) && i <= |pairs|
    ensures |pairs| > i ==> |pairs[i].key| >= 8
    ensures v in Versions(live, pairs, i) <==> exists k :: i <= k < |entries| && v == VersionWritten(live, entries[k])
    decreases |pairs| - i
  {
    if i < |pairs| {
      VersionInverts(live, entries[i]);
      StoredVersions(live, pairs, entries, i + 1, v);
    }
  }

  lemma {:induction false} BlockIsRead(live: Bytes -> bool, contents: Bytes, entries: seq<Written>, v: Version)
    requires IsDataBlock(contents, entries)
    ensures BlockVersions(live, contents).1
    ensures v in BlockVersions(live, contents).0 <==>
        exists k :: 0 <= k < |entries| && v == VersionWritten(live, entries[k])
  {
    var index: LevelDb.Index :| LevelDb.IsIndex(contents, index) && Stores(index.pairs, entries);
    LevelDb.VisitInvertsEncode(index.pairs, index.shared, index.restarts);
    forall i | 0 <= i < |index.pairs| ensures |index.pairs[i].key| >= 8 {
      StoredVersions(live, index.pairs, entries, i, v);
    }
    StoredVersions(live, index.pairs, entries, 0, v);
  }

  /** One of the entries of these blocks is of this version. */
  ghost predicate IsWritten(live: Bytes -> bool, blocks: seq<seq<Written>>, v: Version) {
    exists i, k :: 0 <= i < |blocks| && 0 <= k < |blocks[i]| && v == VersionWritten(live, blocks[i][k])
  }

  lemma {:induction false} BlocksAreRead(
      live: Bytes -> bool, blocks: seq<LevelDb.Stored>, entries: seq<seq<Written>>, n: nat, v: Version)
    requires |blocks| == |entries| && n <= |blocks|
    requires forall i {:trigger entries[i]} :: 0 <= i < |entries| ==> IsDataBlock(blocks[i].contents, entries[i])
    ensures v in TableVersions(live, LevelDb.ContentsFrom(blocks, n)) <==> IsWritten(live, entries[n..], v)
    decreases |blocks| - n
  {
    if n < |blocks| {
      var contents := LevelDb.ContentsFrom(blocks, n);
      assert contents[0] == blocks[n].contents && contents[1..] == LevelDb.ContentsFrom(blocks, n + 1);
      BlockIsRead(live, blocks[n].contents, entries[n], v);
      BlocksAreRead(live, blocks, entries, n + 1, v);
      WrittenSplit(live, entries, n, v);
    }
  }

  lemma {:induction false} WrittenSplit(live: Bytes -> bool, entries: seq<seq<Written>>, n: nat, v: Version)
    requires n < |entries|
    ensures IsWritten(live, entries[n..], v) <==>
        || (exists k :: 0 <= k < |entries[n]| && v == VersionWritten(live, entries[n][k]))
        || IsWritten(live, entries[n + 1..], v)
  {
    var some, rest := entries[n..], entries[n + 1..];
    assert some[0] == entries[n];
    if i, k :| 0 <= i < |some| && 0 <= k < |some[i]| && v == VersionWritten(live, some[i][k]) {
      assert i > 0 ==> some[i] == rest[i - 1];
    }
    if i, k :| 0 <= i < |rest| && 0 <= k < |rest[i]| && v == VersionWritten(live, rest[i][k]) {
      assert some[i + 1] == rest[i];
    }
    if k :| 0 <= k < |entries[n]| && v == VersionWritten(live, entries[n][k]) {
      assert v == VersionWritten(live, some[0][k]);
    }
  }

  lemma {:induction false} TableVersionsAreWritten(
      live: Bytes -> bool, file: Bytes, entries: seq<seq<Written>>, v: Version)
    requires IsTable(file, entries)
    ensures v in FileVersions(live, file) <==> IsWritten(live, entries, v)
  {
    var layout :| IsLaidOut(file, layout, entries);
    LevelDb.TableIsRead(file, layout.blocks, layout.offsets, layout.index, layout.stored, layout.indexOffset,
                        layout.metaOffset, layout.metaSize);
    BlocksAreRead(live, layout.blocks, entries, 0, v);
    assert entries[0..] == entries;
  }

  /** One of the tables holds an entry of this version. */
  ghost predicate IsWrittenIn(live: Bytes -> bool, tables: seq<seq<seq<Written>>>, v: Version) {
    exists t :: 0 <= t < |tables| && IsWritten(live, tables[t], v)
  }

  lemma {:induction false} AllVersionsAreWritten(
      live: Bytes -> bool, files: seq<Bytes>, tables: seq<seq<seq<Written>>>, v: Version)
    requires |files| == |tables|
    requires forall t {:trigger files[t]} :: 0 <= t < |files| ==> IsTable(files[t], tables[t])
    ensures v in AllVersions(live, files) <==> IsWrittenIn(live, tables, v)
  {
    var versions := file => FileVersions(live, file);
    VersionOfSomeFile(versions, files, v);
    if v in AllVersions(live, files) {
      var f :| f in files && v in versions(f);
      var t :| 0 <= t < |files| && files[t] == f;
      TableVersionsAreWritten(live, f, tables[t], v);
    }
    if t :| 0 <= t < |tables| && IsWritten(live, tables[t], v) {
      TableVersionsAreWritten(live, files[t], tables[t], v);
      assert files[t] in files;
    }
  }

  /**
   From well-formed tables the collector gathers exactly the user keys written to them, and for
   each the entry with the largest sequence written: its value if that is live, and nothing if
   it is a deletion.
   */
  lemma {:induction false} NewestWrittenIsCollected(
      live: Bytes -> bool, files: seq<Bytes>, tables: seq<seq<seq<Written>>>)
    requires |files| == |tables|
    requires forall t {:trigger files[t]} :: 0 <= t < |files| ==> IsTable(files[t], tables[t])
    ensures var m := KeepAll(map[], AllVersions(live, files));
            && (forall key :: key in m ==> IsWrittenIn(live, tables, Version(key, m[key].sequence, m[key].payload)))
            && (forall v: Version :: IsWrittenIn(live, tables, v) ==>
                v.userKey in m && v.sequence <= m[v.userKey].sequence)
  {
    var m := KeepAll(map[], AllVersions(live, files));
    KeepAllIsNewest(AllVersions(live, files));
    forall key | key in m ensures IsWrittenIn(live, tables, Version(key, m[key].sequence, m[key].payload)) {
      AllVersionsAreWritten(live, files, tables, Version(key, m[key].sequence, m[key].payload));
    }
    forall v: Version | IsWrittenIn(live, tables, v) ensures v.userKey in m && v.sequence <= m[v.userKey].sequence {
      AllVersionsAreWritten(live, files, tables, v);
    }
  }
}
