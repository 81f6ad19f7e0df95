/**
 What the merge on records means for the configuration values they stand for: for a target
 that is a tree of its own it is the merge on values (extensions/amazon-bedrock/config-compat.ts).

 Records are numbered so that children come before parents and the records of the input
 before those of its clone: below `low` is the input.
 */
module ConfigGraph {
  import opened Prelude
  import opened ConfigMerge
  import opened ConfigStore

  ghost predicate IsRanked(s: Store, id: nat)
    requires id in s
  {
    forall key :: key in s[id] && s[id][key].Rec? ==> s[id][key].id in s && s[id][key].id < id
  }

  ghost predicate Ranked(s: Store) {
    forall id {:trigger IsRanked(s, id)} :: id in s ==> IsRanked(s, id)
  }

  lemma {:induction false} RankedIsWhole(s: Store)
    requires Ranked(s)
    ensures Whole(s)
  {
    forall id | id in s ensures Within(s[id], s.Keys) {
      assert IsRanked(s, id);
    }
  }

  /** The configuration value a record stands for. */
  ghost function JsonOf(s: Store, id: nat): (r: Json)
    requires Ranked(s) && id in s
    ensures r.Object? && r.fields.Keys == s[id].Keys
    decreases id
  {
    assert IsRanked(s, id);
    Object(map key | key in s[id] :: if s[id][key].Text? then Leaf(s[id][key].text) else JsonOf(s, s[id][key].id))
  }

  ghost function ValueOf(s: Store, v: Value): Json
    requires Ranked(s) && (v.Rec? ==> v.id in s)
  {
    if v.Text? then Leaf(v.text) else JsonOf(s, v.id)
  }

  /** Children of the records in `ids` are in there or below `low`. */
  ghost predicate Closed(s: Store, ids: set<nat>, low: nat) {
    forall id {:trigger StaysIn(s, id, ids, low)} :: id in s && id in ids ==> StaysIn(s, id, ids, low)
  }

  ghost predicate StaysIn(s: Store, id: nat, ids: set<nat>, low: nat)
    requires id in s
  {
    forall key :: key in s[id] && s[id][key].Rec? ==> s[id][key].id < low || s[id][key].id in ids
  }

  ghost predicate SameIn(s: Store, s': Store, ids: set<nat>) {
    forall id {:trigger s[id]} {:trigger s'[id]} :: id in s && id in ids ==> id in s' && s'[id] == s[id]
  }

  ghost predicate SameBelow(s: Store, s': Store, low: nat) {
    forall id {:trigger s[id]} {:trigger s'[id]} :: id in s && id < low ==> id in s' && s'[id] == s[id]
  }

  lemma {:induction false} JsonFrame(s: Store, s': Store, ids: set<nat>, low: nat, id: nat)
    requires Ranked(s) && Ranked(s') && Closed(s, ids, low) && SameIn(s, s', ids) && SameBelow(s, s', low)
    requires id in s && (id < low || id in ids)
    ensures id in s' && JsonOf(s', id) == JsonOf(s, id)
    decreases id
  {
    assert s'[id] == s[id] && IsRanked(s, id);
    assert id in ids ==> StaysIn(s, id, ids, low);
    forall key | key in s[id] ensures JsonOf(s', id).fields[key] == JsonOf(s, id).fields[key] {
      if s[id][key].Rec? {
        JsonFrame(s, s', ids, low, s[id][key].id);
      }
    }
  }

  lemma {:induction false} JsonBelow(s: Store, s': Store, low: nat, id: nat)
    requires Ranked(s) && Ranked(s') && SameBelow(s, s', low) && id in s && id < low
    ensures id in s' && JsonOf(s', id) == JsonOf(s, id)
  {
    JsonFrame(s, s', {}, low, id);
  }

  // ---------------------------------------------------------------- the records under a record

  /** The records reached from `id` by any path. */
  ghost function Under(s: Store, id: nat): set<nat> {
    set x | x in s && Reaches(s, {}, id, x)
  }

  lemma {:induction false} UnderSelf(s: Store, id: nat)
    requires id in s
    ensures id in Under(s, id)
  {
    assert Follow(s, {}, id, []) == Some(id);
  }

  lemma {:induction false} ReachesFurther(s: Store, id: nat, x: nat, key: string)
    requires Reaches(s, {}, id, x) && IsChild(s, {}, x, key)
    ensures Reaches(s, {}, id, s[x][key].id)
  {
    var path :| Follow(s, {}, id, path) == Some(x);
    FollowOn(s, id, path, key);
  }

  lemma {:induction false} FollowOn(s: Store, id: nat, path: seq<string>, key: string)
    requires Follow(s, {}, id, path).Some? && IsChild(s, {}, Follow(s, {}, id, path).value, key)
    ensures Follow(s, {}, id, path + [key]) == Some(s[Follow(s, {}, id, path).value][key].id)
    decreases |path|
  {
    if path == [] {
      assert path + [key] == [key] && [key][1..] == [];
    } else {
      assert (path + [key])[0] == path[0] && (path + [key])[1..] == path[1..] + [key];
      FollowOn(s, s[id][path[0]].id, path[1..], key);
    }
  }

  lemma {:induction false} UnderIsClosed(s: Store, id: nat, low: nat)
    requires Whole(s)
    ensures Closed(s, Under(s, id), low)
  {
    var ids := Under(s, id);
    forall x | x in s && x in ids ensures StaysIn(s, x, ids, low) {
      forall key | key in s[x] && s[x][key].Rec? ensures s[x][key].id in ids {
        assert Within(s[x], s.Keys);
        ReachesFurther(s, id, x, key);
      }
    }
  }

  // ---------------------------------------------------------------- the merge loop

  /** Nothing outside `ids` has changed. */
  ghost predicate Framed(s0: Store, s: Store, ids: set<nat>) {
    s.Keys == s0.Keys && forall id {:trigger s[id]} {:trigger s0[id]} :: id in s0 && id !in ids ==> s[id] == s0[id]
  }

  ghost predicate FieldsStay(s0: Store, s: Store, t: nat)
    requires t in s0 && t in s
  {
    forall key :: key in s0[t] ==> key in s[t] && s[t][key] == s0[t][key]
  }

  /** What was filled in is the source's own value, not a copy. */
  ghost predicate FilledByReference(s0: Store, s: Store, t: nat, source: nat)
    requires t in s0 && t in s && source in s0
  {
    forall key :: key in s[t] && key !in s0[t] ==> key in s0[source] && s[t][key] == s0[source][key]
  }

  /** Merging one record into another: a tree, whose records are numbered from `low` on. */
  datatype Job = Job(rules: Rules, s0: Store, low: nat, t: nat, source: nat) {
    ghost predicate Valid() {
      && Ranked(s0) && t in s0 && source in s0 && source < low && !Shared(s0, {}, t)
      && forall id :: id in Under(s0, t) ==> low <= id
    }

    ghost function Own(): set<nat> { Under(s0, t) }

    ghost predicate HasChild(key: string) { IsChild(s0, {}, t, key) }

    ghost function ChildOwn(key: string): set<nat>
      requires HasChild(key)
    {
      Under(s0, s0[t][key].id)
    }

    ghost function Expected(): Json
      requires Valid()
    {
      Merge(rules, JsonOf(s0, t), JsonOf(s0, source))
    }
  }

  ghost predicate Untouched(job: Job, s: Store, key: string)
    requires job.Valid() && job.t in s
  {
    && (key in s[job.t] <==> key in job.s0[job.t])
    && (job.HasChild(key) ==> SameIn(job.s0, s, job.ChildOwn(key)))
  }

  ghost predicate Done(job: Job, s: Store, key: string)
    requires job.Valid() && job.t in s && Ranked(s)
  {
    var m := job.Expected().fields;
    && (key in s[job.t] <==> key in m)
    && (key in m ==> (s[job.t][key].Rec? ==> s[job.t][key].id in s) && ValueOf(s, s[job.t][key]) == m[key])
  }

  ghost predicate ChildClosed(job: Job, s: Store, key: string)
    requires job.Valid()
  {
    job.HasChild(key) ==> Closed(s, job.ChildOwn(key), job.low)
  }

  ghost predicate LoopInv(job: Job, s: Store, todo: seq<string>)
    requires job.Valid()
  {
    && Ranked(s) && Framed(job.s0, s, job.Own()) && FieldsStay(job.s0, s, job.t)
    && (forall key {:trigger Untouched(job, s, key)} :: key in todo ==> Untouched(job, s, key))
    && (forall key {:trigger Done(job, s, key)} :: key !in todo ==> Done(job, s, key))
    && (forall key {:trigger ChildClosed(job, s, key)} :: ChildClosed(job, s, key))
    && FilledByReference(job.s0, s, job.t, job.source) && Closed(s, job.Own(), job.low)
  }

  lemma {:induction false} ChildRange(job: Job, key: string)
    requires job.Valid() && job.HasChild(key)
    ensures var c := job.s0[job.t][key].id;
            && c in job.s0 && c < job.t && c in job.ChildOwn(key) && job.low <= c && job.t in job.Own()
            && job.ChildOwn(key) <= job.Own() && job.t !in job.ChildOwn(key)
            && !Shared(job.s0, {}, c) && Closed(job.s0, job.ChildOwn(key), job.low)
  {
    var s0, c := job.s0, job.s0[job.t][key].id;
    assert IsRanked(s0, job.t);
    RankedIsWhole(s0);
    UnderSelf(s0, c);
    UnderSelf(s0, job.t);
    UnderIsClosed(s0, c, job.low);
    ChildUnshared(s0, {}, job.t, key);
    ChildMissesParent(s0, {}, job.t, key);
    forall x | x in job.ChildOwn(key) ensures x in job.Own() {
      ChildReaches(s0, {}, job.t, key, x);
    }
  }

  lemma {:induction false} RangesApart(job: Job, key: string, k: string)
    requires job.Valid() && job.HasChild(key) && job.HasChild(k) && key != k
    ensures job.ChildOwn(key) !! job.ChildOwn(k)
  {
    forall x | x in job.ChildOwn(key) ensures x !in job.ChildOwn(k) {
      ChildrenApart(job.s0, {}, job.t, key, k, x);
    }
  }

  lemma {:induction false} InputSame(job: Job, s: Store)
    requires job.Valid() && Framed(job.s0, s, job.Own())
    ensures SameBelow(job.s0, s, job.low)
  {
    forall id | id in job.s0 && id < job.low ensures id in s && s[id] == job.s0[id] {
      assert id !in job.Own();
    }
  }

  lemma {:induction false} UntouchedValue(job: Job, s: Store, key: string)
    requires job.Valid() && Ranked(s) && Framed(job.s0, s, job.Own()) && FieldsStay(job.s0, s, job.t)
    requires Untouched(job, s, key) && key in job.s0[job.t]
    ensures s[job.t][key].Rec? ==> s[job.t][key].id in s
    ensures ValueOf(s, s[job.t][key]) == JsonOf(job.s0, job.t).fields[key]
  {
    var v := job.s0[job.t][key];
    if v.Rec? {
      ChildRange(job, key);
      InputSame(job, s);
      JsonFrame(job.s0, s, job.ChildOwn(key), job.low, v.id);
    }
  }

  lemma {:induction false} LoopStarts(job: Job, todo: seq<string>)
    requires job.Valid() && Lists(todo, job.s0[job.source].Keys)
    ensures LoopInv(job, job.s0, todo)
  {
    var s0, t := job.s0, job.t;
    assert IsRanked(s0, t);
    RankedIsWhole(s0);
    UnderIsClosed(s0, t, job.low);
    forall key | key !in todo ensures Done(job, s0, key) {
      if key in s0[t] {
        UntouchedValue(job, s0, key);
      }
    }
    forall key ensures ChildClosed(job, s0, key) {
      if job.HasChild(key) {
        ChildRange(job, key);
      }
    }
  }

  lemma {:induction false} LoopEnds(job: Job, s: Store)
    requires job.Valid() && LoopInv(job, s, [])
    ensures JsonOf(s, job.t) == job.Expected()
  {
    var t, r, m := job.t, JsonOf(s, job.t), job.Expected();
    forall key ensures (key in r.fields <==> key in m.fields) && (key in r.fields ==> r.fields[key] == m.fields[key]) {
      assert Done(job, s, key);
    }
    assert r.fields == m.fields;
  }

  // ---------------------------------------------------------------- one turn of the loop

  lemma {:induction false} SourceStays(job: Job, s: Store, key: string)
    requires job.Valid() && Ranked(s) && Framed(job.s0, s, job.Own()) && key in job.s0[job.source]
    ensures s[job.source] == job.s0[job.source] && SameBelow(job.s0, s, job.low)
    ensures job.s0[job.source][key].Rec? ==> job.s0[job.source][key].id in s && job.s0[job.source][key].id < job.source
    ensures ValueOf(s, job.s0[job.source][key]) == JsonOf(job.s0, job.source).fields[key]
  {
    assert IsRanked(job.s0, job.source);
    InputSame(job, s);
    var v := job.s0[job.source][key];
    if v.Rec? {
      JsonBelow(job.s0, s, job.low, v.id);
    }
  }

  /** The keys still to come: each once. */
  ghost predicate Turns(job: Job, todo: seq<string>)
    requires job.source in job.s0
  {
    && todo != [] && todo[0] !in todo[1..] && todo[0] in job.s0[job.source]
    && forall key :: key in todo <==> key == todo[0] || key in todo[1..]
  }

  /** A key that is blocked, or inherited and missing, or already says something other than a record. */
  ghost predicate Keeps(job: Job, s: Store, key: string)
    requires job.Valid() && job.t in s && key in job.s0[job.source]
  {
    if key in s[job.t] then key in job.rules.blocked || s[job.t][key].Text? || job.s0[job.source][key].Text?
    else !Fills(job.rules, key)
  }

  lemma {:induction false} KeepStep(job: Job, s: Store, todo: seq<string>)
    requires job.Valid() && LoopInv(job, s, todo) && Turns(job, todo) && Keeps(job, s, todo[0])
    ensures LoopInv(job, s, todo[1..])
  {
    var key := todo[0];
    assert Untouched(job, s, key);
    SourceStays(job, s, key);
    if key in job.s0[job.t] {
      UntouchedValue(job, s, key);
    }
    assert Done(job, s, key);
    forall k | k !in todo[1..] ensures Done(job, s, k) {}
  }

  lemma {:induction false} FillKeepsRank(s: Store, t: nat, key: string, v: Value)
    requires Ranked(s) && t in s && (v.Rec? ==> v.id in s && v.id < t)
    ensures Ranked(Filled(s, t, key, v)) && SameBelow(s, Filled(s, t, key, v), t)
  {
    var s' := Filled(s, t, key, v);
    forall id | id in s' ensures IsRanked(s', id) {
      assert IsRanked(s, id);
    }
  }

  lemma {:induction false} FillKeepsClosed(s: Store, t: nat, key: string, v: Value, ids: set<nat>, low: nat)
    requires t in s && Closed(s, ids, low) && (v.Rec? ==> v.id < low)
    ensures Closed(Filled(s, t, key, v), ids, low)
  {
    var s' := Filled(s, t, key, v);
    forall id | id in s' && id in ids ensures StaysIn(s', id, ids, low) {
      assert StaysIn(s, id, ids, low);
    }
  }

  lemma {:induction false} FillKeepsOthers(job: Job, s: Store, todo: seq<string>, key: string, v: Value, k: string)
    requires job.Valid() && LoopInv(job, s, todo) && key !in s[job.t] && k != key
    requires (v.Rec? ==> v.id in s && v.id < job.low) && job.low <= job.t
    ensures Ranked(Filled(s, job.t, key, v))
    ensures k in todo ==> Untouched(job, Filled(s, job.t, key, v), k)
    ensures k !in todo ==> Done(job, Filled(s, job.t, key, v), k)
  {
    var t, s' := job.t, Filled(s, job.t, key, v);
    FillKeepsRank(s, t, key, v);
    if k in todo {
      assert Untouched(job, s, k);
      if job.HasChild(k) {
        ChildRange(job, k);
      }
    } else {
      assert Done(job, s, k);
      if k in s[t] && s[t][k].Rec? {
        assert IsRanked(s, t);
        JsonBelow(s, s', t, s[t][k].id);
      }
    }
  }

  lemma {:induction false} FillStep(job: Job, s: Store, todo: seq<string>)
    requires job.Valid() && LoopInv(job, s, todo) && Turns(job, todo)
    requires todo[0] !in s[job.t] && Fills(job.rules, todo[0])
    ensures LoopInv(job, Filled(s, job.t, todo[0], job.s0[job.source][todo[0]]), todo[1..])
  {
    var t, key, v := job.t, todo[0], job.s0[job.source][todo[0]];
    var s', todo' := Filled(s, t, key, v), todo[1..];
    UnderSelf(job.s0, t);
    SourceStays(job, s, key);
    FillKeepsRank(s, t, key, v);
    assert Untouched(job, s, key);
    forall k | k in todo' ensures Untouched(job, s', k) {
      FillKeepsOthers(job, s, todo, key, v, k);
    }
    SourceStays(job, s', key);
    forall k | k !in todo' ensures Done(job, s', k) {
      if k != key {
        FillKeepsOthers(job, s, todo, key, v, k);
      }
    }
    forall k ensures ChildClosed(job, s', k) {
      assert ChildClosed(job, s, k);
      if job.HasChild(k) {
        FillKeepsClosed(s, t, key, v, job.ChildOwn(k), job.low);
      }
    }
    FillKeepsClosed(s, t, key, v, job.Own(), job.low);
  }

  /** The target is now the merge of the values, in its own records and by reference to the input. */
  ghost predicate Merged(job: Job, s: Store)
    requires job.Valid()
  {
    && Ranked(s) && Framed(job.s0, s, job.Own()) && FieldsStay(job.s0, s, job.t)
    && FilledByReference(job.s0, s, job.t, job.source) && Closed(s, job.Own(), job.low)
    && JsonOf(s, job.t) == job.Expected()
  }

  /** The key leads to records on both sides. */
  ghost predicate Recurses(job: Job, s: Store, key: string)
    requires job.Valid() && job.t in s && key in job.s0[job.source]
  {
    key !in job.rules.blocked && key in s[job.t] && s[job.t][key].Rec? && job.s0[job.source][key].Rec?
  }

  /** The merge of the two records under the key. */
  ghost function Inner(job: Job, s: Store, key: string): Job
    requires job.Valid() && job.t in s && key in job.s0[job.source] && Recurses(job, s, key)
  {
    Job(job.rules, s, job.low, s[job.t][key].id, job.s0[job.source][key].id)
  }

  lemma {:induction false} InnerOwn(job: Job, s: Store, key: string)
    requires job.Valid() && Framed(job.s0, s, job.Own()) && Untouched(job, s, key) && job.HasChild(key)
    ensures Under(s, job.s0[job.t][key].id) == job.ChildOwn(key) && !Shared(s, {}, job.s0[job.t][key].id)
  {
    var s0, c := job.s0, job.s0[job.t][key].id;
    ChildRange(job, key);
    assert SameFrom(s0, s, {}, c) by {
      forall x | Reaches(s0, {}, c, x) && x in s0 ensures s[x] == s0[x] {
        assert x in job.ChildOwn(key);
      }
    }
    UnsharedSame(s0, s, {}, c);
    forall x ensures x in Under(s, c) <==> x in job.ChildOwn(key) {
      ReachesSame(s0, s, {}, c, x);
    }
  }

  lemma {:induction false} InnerJob(job: Job, s: Store, todo: seq<string>, key: string)
    requires job.Valid() && LoopInv(job, s, todo) && key in todo && key in job.s0[job.source] && Recurses(job, s, key)
    ensures job.HasChild(key) && job.s0[job.t][key] == s[job.t][key]
    ensures Inner(job, s, key).Valid() && Inner(job, s, key).Own() == job.ChildOwn(key)
    ensures JsonOf(s, s[job.t][key].id) == JsonOf(job.s0, job.t).fields[key]
    ensures JsonOf(s, job.s0[job.source][key].id) == JsonOf(job.s0, job.source).fields[key]
  {
    assert Untouched(job, s, key);
    ChildRange(job, key);
    InnerOwn(job, s, key);
    UntouchedValue(job, s, key);
    SourceStays(job, s, key);
  }

  lemma {:induction false} MergeKeepsClosed(s: Store, s': Store, own: set<nat>, ids: set<nat>, low: nat)
    requires Framed(s, s', own) && Closed(s, ids, low) && (own !! ids || (own <= ids && Closed(s', own, low)))
    ensures Closed(s', ids, low)
  {
    forall id | id in s' && id in ids ensures StaysIn(s', id, ids, low) {
      assert StaysIn(s, id, ids, low);
      if id in own {
        assert StaysIn(s', id, own, low);
      }
    }
  }

  /** A record apart from the one merged into keeps its value. */
  lemma {:induction false} ApartKeepsValue(job: Job, s: Store, s': Store, todo: seq<string>, key: string, k: string)
    requires job.Valid() && LoopInv(job, s, todo) && key in todo && key in job.s0[job.source] && Recurses(job, s, key)
    requires Inner(job, s, key).Valid() && Merged(Inner(job, s, key), s')
    requires k != key && k in s[job.t] && s[job.t][k].Rec?
    ensures s[job.t][k].id in s && JsonOf(s', s[job.t][k].id) == JsonOf(s, s[job.t][k].id)
  {
    InnerJob(job, s, todo, key);
    InputSame(Inner(job, s, key), s');
    assert IsRanked(s, job.t);
    var d := s[job.t][k].id;
    if k in job.s0[job.t] {
      ChildRange(job, k);
      RangesApart(job, key, k);
      assert ChildClosed(job, s, k);
      JsonFrame(s, s', job.ChildOwn(k), job.low, d);
    } else {
      assert IsRanked(job.s0, job.source);
      JsonBelow(s, s', job.low, d);
    }
  }

  lemma {:induction false} MergeKeepsOthers(job: Job, s: Store, s': Store, todo: seq<string>, key: string, k: string)
    requires job.Valid() && LoopInv(job, s, todo) && key in todo && key in job.s0[job.source] && Recurses(job, s, key)
    requires Inner(job, s, key).Valid() && Merged(Inner(job, s, key), s') && k != key
    ensures job.t in s' && s'[job.t] == s[job.t]
    ensures k in todo ==> Untouched(job, s', k)
    ensures k !in todo ==> Done(job, s', k)
  {
    InnerJob(job, s, todo, key);
    ChildRange(job, key);
    assert s'[job.t] == s[job.t];
    if k in todo {
      assert Untouched(job, s, k);
      if job.HasChild(k) {
        RangesApart(job, key, k);
      }
    } else {
      assert Done(job, s, k);
      if k in s[job.t] && s[job.t][k].Rec? {
        ApartKeepsValue(job, s, s', todo, key, k);
      }
    }
  }

  lemma {:induction false} MergeKeepsChildren(job: Job, s: Store, s': Store, todo: seq<string>, key: string, k: string)
    requires job.Valid() && LoopInv(job, s, todo) && key in todo && key in job.s0[job.source] && Recurses(job, s, key)
    requires Inner(job, s, key).Valid() && Merged(Inner(job, s, key), s')
    ensures ChildClosed(job, s', k)
  {
    InnerJob(job, s, todo, key);
    assert ChildClosed(job, s, k);
    if job.HasChild(k) && k != key {
      RangesApart(job, key, k);
      MergeKeepsClosed(s, s', job.ChildOwn(key), job.ChildOwn(k), job.low);
    }
  }

  lemma {:induction false} MergeStep(job: Job, s: Store, s': Store, todo: seq<string>)
    requires job.Valid() && LoopInv(job, s, todo) && Turns(job, todo) && Recurses(job, s, todo[0])
    requires Inner(job, s, todo[0]).Valid() && Merged(Inner(job, s, todo[0]), s')
    ensures LoopInv(job, s', todo[1..])
  {
    var key, todo' := todo[0], todo[1..];
    InnerJob(job, s, todo, key);
    ChildRange(job, key);
    assert s'[job.t] == s[job.t];
    forall k | k in todo' ensures Untouched(job, s', k) {
      MergeKeepsOthers(job, s, s', todo, key, k);
    }
    assert Done(job, s', key);
    forall k | k !in todo' ensures Done(job, s', k) {
      if k != key {
        MergeKeepsOthers(job, s, s', todo, key, k);
      }
    }
    forall k ensures ChildClosed(job, s', k) {
      MergeKeepsChildren(job, s, s', todo, key, k);
    }
    MergeKeepsClosed(s, s', job.ChildOwn(key), job.Own(), job.low);
  }

  // ---------------------------------------------------------------- the merge is the merge of the values

  /**
   Into a target whose records form a tree of their own, in whatever order the keys come, the
   outcome is the merge of the values, and what was filled in is the input's own.
   */
  lemma {:induction false} MergeIsMergeOfValues(how: Merger, job: Job, fuel: nat)
    requires how.Valid() && job.Valid() && how.rules == job.rules
    requires Whole(job.s0) && MergeInto(how, job.s0, job.t, job.source, fuel).Some?
    ensures Merged(job, MergeInto(how, job.s0, job.t, job.source, fuel).value)
    decreases fuel, 0, 0
  {
    var keys := how.order(job.source, job.s0[job.source].Keys);
    assert Lists(keys, job.s0[job.source].Keys);
    LoopStarts(job, keys);
    LoopGoesOn(how, job, job.s0, keys, fuel - 1);
  }

  lemma {:induction false} LoopGoesOn(how: Merger, job: Job, s: Store, todo: seq<string>, fuel: nat)
    requires how.Valid() && job.Valid() && how.rules == job.rules && LoopInv(job, s, todo) && Whole(s)
    requires Lists(todo, set key | key in todo) && forall key :: key in todo ==> key in job.s0[job.source]
    requires Within(job.s0[job.source], s.Keys) && MergeKeys(how, s, job.t, job.s0[job.source], todo, fuel).Some?
    ensures Merged(job, MergeKeys(how, s, job.t, job.s0[job.source], todo, fuel).value)
    decreases fuel, 2, |todo|
  {
    if todo == [] {
      LoopEnds(job, s);
    } else {
      assert Turns(job, todo);
      LoopTurn(how, job, s, todo, fuel);
      LoopGoesOn(how, job, MergeKey(how, s, job.t, todo[0], job.s0[job.source][todo[0]], fuel).value, todo[1..], fuel);
    }
  }

  lemma {:induction false} LoopTurn(how: Merger, job: Job, s: Store, todo: seq<string>, fuel: nat)
    requires how.Valid() && job.Valid() && how.rules == job.rules && LoopInv(job, s, todo) && Whole(s)
        && Turns(job, todo)
    requires Within(job.s0[job.source], s.Keys)
    requires MergeKey(how, s, job.t, todo[0], job.s0[job.source][todo[0]], fuel).Some?
    ensures LoopInv(job, MergeKey(how, s, job.t, todo[0], job.s0[job.source][todo[0]], fuel).value, todo[1..])
    decreases fuel, 1, 0
  {
    var key := todo[0];
    if Recurses(job, s, key) {
      InnerJob(job, s, todo, key);
      var inner := Inner(job, s, key);
      MergeIsMergeOfValues(how, inner, fuel);
      MergeStep(job, s, MergeInto(how, s, inner.t, inner.source, fuel).value, todo);
    } else if key !in s[job.t] && Fills(job.rules, key) {
      FillStep(job, s, todo);
    } else {
      KeepStep(job, s, todo);
    }
  }
}
