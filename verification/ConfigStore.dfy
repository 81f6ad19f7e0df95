/**
 The same merge on an object graph: records are updated in place, and values of the legacy
 record are stored by reference (extensions/amazon-bedrock/config-compat.ts). Records may be
 shared and may form cycles.
 */
module ConfigStore {
  import opened Prelude
  import opened ConfigMerge

  datatype Value = Text(text: string) | Rec(id: nat)

  type Fields = map<string, Value>
  type Store = map<nat, Fields>

  predicate Within(fields: Fields, ids: set<nat>) {
    forall key :: key in fields && fields[key].Rec? ==> fields[key].id in ids
  }

  /** Every reference leads to a record. */
  predicate Whole(s: Store) {
    forall id {:trigger s[id]} :: id in s ==> Within(s[id], s.Keys)
  }

  ghost predicate Lists(keys: seq<string>, all: set<string>) {
    && (forall i, j :: 0 <= i < j < |keys| ==> keys[i] != keys[j])
    && (forall key :: key in keys <==> key in all)
  }

  /** The rules of the merge, and the order in which a record lists its keys. */
  datatype Merger = Merger(rules: Rules, order: (nat, set<string>) -> seq<string>) {
    ghost predicate Valid() {
      forall id: nat, keys: set<string> {:trigger order(id, keys)} :: Lists(order(id, keys), keys)
    }
  }

  // ---------------------------------------------------------------- the merge, store to store

  /** Merge record `source` into record `t`, at most `fuel` calls deep. */
  function MergeInto(how: Merger, s: Store, t: nat, source: nat, fuel: nat): (r: Option<Store>)
    requires how.Valid() && Whole(s) && t in s && source in s
    ensures r.Some? ==> Whole(r.value) && r.value.Keys == s.Keys
    decreases fuel, 0, 0
  {
    if fuel == 0 then None
    else MergeKeys(how, s, t, s[source], how.order(source, s[source].Keys), fuel - 1)
  }

  function MergeKeys(how: Merger, s: Store, t: nat, fields: Fields, keys: seq<string>, fuel: nat): (r: Option<Store>)
    requires how.Valid() && Whole(s) && t in s && Within(fields, s.Keys) && forall key :: key in keys ==> key in fields
    ensures r.Some? ==> Whole(r.value) && r.value.Keys == s.Keys
    decreases fuel, 2, |keys|
  {
    if keys == [] then Some(s)
    else
      match MergeKey(how, s, t, keys[0], fields[keys[0]], fuel)
      case None => None
      case Some(s1) => MergeKeys(how, s1, t, fields, keys[1..], fuel)
  }

  function MergeKey(how: Merger, s: Store, t: nat, key: string, v: Value, fuel: nat): (r: Option<Store>)
    requires how.Valid() && Whole(s) && t in s && (v.Rec? ==> v.id in s)
    ensures r.Some? ==> Whole(r.value) && r.value.Keys == s.Keys
    decreases fuel, 1, 0
  {
    if key in how.rules.blocked then Some(s)
    else if key !in s[t] then Some(if key in how.rules.inherited then s else Filled(s, t, key, v))
    else if s[t][key].Rec? && v.Rec? then MergeInto(how, s, s[t][key].id, v.id, fuel)
    else Some(s)
  }

  function Filled(s: Store, t: nat, key: string, v: Value): Store
    requires t in s
  {
    s[t := s[t][key := v]]
  }

  lemma {:induction false} KeysTurn(how: Merger, s: Store, t: nat, fields: Fields, keys: seq<string>, i: nat, fuel: nat)
    requires how.Valid() && Whole(s) && t in s && Within(fields, s.Keys) && forall key :: key in keys ==> key in fields
    requires i < |keys|
    ensures MergeKeys(how, s, t, fields, keys[i..], fuel) ==
            match MergeKey(how, s, t, keys[i], fields[keys[i]], fuel) {
              case None => None
              case Some(s1) => MergeKeys(how, s1, t, fields, keys[i + 1..], fuel)
            }
  {
    assert keys[i..][1..] == keys[i + 1..];
  }

  class RecordHeap {
    var store: Store

    constructor (store: Store)
      ensures this.store == store
    {
      this.store := store;
    }

    /** Fill what the target record lacks from the source record, going into records that both have. */
    method MergeMissing(how: Merger, target: nat, source: nat, fuel: nat) returns (done: bool)
      requires how.Valid() && Whole(store) && target in store && source in store
      modifies this
      ensures var r := MergeInto(how, old(store), target, source, fuel);
              done == r.Some? && (done ==> store == r.value)
      decreases fuel, 0
    {
      if fuel == 0 {
        return false;
      }
      done := MergeEntries(how, target, store[source], how.order(source, store[source].Keys), fuel - 1);
    }

    /** The loop over the entries listed beforehand. */
    method MergeEntries(how: Merger, target: nat, fields: Fields, keys: seq<string>, fuel: nat) returns (done: bool)
      requires how.Valid() && Whole(store) && target in store && Within(fields, store.Keys)
      requires forall key :: key in keys ==> key in fields
      modifies this
      ensures var r := MergeKeys(how, old(store), target, fields, keys, fuel);
              done == r.Some? && (done ==> store == r.value)
      decreases fuel, 2
    {
      assert keys[0..] == keys;
      for i := 0 to |keys|
        invariant Whole(store) && store.Keys == old(store).Keys
        invariant MergeKeys(how, old(store), target, fields, keys, fuel)
               == MergeKeys(how, store, target, fields, keys[i..], fuel)
      {
        KeysTurn(how, store, target, fields, keys, i, fuel);
        var deep := MergeField(how, target, keys[i], fields[keys[i]], fuel);
        if !deep {
          return false;
        }
      }
      done := true;
    }

    /** One turn of the loop. */
    method MergeField(how: Merger, target: nat, key: string, value: Value, fuel: nat) returns (done: bool)
      requires how.Valid() && Whole(store) && target in store && (value.Rec? ==> value.id in store)
      modifies this
      ensures var r := MergeKey(how, old(store), target, key, value, fuel);
              done == r.Some? && (done ==> store == r.value)
      decreases fuel, 1
    {
      done := true;
      if key in how.rules.blocked {
        return;
      }
      if key !in store[target] {
        if key !in how.rules.inherited {
          store := store[target := store[target][key := value]];
        }
      } else if store[target][key].Rec? && value.Rec? {
        done := MergeMissing(how, store[target][key].id, value.id, fuel);
      }
    }
  }

  // ---------------------------------------------------------------- paths through records

  /** A key under which record `id` has a record, other than the keys in `without`. */
  predicate IsChild(s: Store, without: set<string>, id: nat, key: string) {
    id in s && key in s[id] && key !in without && s[id][key].Rec?
  }

  /** The record at the end of a path of such keys. */
  function Follow(s: Store, without: set<string>, id: nat, path: seq<string>): Option<nat>
    decreases |path|
  {
    if path == [] then Some(id)
    else if IsChild(s, without, id, path[0]) then Follow(s, without, s[id][path[0]].id, path[1..])
    else None
  }

  ghost predicate Reaches(s: Store, without: set<string>, id: nat, x: nat) {
    exists path :: Follow(s, without, id, path) == Some(x)
  }

  /** Some record is reached by two paths. */
  ghost predicate Shared(s: Store, without: set<string>, id: nat) {
    exists p, q {:trigger Follow(s, without, id, p), Follow(s, without, id, q)} ::
      p != q && Follow(s, without, id, p).Some? && Follow(s, without, id, p) == Follow(s, without, id, q)
  }

  lemma {:induction false} FollowChild(s: Store, without: set<string>, id: nat, key: string, path: seq<string>)
    requires IsChild(s, without, id, key)
    ensures Follow(s, without, id, [key] + path) == Follow(s, without, s[id][key].id, path)
  {
    assert ([key] + path)[1..] == path;
  }

  lemma {:induction false} PathsDiffer(key: string, p: seq<string>, k: string, q: seq<string>)
    requires key != k || p != q
    ensures [key] + p != [k] + q
  {
    assert ([key] + p)[0] == key && ([k] + q)[0] == k;
    assert ([key] + p)[1..] == p && ([k] + q)[1..] == q;
  }

  lemma {:induction false} ChildReaches(s: Store, without: set<string>, id: nat, key: string, x: nat)
    requires IsChild(s, without, id, key) && Reaches(s, without, s[id][key].id, x)
    ensures Reaches(s, without, id, x)
  {
    var path :| Follow(s, without, s[id][key].id, path) == Some(x);
    FollowChild(s, without, id, key, path);
  }

  lemma {:induction false} ChildUnshared(s: Store, without: set<string>, id: nat, key: string)
    requires IsChild(s, without, id, key) && !Shared(s, without, id)
    ensures !Shared(s, without, s[id][key].id)
  {
    var c := s[id][key].id;
    if Shared(s, without, c) {
      var p, q :| p != q && Follow(s, without, c, p).Some? && Follow(s, without, c, p) == Follow(s, without, c, q);
      FollowChild(s, without, id, key, p);
      FollowChild(s, without, id, key, q);
      PathsDiffer(key, p, key, q);
    }
  }

  lemma {:induction false} ChildMissesParent(s: Store, without: set<string>, id: nat, key: string)
    requires IsChild(s, without, id, key) && !Shared(s, without, id)
    ensures !Reaches(s, without, s[id][key].id, id)
  {
    assert Follow(s, without, id, []) == Some(id);
    if Reaches(s, without, s[id][key].id, id) {
      var path :| Follow(s, without, s[id][key].id, path) == Some(id);
      FollowChild(s, without, id, key, path);
    }
  }

  lemma {:induction false} ChildrenApart(s: Store, without: set<string>, id: nat, key: string, k: string, x: nat)
    requires IsChild(s, without, id, key) && IsChild(s, without, id, k) && key != k && !Shared(s, without, id)
    requires Reaches(s, without, s[id][key].id, x)
    ensures !Reaches(s, without, s[id][k].id, x)
  {
    if Reaches(s, without, s[id][k].id, x) {
      var p :| Follow(s, without, s[id][key].id, p) == Some(x);
      var q :| Follow(s, without, s[id][k].id, q) == Some(x);
      FollowChild(s, without, id, key, p);
      FollowChild(s, without, id, k, q);
      PathsDiffer(key, p, k, q);
    }
  }

  // ---------------------------------------------------------------- what does not change

  /** The records reached are the same. */
  ghost predicate SameFrom(s: Store, s': Store, without: set<string>, id: nat) {
    s'.Keys == s.Keys && forall x :: Reaches(s, without, id, x) && x in s ==> s'[x] == s[x]
  }

  lemma {:induction false} FollowSame(s: Store, s': Store, without: set<string>, id: nat, path: seq<string>)
    requires SameFrom(s, s', without, id)
    ensures Follow(s', without, id, path) == Follow(s, without, id, path)
    decreases |path|
  {
    if path != [] {
      assert Follow(s, without, id, []) == Some(id);
      if IsChild(s, without, id, path[0]) {
        var c := s[id][path[0]].id;
        forall x | Reaches(s, without, c, x) ensures Reaches(s, without, id, x) {
          ChildReaches(s, without, id, path[0], x);
        }
        FollowSame(s, s', without, c, path[1..]);
      }
    }
  }

  lemma {:induction false} ReachesSame(s: Store, s': Store, without: set<string>, id: nat, x: nat)
    requires SameFrom(s, s', without, id)
    ensures Reaches(s', without, id, x) <==> Reaches(s, without, id, x)
  {
    if Reaches(s', without, id, x) {
      var path :| Follow(s', without, id, path) == Some(x);
      FollowSame(s, s', without, id, path);
    }
    if Reaches(s, without, id, x) {
      var path :| Follow(s, without, id, path) == Some(x);
      FollowSame(s, s', without, id, path);
    }
  }

  lemma {:induction false} UnsharedSame(s: Store, s': Store, without: set<string>, id: nat)
    requires SameFrom(s, s', without, id) && !Shared(s, without, id)
    ensures !Shared(s', without, id)
  {
    if Shared(s', without, id) {
      var p, q :| p != q && Follow(s', without, id, p).Some?
          && Follow(s', without, id, p) == Follow(s', without, id, q);
      FollowSame(s, s', without, id, p);
      FollowSame(s, s', without, id, q);
    }
  }

  /** Only records reached from `t` have changed. */
  ghost predicate ChangesOnly(s: Store, s': Store, without: set<string>, t: nat) {
    s'.Keys == s.Keys && forall x {:trigger s[x]} {:trigger s'[x]} :: x in s && !Reaches(s, without, t, x) ==>
        s'[x] == s[x]
  }

  /** A key whose turn is to come: neither the field nor anything under it has changed. */
  ghost predicate Pending(s0: Store, s: Store, without: set<string>, t: nat, key: string) {
    && t in s0 && t in s && (key in s[t] <==> key in s0[t]) && (key in s0[t] ==> s[t][key] == s0[t][key])
    && (IsChild(s0, without, t, key) ==> SameFrom(s0, s, without, s0[t][key].id))
  }

  ghost predicate PendingAll(s0: Store, s: Store, without: set<string>, t: nat, keys: seq<string>) {
    forall key {:trigger Pending(s0, s, without, t, key)} :: key in keys ==> Pending(s0, s, without, t, key)
  }

  lemma {:induction false} FillChangesOnly(s0: Store, s: Store, without: set<string>, t: nat, key: string, v: Value)
    requires t in s && ChangesOnly(s0, s, without, t)
    ensures ChangesOnly(s0, Filled(s, t, key, v), without, t)
  {
    assert Follow(s0, without, t, []) == Some(t);
  }

  lemma {:induction false} FillKeepsPending(
      s0: Store, s: Store, without: set<string>, t: nat, key: string, v: Value, k: string)
    requires t in s && !Shared(s0, without, t) && Pending(s0, s, without, t, k) && k != key
    ensures Pending(s0, Filled(s, t, key, v), without, t, k)
  {
    if IsChild(s0, without, t, k) {
      ChildMissesParent(s0, without, t, k);
    }
  }

  /** Below a key whose turn it is, records are reached as at the beginning. */
  lemma {:induction false} ChildAsBefore(s0: Store, s: Store, without: set<string>, t: nat, key: string)
    requires !Shared(s0, without, t) && Pending(s0, s, without, t, key) && IsChild(s, without, t, key)
    ensures IsChild(s0, without, t, key) && s0[t][key] == s[t][key] && !Shared(s, without, s[t][key].id)
    ensures forall x :: Reaches(s, without, s[t][key].id, x) <==> Reaches(s0, without, s[t][key].id, x)
  {
    var c := s[t][key].id;
    ChildUnshared(s0, without, t, key);
    UnsharedSame(s0, s, without, c);
    forall x ensures Reaches(s, without, c, x) <==> Reaches(s0, without, c, x) {
      ReachesSame(s0, s, without, c, x);
    }
  }

  lemma {:induction false} DeepChangesOnly(s0: Store, s: Store, s': Store, without: set<string>, t: nat, key: string)
    requires !Shared(s0, without, t) && ChangesOnly(s0, s, without, t)
    requires Pending(s0, s, without, t, key) && IsChild(s, without, t, key) && ChangesOnly(s, s', without, s[t][key].id)
    ensures ChangesOnly(s0, s', without, t) && t in s' && s'[t] == s[t]
  {
    ChildAsBefore(s0, s, without, t, key);
    ChildMissesParent(s0, without, t, key);
    forall x | x in s0 && !Reaches(s0, without, t, x) ensures s'[x] == s0[x] {
      if Reaches(s0, without, s[t][key].id, x) {
        ChildReaches(s0, without, t, key, x);
      }
    }
  }

  lemma {:induction false} DeepKeepsPending(
      s0: Store, s: Store, s': Store, without: set<string>, t: nat, key: string, k: string)
    requires !Shared(s0, without, t) && Pending(s0, s, without, t, k) && k != key
    requires Pending(s0, s, without, t, key) && IsChild(s, without, t, key) && ChangesOnly(s, s', without, s[t][key].id)
    ensures Pending(s0, s', without, t, k)
  {
    ChildAsBefore(s0, s, without, t, key);
    ChildMissesParent(s0, without, t, key);
    if IsChild(s0, without, t, k) {
      var c := s0[t][k].id;
      forall x | Reaches(s0, without, c, x) && x in s0 ensures s'[x] == s0[x] {
        ChildrenApart(s0, without, t, k, key, x);
      }
    }
  }

  /** A finite set in which everything reached lies. */
  ghost predicate Covers(s: Store, without: set<string>, t: nat, ids: set<nat>) {
    forall x :: Reaches(s, without, t, x) ==> x in ids
  }

  lemma {:induction false} ChildCovered(s0: Store, s: Store, without: set<string>, t: nat, key: string, ids: set<nat>)
    requires !Shared(s0, without, t) && Pending(s0, s, without, t, key) && IsChild(s, without, t, key)
    requires Covers(s0, without, t, ids)
    ensures t in ids && Covers(s, without, s[t][key].id, ids - {t})
  {
    ChildAsBefore(s0, s, without, t, key);
    ChildMissesParent(s0, without, t, key);
    assert Follow(s0, without, t, []) == Some(t);
    forall x | Reaches(s, without, s[t][key].id, x) ensures x in ids - {t} {
      ChildReaches(s0, without, t, key, x);
    }
  }

  /** When no record of the target is reached twice, the merge comes to an end and changes only the target's records. */
  lemma {:induction false} MergeStaysInTarget(
      how: Merger, s: Store, t: nat, source: nat, fuel: nat, without: set<string>, ids: set<nat>)
    requires how.Valid() && Whole(s) && t in s && source in s && without <= how.rules.blocked
    requires !Shared(s, without, t) && Covers(s, without, t, ids)
    ensures var r := MergeInto(how, s, t, source, fuel);
            (|ids| <= fuel ==> r.Some?) && (r.Some? ==> ChangesOnly(s, r.value, without, t))
    decreases fuel, 0, 0
  {
    assert Follow(s, without, t, []) == Some(t);
    assert t in ids;
    if fuel > 0 {
      KeysStayInTarget(how, s, s, t, s[source], how.order(source, s[source].Keys), fuel - 1, without, ids);
    }
  }

  lemma {:induction false} KeysStayInTarget(
      how: Merger, s0: Store, s: Store, t: nat, fields: Fields, keys: seq<string>, fuel: nat,
      without: set<string>, ids: set<nat>)
    requires how.Valid() && Whole(s) && t in s && Within(fields, s.Keys) && without <= how.rules.blocked
    requires Lists(keys, set key | key in keys) && forall key :: key in keys ==> key in fields
    requires !Shared(s0, without, t) && Covers(s0, without, t, ids)
    requires ChangesOnly(s0, s, without, t) && PendingAll(s0, s, without, t, keys)
    ensures var r := MergeKeys(how, s, t, fields, keys, fuel);
            (|ids| <= fuel + 1 ==> r.Some?) && (r.Some? ==> ChangesOnly(s0, r.value, without, t))
    decreases fuel, 2, |keys|
  {
    if keys != [] {
      var key := keys[0];
      assert Pending(s0, s, without, t, key);
      KeyStaysInTarget(how, s0, s, t, key, fields[key], fuel, without, ids);
      var r := MergeKey(how, s, t, key, fields[key], fuel);
      if r.Some? {
        assert PendingAll(s0, r.value, without, t, keys[1..]) by {
          forall k | k in keys[1..] ensures Pending(s0, r.value, without, t, k) {
            TurnKeepsPending(how, s0, s, t, key, fields[key], fuel, without, ids, k);
          }
        }
        KeysStayInTarget(how, s0, r.value, t, fields, keys[1..], fuel, without, ids);
      }
    }
  }

  lemma {:induction false} KeyStaysInTarget(
      how: Merger, s0: Store, s: Store, t: nat, key: string, v: Value, fuel: nat, without: set<string>, ids: set<nat>)
    requires how.Valid() && Whole(s) && t in s && (v.Rec? ==> v.id in s) && without <= how.rules.blocked
    requires !Shared(s0, without, t) && Covers(s0, without, t, ids)
    requires ChangesOnly(s0, s, without, t) && Pending(s0, s, without, t, key)
    ensures var r := MergeKey(how, s, t, key, v, fuel);
            (|ids| <= fuel + 1 ==> r.Some?) && (r.Some? ==> ChangesOnly(s0, r.value, without, t))
    decreases fuel, 1, 0
  {
    if key !in how.rules.blocked {
      if key !in s[t] {
        FillChangesOnly(s0, s, without, t, key, v);
      } else if s[t][key].Rec? && v.Rec? {
        var c := s[t][key].id;
        ChildAsBefore(s0, s, without, t, key);
        ChildCovered(s0, s, without, t, key, ids);
        MergeStaysInTarget(how, s, c, v.id, fuel, without, ids - {t});
        var r := MergeInto(how, s, c, v.id, fuel);
        if r.Some? {
          DeepChangesOnly(s0, s, r.value, without, t, key);
        }
      }
    }
  }

  lemma {:induction false} TurnKeepsPending(
      how: Merger, s0: Store, s: Store, t: nat, key: string, v: Value, fuel: nat,
      without: set<string>, ids: set<nat>, k: string)
    requires how.Valid() && Whole(s) && t in s && (v.Rec? ==> v.id in s) && without <= how.rules.blocked
    requires !Shared(s0, without, t) && Covers(s0, without, t, ids)
    requires Pending(s0, s, without, t, key) && Pending(s0, s, without, t, k) && k != key
    ensures var r := MergeKey(how, s, t, key, v, fuel);
            r.Some? ==> Pending(s0, r.value, without, t, k)
    decreases fuel, 1, 0
  {
    if key !in how.rules.blocked {
      if key !in s[t] {
        FillKeepsPending(s0, s, without, t, key, v, k);
      } else if s[t][key].Rec? && v.Rec? {
        var c := s[t][key].id;
        ChildAsBefore(s0, s, without, t, key);
        ChildCovered(s0, s, without, t, key, ids);
        MergeStaysInTarget(how, s, c, v.id, fuel, without, ids - {t});
        var r := MergeInto(how, s, c, v.id, fuel);
        if r.Some? {
          DeepKeepsPending(s0, s, r.value, without, t, key, k);
        }
      }
    }
  }
}
