/**
 When the merge writes into the configuration it was given: exactly when the target holds one
 record at the end of two paths (extensions/amazon-bedrock/config-compat.ts).
 */
module ConfigSharing {
  import opened Prelude
  import opened ConfigMerge
  import opened ConfigStore

  /** `s` with the records of an input beside it, none of which refers to a record of `s`. */
  ghost predicate WithInput(s: Store, s1: Store) {
    && Whole(s1)
    && s.Keys <= s1.Keys && (forall id {:trigger s[id]} {:trigger s1[id]} :: id in s ==> s1[id] == s[id])
    && (forall id {:trigger s1[id]} :: id in s1 && id !in s ==> Within(s1[id], s1.Keys - s.Keys))
  }

  /** After the merge every record of the input says what it said. */
  ghost predicate InputStays(how: Merger, s: Store, s1: Store, t: nat, source: nat, fuel: nat)
    requires how.Valid() && Whole(s1) && t in s1 && source in s1
  {
    var r := MergeInto(how, s1, t, source, fuel);
    r.Some? ==> forall id :: id in s1 && id !in s ==> r.value[id] == s1[id]
  }

  /** Whatever legacy record is merged into `t`, the input stays. */
  ghost predicate NeverWritesInput(how: Merger, s: Store, t: nat)
    requires how.Valid() && Whole(s) && t in s
  {
    forall s1: Store, source: nat, fuel: nat {:trigger InputStays(how, s, s1, t, source, fuel)} ::
      WithInput(s, s1) && source in s1 && source !in s ==> InputStays(how, s, s1, t, source, fuel)
  }

  // ---------------------------------------------------------------- paths beside an input

  lemma {:induction false} FollowWithInput(s: Store, s1: Store, without: set<string>, id: nat, path: seq<string>)
    requires Whole(s) && WithInput(s, s1) && id in s
    ensures Follow(s1, without, id, path) == Follow(s, without, id, path)
    ensures Follow(s, without, id, path).Some? ==> Follow(s, without, id, path).value in s
    decreases |path|
  {
    assert s1[id] == s[id];
    if path != [] && IsChild(s, without, id, path[0]) {
      assert Within(s[id], s.Keys);
      FollowWithInput(s, s1, without, s[id][path[0]].id, path[1..]);
    }
  }

  lemma {:induction false} UnsharedWithInput(s: Store, s1: Store, without: set<string>, t: nat)
    requires Whole(s) && WithInput(s, s1) && t in s && !Shared(s, without, t)
    ensures !Shared(s1, without, t)
  {
    if Shared(s1, without, t) {
      var p, q :| p != q && Follow(s1, without, t, p).Some? && Follow(s1, without, t, p) == Follow(s1, without, t, q);
      FollowWithInput(s, s1, without, t, p);
      FollowWithInput(s, s1, without, t, q);
    }
  }

  lemma {:induction false} CoveredByTarget(s: Store, s1: Store, without: set<string>, t: nat)
    requires Whole(s) && WithInput(s, s1) && t in s
    ensures Covers(s1, without, t, s.Keys)
  {
    forall x | Reaches(s1, without, t, x) ensures x in s.Keys {
      var path :| Follow(s1, without, t, path) == Some(x);
      FollowWithInput(s, s1, without, t, path);
    }
  }

  /** Nothing is reached twice: the merge comes to an end, and the input stays. */
  lemma {:induction false} UnsharedTargetIsSafe(how: Merger, s: Store, s1: Store, t: nat, source: nat, fuel: nat)
    requires how.Valid() && Whole(s) && t in s && !Shared(s, how.rules.blocked, t)
    requires WithInput(s, s1) && source in s1
    ensures InputStays(how, s, s1, t, source, fuel)
    ensures |s| <= fuel ==> MergeInto(how, s1, t, source, fuel).Some?
  {
    UnsharedWithInput(s, s1, how.rules.blocked, t);
    CoveredByTarget(s, s1, how.rules.blocked, t);
    MergeStaysInTarget(how, s1, t, source, fuel, how.rules.blocked, s.Keys);
    assert |s.Keys| == |s|;
  }

  lemma {:induction false} FollowSplit(s: Store, without: set<string>, id: nat, a: seq<string>, b: seq<string>)
    requires Follow(s, without, id, a + b).Some?
    ensures Follow(s, without, id, a).Some?
        && Follow(s, without, Follow(s, without, id, a).value, b) == Follow(s, without, id, a + b)
    decreases |a|
  {
    if a == [] {
      assert a + b == b;
    } else {
      assert (a + b)[0] == a[0] && (a + b)[1..] == a[1..] + b;
      FollowSplit(s, without, s[id][a[0]].id, a[1..], b);
    }
  }

  /** A field under a new key is on no path without that key. */
  lemma {:induction false} FollowFilled(
      s: Store, without: set<string>, id: nat, path: seq<string>, e: nat, key: string, v: Value)
    requires e in s && key !in s[e] && key !in path
    ensures Follow(Filled(s, e, key, v), without, id, path) == Follow(s, without, id, path)
    decreases |path|
  {
    if path != [] && IsChild(s, without, id, path[0]) {
      FollowFilled(s, without, s[id][path[0]].id, path[1..], e, key, v);
    }
  }

  lemma {:induction false} Diverge(p: seq<string>, q: seq<string>, k: string) returns (i: nat)
    requires p != q && k !in p && k !in q
    ensures i <= |p| && i <= |q| && p[..i] == q[..i] && (p[i..] + [k])[0] != (q[i..] + [k])[0]
  {
    i := 0;
    while i < |p| && i < |q| && p[i] == q[i]
      invariant i <= |p| && i <= |q| && p[..i] == q[..i]
    {
      i := i + 1;
    }
    assert i == |p| ==> p[..i] == p;
    assert i == |q| ==> q[..i] == q;
  }

  // ---------------------------------------------------------------- records with one key, and two

  lemma {:induction false} OneListed(keys: seq<string>, key: string)
    requires Lists(keys, {key})
    ensures keys == [key] && keys[1..] == []
  {
    assert key in keys && keys[0] in keys;
    var i := if |keys| > 1 then 1 else 0;
    assert keys[i] in keys;
  }

  lemma {:induction false} OneKey(how: Merger, s: Store, t: nat, source: nat, key: string, fuel: nat)
    requires how.Valid() && Whole(s) && t in s && source in s && s[source].Keys == {key}
    ensures MergeInto(how, s, t, source, fuel + 1) == MergeKey(how, s, t, key, s[source][key], fuel)
  {
    var keys := how.order(source, s[source].Keys);
    assert Lists(keys, s[source].Keys) && key in s[source].Keys;
    OneListed(keys, key);
    var r := MergeKey(how, s, t, key, s[source][key], fuel);
    if r.Some? {
      assert MergeKeys(how, r.value, t, s[source], [], fuel) == r;
    }
  }

  lemma {:induction false} TwoKeysListed(keys: seq<string>, x: string, y: string)
    requires Lists(keys, {x, y}) && x != y
    ensures keys == [x, y] || keys == [y, x]
  {
    assert x in keys && y in keys && keys[0] in keys && keys[1] in keys;
    var i := if |keys| > 2 then 2 else 0;
    assert keys[i] in keys;
  }

  lemma {:induction false} TwoKeys(how: Merger, s: Store, t: nat, source: nat, x: string, y: string, fuel: nat)
    requires how.Valid() && Whole(s) && t in s && source in s && s[source].Keys == {x, y}
    requires how.order(source, s[source].Keys) == [x, y]
    ensures MergeInto(how, s, t, source, fuel + 1) ==
            match MergeKey(how, s, t, x, s[source][x], fuel) {
              case None => None
              case Some(s') => MergeKey(how, s', t, y, s[source][y], fuel)
            }
  {
    var fields, keys := s[source], [x, y];
    assert keys[1..] == [y] && [y][1..] == [];
    var r := MergeKey(how, s, t, x, fields[x], fuel);
    assert MergeInto(how, s, t, source, fuel + 1) == MergeKeys(how, s, t, fields, keys, fuel);
    if r.Some? {
      assert MergeKeys(how, r.value, t, fields, [y], fuel) == MergeKey(how, r.value, t, y, fields[y], fuel);
    }
  }

  // ---------------------------------------------------------------- chains of records

  /** From `v`, records of one key each, all outside `own`, lead along the path to `w`. */
  ghost predicate Leads(s: Store, own: set<nat>, v: Value, path: seq<string>, w: Value)
    decreases |path|
  {
    if path == [] then v == w
    else
      && v.Rec? && v.id in s && v.id !in own && s[v.id].Keys == {path[0]}
      && Leads(s, own, s[v.id][path[0]], path[1..], w)
  }

  lemma {:induction false} LeadsStill(s: Store, s': Store, own: set<nat>, v: Value, path: seq<string>, w: Value)
    requires Leads(s, own, v, path, w) && forall id :: id in s && id !in own ==> id in s' && s'[id] == s[id]
    ensures Leads(s', own, v, path, w)
    decreases |path|
  {
    if path != [] {
      LeadsStill(s, s', own, s[v.id][path[0]], path[1..], w);
    }
  }

  /** The turn of a key that leads to records on both sides, of which the legacy one has one key, is that key's turn. */
  lemma {:induction false} OneTurn(how: Merger, s: Store, t: nat, key: string, v: Value, k: string, fuel: nat)
    requires how.Valid() && Whole(s) && v.Rec? && v.id in s && s[v.id].Keys == {k}
        && IsChild(s, how.rules.blocked, t, key)
    ensures s[t][key].id in s && (s[v.id][k].Rec? ==> s[v.id][k].id in s)
    ensures MergeKey(how, s, t, key, v, fuel + 1) == MergeKey(how, s, s[t][key].id, k, s[v.id][k], fuel)
  {
    assert Within(s[t], s.Keys) && Within(s[v.id], s.Keys);
    OneKey(how, s, s[t][key].id, v.id, k, fuel);
  }

  /** What is the same for the turn of a key and for the one turn it leads to. */
  ghost predicate GoesDown(turn: (nat, string, Value, nat) -> Option<Store>, s: Store, without: set<string>) {
    forall t: nat, key, v: Value, k, fuel: nat {:trigger turn(t, key, v, fuel), k in s[v.id]} ::
      IsChild(s, without, t, key) && v.Rec? && v.id in s && s[v.id].Keys == {k} && k in s[v.id] && fuel > 0 ==>
        turn(t, key, v, fuel) == turn(s[t][key].id, k, s[v.id][k], fuel - 1)
  }

  lemma {:induction false} AlongTurns(
      turn: (nat, string, Value, nat) -> Option<Store>, s: Store, without: set<string>, own: set<nat>,
      t: nat, p: seq<string>, k: string, v: Value, w: Value, fuel: nat)
    requires GoesDown(turn, s, without)
    requires Leads(s, own, v, (p + [k])[1..], w) && Follow(s, without, t, p).Some?
    ensures turn(t, (p + [k])[0], v, |p| + fuel) == turn(Follow(s, without, t, p).value, k, w, fuel)
    decreases |p|
  {
    if p != [] {
      var rest := p[1..] + [k];
      assert (p + [k])[1..] == rest && rest[0] in s[v.id];
      AlongTurns(turn, s, without, own, s[t][p[0]].id, p[1..], k, s[v.id][rest[0]], w, fuel);
    }
  }

  lemma {:induction false} FollowStays(s: Store, without: set<string>, t: nat, path: seq<string>)
    requires Whole(s) && t in s && Follow(s, without, t, path).Some?
    ensures Follow(s, without, t, path).value in s
    decreases |path|
  {
    if path != [] {
      assert Within(s[t], s.Keys);
      FollowStays(s, without, s[t][path[0]].id, path[1..]);
    }
  }

  ghost function TurnOf(how: Merger, s: Store): (nat, string, Value, nat) -> Option<Store>
    requires how.Valid() && Whole(s)
  {
    (t: nat, key, v: Value, fuel: nat) =>
      if t in s && (v.Rec? ==> v.id in s) then MergeKey(how, s, t, key, v, fuel) else None
  }

  lemma {:induction false} TurnGoesDown(how: Merger, s: Store)
    requires how.Valid() && Whole(s)
    ensures GoesDown(TurnOf(how, s), s, how.rules.blocked)
  {
    var turn := TurnOf(how, s);
    forall t: nat, key, v: Value, k, fuel: nat
      | IsChild(s, how.rules.blocked, t, key) && v.Rec? && v.id in s && s[v.id].Keys == {k} && k in s[v.id] && fuel > 0
      ensures turn(t, key, v, fuel) == turn(s[t][key].id, k, s[v.id][k], fuel - 1)
    {
      OneTurn(how, s, t, key, v, k, fuel - 1);
    }
  }

  /** Merging a chain along a path of the target is the turn of its last key, at the end of the path. */
  lemma {:induction false} AlongKey(
      how: Merger, s: Store, own: set<nat>, t: nat, p: seq<string>, k: string, v: Value, w: Value, fuel: nat)
    requires how.Valid() && Whole(s) && t in s && (v.Rec? ==> v.id in s) && (w.Rec? ==> w.id in s)
    requires Leads(s, own, v, (p + [k])[1..], w) && Follow(s, how.rules.blocked, t, p).Some?
    ensures Follow(s, how.rules.blocked, t, p).value in s
    ensures MergeKey(how, s, t, (p + [k])[0], v, |p| + fuel)
         == MergeKey(how, s, Follow(s, how.rules.blocked, t, p).value, k, w, fuel)
  {
    TurnGoesDown(how, s);
    FollowStays(s, how.rules.blocked, t, p);
    AlongTurns(TurnOf(how, s), s, how.rules.blocked, own, t, p, k, v, w, fuel);
  }

  lemma {:induction false} LastKey(how: Merger, s: Store, t: nat, key: string, b: nat, fuel: nat)
    requires how.Valid() && Whole(s) && b in s && IsChild(s, how.rules.blocked, t, key)
    ensures s[t][key].id in s && MergeKey(how, s, t, key, Rec(b), fuel) == MergeInto(how, s, s[t][key].id, b, fuel)
  {
    assert Within(s[t], s.Keys);
  }

  lemma {:induction false} PathEnd(s: Store, without: set<string>, t: nat, path: seq<string>)
    requires Whole(s) && t in s && path != [] && Follow(s, without, t, path).Some?
    ensures Follow(s, without, t, path).value in s && Follow(s, without, t, path[..|path| - 1]).Some?
    ensures var e, k := Follow(s, without, t, path[..|path| - 1]).value, path[|path| - 1];
            IsChild(s, without, e, k) && Follow(s, without, t, path) == Some(s[e][k].id)
  {
    var p, k := path[..|path| - 1], path[|path| - 1];
    assert path == p + [k] && [k][1..] == [];
    FollowStays(s, without, t, path);
    FollowSplit(s, without, t, p, [k]);
  }

  /** The same for a chain merged into a record. */
  lemma {:induction false} AlongPath(
      how: Merger, s: Store, own: set<nat>, t: nat, path: seq<string>, v: nat, b: nat, e: nat, fuel: nat)
    requires how.Valid() && Whole(s) && t in s && b in s && v in s && e in s
    requires Leads(s, own, Rec(v), path, Rec(b)) && Follow(s, how.rules.blocked, t, path) == Some(e)
    ensures MergeInto(how, s, t, v, |path| + fuel) == MergeInto(how, s, e, b, fuel)
  {
    if path != [] {
      var p, k := path[..|path| - 1], path[|path| - 1];
      assert path == p + [k];
      PathEnd(s, how.rules.blocked, t, path);
      assert Within(s[v], s.Keys);
      OneKey(how, s, t, v, path[0], |p| + fuel);
      AlongKey(how, s, own, t, p, k, s[v][path[0]], Rec(b), fuel);
      LastKey(how, s, Follow(s, how.rules.blocked, t, p).value, k, b, fuel);
    }
  }

  // ---------------------------------------------------------------- a legacy record that does harm

  ghost predicate OneTextEach(rules: Rules, a: Fields, b: Fields) {
    exists j, j' {:trigger Fills(rules, j), Fills(rules, j')} ::
      a == map[j := Text("")] && b == map[j' := Text("")] && j != j' && Fills(rules, j) && Fills(rules, j')
  }

  /**
   Record `b` holds under two keys two chains which, merged into `m`, lead to the record at
   the end of `p` and `q`, and would put `l` and `l'` there under the same new key `k`.
   */
  datatype Trap = Trap(m: nat, b: nat, p: seq<string>, q: seq<string>, k: string, l: nat, l': nat) {
    function X(): string { (p + [k])[0] }

    function Y(): string { (q + [k])[0] }

    ghost predicate Chained(s: Store, own: set<nat>) {
      && b in s && b !in own && s[b].Keys == {X(), Y()} && X() != Y()
      && Leads(s, own, s[b][X()], (p + [k])[1..], Rec(l)) && Leads(s, own, s[b][Y()], (q + [k])[1..], Rec(l'))
    }

    /** What it would put there are two records of one text each, under different keys. */
    ghost predicate Ended(rules: Rules, s: Store, own: set<nat>) {
      && l in s && l' in s && l !in own && l' !in own
      && OneTextEach(rules, s[l], s[l'])
    }

    ghost predicate Laid(rules: Rules, s: Store, own: set<nat>) {
      && m in own && m in s && Follow(s, rules.blocked, m, p).Some?
          && Follow(s, rules.blocked, m, p) == Follow(s, rules.blocked, m, q)
      && Follow(s, rules.blocked, m, p).value in own && Follow(s, rules.blocked, m, p).value in s
      && k !in p && k !in q && Fills(rules, k) && k !in s[Follow(s, rules.blocked, m, p).value]
    }

    function Turned(): Trap { Trap(m, b, q, p, k, l', l) }
  }

  /** The first chain: `l` is stored in the record at the end. */
  lemma {:induction false} FirstTurn(how: Merger, s: Store, own: set<nat>, a: Trap, fuel: nat)
    requires how.Valid() && Whole(s) && a.Chained(s, own) && a.Ended(how.rules, s, own) && a.Laid(how.rules, s, own)
    ensures var e := Follow(s, how.rules.blocked, a.m, a.p).value;
            MergeKey(how, s, a.m, a.X(), s[a.b][a.X()], |a.p| + fuel) == Some(Filled(s, e, a.k, Rec(a.l)))
  {
    assert Within(s[a.b], s.Keys);
    AlongKey(how, s, own, a.m, a.p, a.k, s[a.b][a.X()], Rec(a.l), fuel);
  }

  /** Where `l` was stored, `l'` is merged into it. */
  lemma {:induction false} FieldMerged(how: Merger, s: Store, e: nat, k: string, l: nat, l': nat, fuel: nat)
    requires how.Valid() && Whole(s) && e in s && k in s[e] && k !in how.rules.blocked && s[e][k] == Rec(l)
    requires l in s && l' in s && OneTextEach(how.rules, s[l], s[l'])
    ensures var r := MergeKey(how, s, e, k, Rec(l'), fuel + 1);
            r.Some? && l in r.value && r.value[l] != s[l]
  {
    var j, j' :| s[l] == map[j := Text("")] && s[l'] == map[j' := Text("")] && j != j' && Fills(how.rules, j)
        && Fills(how.rules, j');
    OneTurn(how, s, e, k, Rec(l'), j', fuel);
    assert j' in Filled(s, l, j', Text(""))[l];
  }

  /** With `l` stored at the end of the paths, the second path and the second chain are as before. */
  lemma {:induction false} AfterFirstTurn(rules: Rules, s: Store, own: set<nat>, a: Trap, s': Store)
    requires Whole(s) && a.Chained(s, own) && a.Ended(rules, s, own) && a.Laid(rules, s, own)
    requires s' == Filled(s, Follow(s, rules.blocked, a.m, a.p).value, a.k, Rec(a.l))
    ensures Whole(s') && Follow(s', rules.blocked, a.m, a.q) == Follow(s, rules.blocked, a.m, a.p)
    ensures Leads(s', own, s[a.b][a.Y()], (a.q + [a.k])[1..], Rec(a.l'))
    ensures s'[a.l] == s[a.l] && s'[a.l'] == s[a.l']
  {
    FollowFilled(s, rules.blocked, a.m, a.q, Follow(s, rules.blocked, a.m, a.p).value, a.k, Rec(a.l));
    LeadsStill(s, s', own, s[a.b][a.Y()], (a.q + [a.k])[1..], Rec(a.l'));
  }

  /** The second chain: it leads to the same record, which now holds `l`, and writes there. */
  lemma {:induction false} SecondTurn(how: Merger, s: Store, own: set<nat>, a: Trap, s': Store, fuel: nat)
    requires how.Valid() && Whole(s) && a.Chained(s, own) && a.Ended(how.rules, s, own) && a.Laid(how.rules, s, own)
    requires s' == Filled(s, Follow(s, how.rules.blocked, a.m, a.p).value, a.k, Rec(a.l)) && Whole(s')
    ensures var r := MergeKey(how, s', a.m, a.Y(), s[a.b][a.Y()], |a.q| + fuel + 1);
            r.Some? && a.l in r.value && r.value[a.l] != s[a.l]
  {
    assert Within(s[a.b], s.Keys);
    AfterFirstTurn(how.rules, s, own, a, s');
    AlongKey(how, s', own, a.m, a.q, a.k, s[a.b][a.Y()], Rec(a.l'), fuel + 1);
    FieldMerged(how, s', Follow(s, how.rules.blocked, a.m, a.p).value, a.k, a.l, a.l', fuel);
  }

  /** When the key of the first chain is listed first, the first chain's record is written. */
  lemma {:induction false} TrapBites(how: Merger, s: Store, own: set<nat>, a: Trap)
    requires how.Valid() && Whole(s) && a.Chained(s, own) && a.Ended(how.rules, s, own) && a.Laid(how.rules, s, own)
    requires how.order(a.b, s[a.b].Keys) == [a.X(), a.Y()]
    ensures var r := MergeInto(how, s, a.m, a.b, |a.p| + |a.q| + 2);
            r.Some? && a.l in r.value && r.value[a.l] != s[a.l]
  {
    TwoKeys(how, s, a.m, a.b, a.X(), a.Y(), |a.p| + |a.q| + 1);
    FirstTurn(how, s, own, a, |a.q| + 1);
    SecondTurn(how, s, own, a, Filled(s, Follow(s, how.rules.blocked, a.m, a.p).value, a.k, Rec(a.l)), |a.p|);
  }

  lemma {:induction false} TurnedTrap(rules: Rules, s: Store, own: set<nat>, a: Trap)
    requires a.Chained(s, own) && a.Ended(rules, s, own) && a.Laid(rules, s, own)
    ensures a.Turned().Chained(s, own) && a.Turned().Ended(rules, s, own) && a.Turned().Laid(rules, s, own)
  {
  }

  /** In either order one of the two records is written. */
  lemma {:induction false} TrapBitesInAnyOrder(how: Merger, s: Store, own: set<nat>, a: Trap)
    requires how.Valid() && Whole(s) && a.Chained(s, own) && a.Ended(how.rules, s, own) && a.Laid(how.rules, s, own)
    ensures var r := MergeInto(how, s, a.m, a.b, |a.p| + |a.q| + 2);
            r.Some? && a.l in r.value && a.l' in r.value && (r.value[a.l] != s[a.l] || r.value[a.l'] != s[a.l'])
  {
    TwoKeysListed(how.order(a.b, s[a.b].Keys), a.X(), a.Y());
    if how.order(a.b, s[a.b].Keys) == [a.X(), a.Y()] {
      TrapBites(how, s, own, a);
    } else {
      TurnedTrap(how.rules, s, own, a);
      TrapBites(how, s, own, a.Turned());
    }
  }

  // ---------------------------------------------------------------- setting the trap

  lemma {:induction false} NewId(ids: set<nat>) returns (id: nat)
    ensures id !in ids
  {
    id := 0;
    var rest := ids;
    while rest != {}
      invariant forall x :: x in ids && x !in rest ==> x < id
      decreases rest
    {
      var x :| x in rest;
      rest := rest - {x};
      id := if x < id then id else x + 1;
    }
  }

  lemma {:induction false} NewKey(keys: set<string>) returns (key: string)
    ensures key !in keys
  {
    key := "";
    var rest := keys;
    while rest != {}
      invariant forall x :: x in keys && x !in rest ==> |x| < |key|
      decreases rest
    {
      var x :| x in rest;
      rest := rest - {x};
      key := if |x| < |key| then key else x + "x";
    }
  }

  ghost predicate Grows(s: Store, s1: Store) {
    forall id {:trigger s[id]} {:trigger s1[id]} :: id in s ==> id in s1 && s1[id] == s[id]
  }

  lemma {:induction false} AddRecord(s: Store, s1: Store, fields: Fields) returns (s2: Store, id: nat)
    requires WithInput(s, s1) && Within(fields, s1.Keys - s.Keys)
    ensures WithInput(s, s2) && Grows(s1, s2) && id !in s1 && id in s2 && id !in s && s2[id] == fields
  {
    id := NewId(s1.Keys);
    s2 := s1[id := fields];
  }

  lemma {:induction false} AddChain(s: Store, s1: Store, path: seq<string>, w: nat) returns (s2: Store, v: nat)
    requires WithInput(s, s1) && w in s1 && w !in s
    ensures WithInput(s, s2) && Grows(s1, s2) && v in s2 && v !in s && Leads(s2, s.Keys, Rec(v), path, Rec(w))
    decreases |path|
  {
    if path == [] {
      s2, v := s1, w;
    } else {
      var s', v' := AddChain(s, s1, path[1..], w);
      s2, v := AddRecord(s, s', map[path[0] := Rec(v')]);
      LeadsStill(s', s2, s.Keys, Rec(v'), path[1..], Rec(w));
    }
  }

  lemma {:induction false} AddEnds(rules: Rules, s: Store) returns (s1: Store, l: nat, l': nat)
    requires Whole(s)
    ensures WithInput(s, s1) && l in s1 && l' in s1 && l !in s && l' !in s
    ensures OneTextEach(rules, s1[l], s1[l'])
  {
    var j := NewKey(rules.blocked + rules.inherited);
    var j' := NewKey(rules.blocked + rules.inherited + {j});
    var s0;
    s0, l := AddRecord(s, s, map[j := Text("")]);
    s1, l' := AddRecord(s, s0, map[j' := Text("")]);
    assert Fills(rules, j) && Fills(rules, j') && s1[l] == s0[l];
  }

  lemma {:induction false} SetTrap(
      rules: Rules, s: Store, m: nat, p: seq<string>, q: seq<string>, k: string) returns (s1: Store, a: Trap)
    requires Whole(s) && (p + [k])[0] != (q + [k])[0]
    ensures WithInput(s, s1) && a.Chained(s1, s.Keys) && a.Ended(rules, s1, s.Keys)
    ensures a.m == m && a.p == p && a.q == q && a.k == k
  {
    var s2, l, l' := AddEnds(rules, s);
    var s3, v := AddChain(s, s2, (p + [k])[1..], l);
    var s4, v' := AddChain(s, s3, (q + [k])[1..], l');
    var b;
    s1, b := AddRecord(s, s4, map[(p + [k])[0] := Rec(v), (q + [k])[0] := Rec(v')]);
    a := Trap(m, b, p, q, k, l, l');
    LeadsStill(s3, s1, s.Keys, Rec(v), (p + [k])[1..], Rec(l));
    LeadsStill(s4, s1, s.Keys, Rec(v'), (q + [k])[1..], Rec(l'));
  }

  lemma {:induction false} TrapStays(rules: Rules, s: Store, s': Store, s1: Store, a: Trap)
    requires WithInput(s, s') && WithInput(s, s1) && Grows(s', s1) && a.Chained(s', s.Keys)
        && a.Ended(rules, s', s.Keys)
    ensures a.Chained(s1, s.Keys) && a.Ended(rules, s1, s.Keys)
  {
    LeadsStill(s', s1, s.Keys, s'[a.b][a.X()], (a.p + [a.k])[1..], Rec(a.l));
    LeadsStill(s', s1, s.Keys, s'[a.b][a.Y()], (a.q + [a.k])[1..], Rec(a.l'));
  }

  /** Two paths to one record part somewhere; `k` is a key that is nowhere on them and not in that record. */
  lemma {:induction false} PathsPart(rules: Rules, s: Store, t: nat, p: seq<string>, q: seq<string>)
    returns (i: nat, m: nat, e: nat, k: string)
    requires Whole(s) && t in s && p != q
    requires Follow(s, rules.blocked, t, p).Some? && Follow(s, rules.blocked, t, p) == Follow(s, rules.blocked, t, q)
    ensures i <= |p| && i <= |q| && Follow(s, rules.blocked, t, p[..i]) == Some(m) && m in s
    ensures Follow(s, rules.blocked, m, p[i..]) == Some(e) && Follow(s, rules.blocked, m, q[i..]) == Some(e) && e in s
    ensures (p[i..] + [k])[0] != (q[i..] + [k])[0] && k !in p[i..] && k !in q[i..] && Fills(rules, k) && k !in s[e]
  {
    FollowStays(s, rules.blocked, t, p);
    e := Follow(s, rules.blocked, t, p).value;
    k := NewKey(s[e].Keys + rules.blocked + rules.inherited + (set x | x in p) + (set x | x in q));
    i := Diverge(p, q, k);
    assert p == p[..i] + p[i..] && q == q[..i] + q[i..];
    FollowSplit(s, rules.blocked, t, p[..i], p[i..]);
    FollowSplit(s, rules.blocked, t, q[..i], q[i..]);
    FollowStays(s, rules.blocked, t, p[..i]);
    m := Follow(s, rules.blocked, t, p[..i]).value;
  }

  lemma {:induction false} LayTrap(
      rules: Rules, s: Store, m: nat, e: nat, p: seq<string>, q: seq<string>, k: string, r: seq<string>)
    returns (s1: Store, a: Trap, source: nat)
    requires Whole(s) && m in s && e in s && (p + [k])[0] != (q + [k])[0]
    requires Follow(s, rules.blocked, m, p) == Some(e) && Follow(s, rules.blocked, m, q) == Some(e)
    requires k !in p && k !in q && Fills(rules, k) && k !in s[e]
    ensures WithInput(s, s1) && source in s1 && source !in s && a.m == m && a.b in s1 && a.l !in s && a.l' !in s
    ensures Leads(s1, s.Keys, Rec(source), r, Rec(a.b))
    ensures a.Chained(s1, s.Keys) && a.Ended(rules, s1, s.Keys) && a.Laid(rules, s1, s.Keys)
  {
    var s';
    s', a := SetTrap(rules, s, m, p, q, k);
    s1, source := AddChain(s, s', r, a.b);
    TrapStays(rules, s, s', s1, a);
    FollowWithInput(s, s1, rules.blocked, m, p);
    FollowWithInput(s, s1, rules.blocked, m, q);
  }

  lemma {:induction false} TrapHarms(how: Merger, s: Store, s1: Store, a: Trap)
    requires how.Valid() && WithInput(s, s1) && a.l !in s && a.l' !in s
    requires a.Chained(s1, s.Keys) && a.Ended(how.rules, s1, s.Keys) && a.Laid(how.rules, s1, s.Keys)
    ensures !InputStays(how, s, s1, a.m, a.b, |a.p| + |a.q| + 2)
  {
    TrapBitesInAnyOrder(how, s1, s.Keys, a);
  }

  lemma {:induction false} HarmIsReached(
      how: Merger, s: Store, s1: Store, t: nat, r: seq<string>, source: nat, m: nat, b: nat, fuel: nat)
    requires how.Valid() && Whole(s) && t in s && WithInput(s, s1) && source in s1 && source !in s && m in s && b in s1
    requires Leads(s1, s.Keys, Rec(source), r, Rec(b)) && Follow(s1, how.rules.blocked, t, r) == Some(m)
    requires !InputStays(how, s, s1, m, b, fuel)
    ensures !NeverWritesInput(how, s, t)
  {
    AlongPath(how, s1, s.Keys, t, r, source, b, m, fuel);
    assert InputStays(how, s, s1, t, source, |r| + fuel) <==> InputStays(how, s, s1, m, b, fuel);
  }

  /** With one record at the end of two paths, some legacy record is merged by writing into the input. */
  lemma {:induction false} SharedTargetIsUnsafe(how: Merger, s: Store, t: nat)
    requires how.Valid() && Whole(s) && t in s && Shared(s, how.rules.blocked, t)
    ensures !NeverWritesInput(how, s, t)
  {
    var p, q :| p != q && Follow(s, how.rules.blocked, t, p).Some?
                && Follow(s, how.rules.blocked, t, p) == Follow(s, how.rules.blocked, t, q);
    var i, m, e, k := PathsPart(how.rules, s, t, p, q);
    var s1, a, source := LayTrap(how.rules, s, m, e, p[i..], q[i..], k, p[..i]);
    FollowWithInput(s, s1, how.rules.blocked, t, p[..i]);
    TrapHarms(how, s, s1, a);
    HarmIsReached(how, s, s1, t, p[..i], source, m, a.b, |a.p| + |a.q| + 2);
  }

  /**
   Every legacy record leaves every record of the input alone exactly if the target reaches none of
   its records twice.
   */
  lemma {:induction false} InputStaysExactly(how: Merger, s: Store, t: nat)
    requires how.Valid() && Whole(s) && t in s
    ensures NeverWritesInput(how, s, t) <==> !Shared(s, how.rules.blocked, t)
  {
    if Shared(s, how.rules.blocked, t) {
      SharedTargetIsUnsafe(how, s, t);
    } else {
      forall s1: Store, source: nat, fuel: nat | WithInput(s, s1) && source in s1 && source !in s
        ensures InputStays(how, s, s1, t, source, fuel)
      {
        UnsharedTargetIsSafe(how, s, s1, t, source, fuel);
      }
    }
  }

  // ---------------------------------------------------------------- one such input

  /**
   Records 0 to 3 and 5 are the input: the legacy record 5 is {a: {x: {}}, b: {x: {q}}}. The
   target 6 has one record, 4, under both keys.
   */
  const SHARED: Store := map[
    0 := map["q" := Text("1")], 1 := map["x" := Rec(0)], 2 := map[], 3 := map["x" := Rec(2)], 4 := map[],
    5 := map["a" := Rec(3), "b" := Rec(1)], 6 := map["a" := Rec(4), "b" := Rec(4)]
  ]

  lemma {:induction false} SharedRecordIsSeen()
    ensures Whole(SHARED) && Shared(SHARED, RULES.blocked, 6)
  {
    var s, without := SHARED, RULES.blocked;
    assert "a" !in without && "b" !in without;
    assert Follow(s, without, 4, []) == Some(4);
    assert ["a"][1..] == [] && ["b"][1..] == [] && ["a"][0] != ["b"][0];
    assert Follow(s, without, 6, ["a"]) == Some(4) && Follow(s, without, 6, ["b"]) == Some(4);
  }

  lemma {:induction false} ShortKeysFill()
    ensures forall key :: key in {"a", "b", "x", "q"} ==> Fills(RULES, key)
  {
    assert |"a"| == 1 && |"b"| == 1 && |"x"| == 1 && |"q"| == 1;
  }

  /** Merging 3 into 4, for the key a: record 4 gets the input's record 2 under x. */
  lemma {:induction false} TurnForA(how: Merger)
    requires how.Valid() && how.rules == RULES && Whole(SHARED)
    ensures MergeKey(how, SHARED, 6, "a", Rec(3), 3) == Some(Filled(SHARED, 4, "x", Rec(2)))
  {
    ShortKeysFill();
    OneTurn(how, SHARED, 6, "a", Rec(3), "x", 2);
  }

  lemma {:induction false} TextTurn(how: Merger, s: Store, id: nat, key: string, text: string, fuel: nat)
    requires how.Valid() && Whole(s) && id in s && key !in s[id] && Fills(how.rules, key)
    ensures MergeKey(how, s, id, key, Text(text), fuel) == Some(Filled(s, id, key, Text(text)))
  {
  }

  /** Merging 1 into 4, for the key b: what record 4 has under x is the input's record 2. */
  lemma {:induction false} TurnForB(how: Merger, s: Store)
    requires how.Valid() && how.rules == RULES && Whole(s) && s == Filled(SHARED, 4, "x", Rec(2))
    ensures MergeKey(how, s, 6, "b", Rec(1), 3) == Some(Filled(s, 2, "q", Text("1")))
  {
    ShortKeysFill();
    OneTurn(how, s, 6, "b", Rec(1), "x", 2);
    OneTurn(how, s, 4, "x", Rec(0), "q", 1);
    TextTurn(how, s, 2, "q", "1", 1);
  }

  /** Merging 5 into 6, a before b, record 2 of the input gets a field. */
  lemma {:induction false} SharedRecordIsWritten(how: Merger)
    requires how.Valid() && how.rules == RULES && how.order(5, {"a", "b"}) == ["a", "b"]
    ensures Whole(SHARED) && SHARED[2] == map[]
    ensures var r := MergeInto(how, SHARED, 6, 5, 4);
            r.Some? && 2 in r.value && r.value[2] == map["q" := Text("1")]
  {
    SharedRecordIsSeen();
    TwoKeys(how, SHARED, 6, 5, "a", "b", 3);
    TurnForA(how);
    TurnForB(how, MergeKey(how, SHARED, 6, "a", Rec(3), 3).value);
  }
}
