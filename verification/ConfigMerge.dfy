/**
 Merging legacy discovery settings into a plugin configuration, and the migration that does
 so (extensions/amazon-bedrock/config-compat.ts), on configuration values.
 */
module ConfigMerge {
  import opened Prelude

  /** A configuration value; everything that is not a plain record is a leaf. */
  datatype Json = Leaf(text: string) | Object(fields: map<string, Json>)

  /** Keys that are never merged, and names every record inherits. */
  datatype Rules = Rules(blocked: set<string>, inherited: set<string>)

  const RULES := Rules(
    {"__proto__", "prototype", "constructor"},
    {
      "toString", "toLocaleString", "valueOf", "hasOwnProperty", "isPrototypeOf", "propertyIsEnumerable",
      "__defineGetter__", "__defineSetter__", "__lookupGetter__", "__lookupSetter__"
    })

  /** Whether a key the target lacks is taken from the legacy record: reading an inherited name finds something. */
  predicate Fills(rules: Rules, key: string) {
    key !in rules.blocked && key !in rules.inherited
  }

  function Merge(rules: Rules, target: Json, legacy: Json): (r: Json)
    requires target.Object? && legacy.Object?
    ensures r.Object?
    decreases legacy
  {
    var t, l := target.fields, legacy.fields;
    Object(
      map key | key in t.Keys + (set k | k in l.Keys && Fills(rules, k)) ::
        if key !in t then l[key]
        else if key in l && key !in rules.blocked && t[key].Object? && l[key].Object? then Merge(rules, t[key], l[key])
        else t[key])
  }

  // ---------------------------------------------------------------- at every path

  /** The value at a path of keys. */
  function At(json: Json, path: seq<string>): Option<Json>
    decreases |path|
  {
    if path == [] then Some(json)
    else if json.Object? && path[0] in json.fields then At(json.fields[path[0]], path[1..])
    else None
  }

  /** What the target says at a path stays. */
  lemma {:induction false} TargetStays(rules: Rules, target: Json, legacy: Json, path: seq<string>)
    requires target.Object? && legacy.Object? && At(target, path).Some?
    ensures At(Merge(rules, target, legacy), path).Some?
    ensures At(target, path).value.Leaf? ==> At(Merge(rules, target, legacy), path) == At(target, path)
    ensures At(target, path).value.Object? ==> At(Merge(rules, target, legacy), path).value.Object?
    decreases |path|
  {
    if path != [] {
      var key := path[0];
      var t := target.fields[key];
      if key in legacy.fields && key !in rules.blocked && t.Object? && legacy.fields[key].Object? {
        TargetStays(rules, t, legacy.fields[key], path[1..]);
      }
    }
  }

  /** A path along which the target's records end at a key that may be filled. */
  predicate Open(rules: Rules, target: Json, path: seq<string>)
    decreases |path|
  {
    && path != [] && target.Object?
    && if path[0] in target.fields then path[0] !in rules.blocked && Open(rules, target.fields[path[0]], path[1..])
       else Fills(rules, path[0])
  }

  /** What the target lacks comes from the legacy record, exactly along open paths, and nothing else appears. */
  lemma {:induction false} LegacyFills(rules: Rules, target: Json, legacy: Json, path: seq<string>)
    requires target.Object? && legacy.Object? && At(target, path).None?
    ensures At(Merge(rules, target, legacy), path) == if Open(rules, target, path) then At(legacy, path) else None
    decreases |path|
  {
    var key := path[0];
    if key in target.fields {
      var t := target.fields[key];
      if key in legacy.fields && key !in rules.blocked && t.Object? && legacy.fields[key].Object? {
        LegacyFills(rules, t, legacy.fields[key], path[1..]);
      } else if t.Object? && key in legacy.fields && legacy.fields[key].Leaf? {
        assert path[1..] != [];
      }
    }
  }

  /** Merging again changes nothing. */
  lemma {:induction false} MergeTwice(rules: Rules, target: Json, legacy: Json)
    requires target.Object? && legacy.Object?
    ensures Merge(rules, Merge(rules, target, legacy), legacy) == Merge(rules, target, legacy)
    decreases legacy
  {
    var once := Merge(rules, target, legacy);
    var twice := Merge(rules, once, legacy);
    assert twice.fields.Keys == once.fields.Keys;
    forall key | key in once.fields ensures twice.fields[key] == once.fields[key] {
      if key in legacy.fields && key !in rules.blocked && legacy.fields[key].Object? && once.fields[key].Object? {
        if key in target.fields {
          MergeTwice(rules, target.fields[key], legacy.fields[key]);
        } else {
          MergeWithItself(rules, legacy.fields[key]);
        }
      }
    }
  }

  lemma {:induction false} MergeWithItself(rules: Rules, json: Json)
    requires json.Object?
    ensures Merge(rules, json, json) == json
    decreases json
  {
    var r := Merge(rules, json, json);
    assert r.fields.Keys == json.fields.Keys;
    forall key | key in json.fields ensures r.fields[key] == json.fields[key] {
      if json.fields[key].Object? {
        MergeWithItself(rules, json.fields[key]);
      }
    }
  }

  // ---------------------------------------------------------------- the migration

  const MODELS := "models"
  const DISCOVERY := "bedrockDiscovery"

  /** Where the plugin keeps its discovery settings. */
  const TARGET_PATH: seq<string> := ["plugins", "entries", "amazon-bedrock", "config", "discovery"]

  function GetRecord(json: Json, key: string): Option<Json> {
    if json.Object? && key in json.fields && json.fields[key].Object? then Some(json.fields[key]) else None
  }

  /** The record under a key; an empty one where there is none. */
  function EnsuredRecord(json: Json, key: string): (r: Json)
    ensures r.Object?
  {
    if json.Object? && key in json.fields && json.fields[key].Object? then json.fields[key] else Object(map[])
  }

  function LegacyDiscovery(raw: Json): Option<Json> {
    match GetRecord(raw, MODELS)
    case None => None
    case Some(models) => GetRecord(models, DISCOVERY)
  }

  /** The configuration without the legacy settings, nor the record that held nothing else. */
  function WithoutLegacy(raw: Json): (r: Json)
    requires LegacyDiscovery(raw).Some?
    ensures r.Object?
  {
    var models := raw.fields[MODELS].fields - {DISCOVERY};
    Object(if models == map[] then raw.fields - {MODELS} else raw.fields[MODELS := Object(models)])
  }

  /** Set the value at a path, with records along it. */
  function SetAt(json: Json, path: seq<string>, value: Json): Json
    requires json.Object? || path == []
    decreases |path|
  {
    if path == [] then value
    else if |path| == 1 then Object(json.fields[path[0] := value])
    else Object(json.fields[path[0] := SetAt(EnsuredRecord(json, path[0]), path[1..], value)])
  }

  function RecordAt(json: Json, path: seq<string>): Option<Json>
    decreases |path|
  {
    match At(json, path)
    case None => None
    case Some(value) => if value.Object? then Some(value) else None
  }

  function Migrate(rules: Rules, raw: Json): Json {
    match LegacyDiscovery(raw)
    case None => raw
    case Some(legacy) =>
      var next := WithoutLegacy(raw);
      if legacy.fields == map[] then next
      else
        match RecordAt(next, TARGET_PATH)
        case None => SetAt(next, TARGET_PATH, legacy)
        case Some(existing) => SetAt(next, TARGET_PATH, Merge(rules, existing, legacy))
  }

  lemma {:induction false} SetAtReads(json: Json, path: seq<string>, value: Json)
    requires json.Object? || path == []
    ensures At(SetAt(json, path, value), path) == Some(value)
    decreases |path|
  {
    if |path| == 1 {
      assert path[1..] == [];
    } else if path != [] {
      SetAtReads(EnsuredRecord(json, path[0]), path[1..], value);
    }
  }

  predicate Apart(a: seq<string>, b: seq<string>) {
    !(a <= b) && !(b <= a)
  }

  /** Only what lies on the path changes. */
  lemma {:induction false} SetAtKeepsOthers(json: Json, path: seq<string>, value: Json, other: seq<string>)
    requires json.Object? && Apart(path, other)
    ensures At(SetAt(json, path, value), other) == At(json, other)
    decreases |path|
  {
    assert path != [] && other != [];
    if path[0] == other[0] {
      assert path == [path[0]] + path[1..] && other == [other[0]] + other[1..];
      assert Apart(path[1..], other[1..]);
      SetAtKeepsOthers(EnsuredRecord(json, path[0]), path[1..], value, other[1..]);
    }
  }

  lemma {:induction false} WithoutLegacyKeepsOthers(raw: Json, other: seq<string>)
    requires LegacyDiscovery(raw).Some? && Apart([MODELS, DISCOVERY], other) && other != [MODELS]
    ensures At(WithoutLegacy(raw), other) == At(raw, other)
  {
    assert other != [];
    if other[0] == MODELS {
      assert other[1..] != [] && other == [MODELS] + other[1..];
      assert other[1] == DISCOVERY ==> [MODELS, DISCOVERY] <= other;
      var models := raw.fields[MODELS].fields;
      assert other[1] in models ==> other[1] in models - {DISCOVERY};
      assert At(raw, other) == At(raw.fields[MODELS], other[1..]);
    }
  }

  /** The legacy settings are gone, and stay gone when the target is written. */
  lemma {:induction false} LegacyIsGone(rules: Rules, raw: Json)
    ensures LegacyDiscovery(Migrate(rules, raw)) == None
  {
    if LegacyDiscovery(raw).Some? {
      var next := WithoutLegacy(raw);
      assert LegacyDiscovery(next) == None;
      assert TARGET_PATH[0] != MODELS;
    }
  }

  /** Migrating twice is migrating once. */
  lemma {:induction false} MigrateTwice(rules: Rules, raw: Json)
    ensures Migrate(rules, Migrate(rules, raw)) == Migrate(rules, raw)
  {
    LegacyIsGone(rules, raw);
  }

  /** Where the legacy settings end up: merged under what the plugin has, or moved as they are. */
  lemma {:induction false} SettingsMove(rules: Rules, raw: Json, legacy: Json)
    requires LegacyDiscovery(raw) == Some(legacy) && legacy.fields != map[]
    ensures At(Migrate(rules, raw), TARGET_PATH) ==
            match RecordAt(raw, TARGET_PATH) {
              case None => Some(legacy)
              case Some(existing) => Some(Merge(rules, existing, legacy))
            }
  {
    var next := WithoutLegacy(raw);
    assert TARGET_PATH[0] != MODELS;
    assert Apart([MODELS, DISCOVERY], TARGET_PATH);
    WithoutLegacyKeepsOthers(raw, TARGET_PATH);
    SetAtReads(next, TARGET_PATH, legacy);
    if RecordAt(next, TARGET_PATH).Some? {
      SetAtReads(next, TARGET_PATH, Merge(rules, RecordAt(next, TARGET_PATH).value, legacy));
    }
  }

  /** Everything off the two paths stays as it was. */
  lemma {:induction false} NothingElseChanges(rules: Rules, raw: Json, other: seq<string>)
    requires Apart(TARGET_PATH, other) && Apart([MODELS, DISCOVERY], other) && other != [MODELS]
    ensures At(Migrate(rules, raw), other) == At(raw, other)
  {
    var legacy := LegacyDiscovery(raw);
    if legacy.Some? {
      var next := WithoutLegacy(raw);
      WithoutLegacyKeepsOthers(raw, other);
      if legacy.value.fields != map[] {
        var existing := RecordAt(next, TARGET_PATH);
        var value := if existing.Some? then Merge(rules, existing.value, legacy.value) else legacy.value;
        SetAtKeepsOthers(next, TARGET_PATH, value, other);
      }
    }
  }

  /** The record the legacy settings were in keeps its other settings, and goes when it has none. */
  lemma {:induction false} ModelsKeepTheRest(rules: Rules, raw: Json, models: Json)
    requires LegacyDiscovery(raw).Some? && At(raw, [MODELS]) == Some(models)
    ensures models.Object?
    ensures var rest := map key | key in models.fields && key != "bedrockDiscovery" :: models.fields[key];
            At(Migrate(rules, raw), ["models"]) == if rest == map[] then None else Some(Object(rest))
  {
    var next, rest := WithoutLegacy(raw), models.fields - {DISCOVERY};
    assert models == raw.fields[MODELS] && [MODELS][1..] == [];
    assert rest == map key | key in models.fields && key != "bedrockDiscovery" :: models.fields[key];
    assert At(next, [MODELS]) == if rest == map[] then None else Some(Object(rest));
    if LegacyDiscovery(raw).value.fields != map[] {
      var legacy, existing := LegacyDiscovery(raw).value, RecordAt(next, TARGET_PATH);
      assert TARGET_PATH[0] != MODELS;
      assert Apart(TARGET_PATH, [MODELS]);
      var settings := if existing.Some? then Merge(rules, existing.value, legacy) else legacy;
      SetAtKeepsOthers(next, TARGET_PATH, settings, [MODELS]);
    }
  }

  /** Without legacy settings nothing changes; empty ones are taken out, and the plugin's settings stay as they are. */
  lemma {:induction false} NothingToMove(rules: Rules, raw: Json)
    ensures LegacyDiscovery(raw).None? ==> Migrate(rules, raw) == raw
    ensures LegacyDiscovery(raw) == Some(Object(map[])) ==>
              forall path :: path != [] && path[0] != "models" ==> At(Migrate(rules, raw), path) == At(raw, path)
  {
  }

  method EnsureRecord(json: Json, key: string) returns (r: Json)
    ensures r == EnsuredRecord(json, key)
  {
    r := Object(map[]);
    if json.Object? && key in json.fields && json.fields[key].Object? {
      r := json.fields[key];
    }
  }

  function WithField(json: Json, key: string, value: Json): Json
    requires json.Object?
  {
    Object(json.fields[key := value])
  }

  lemma {:induction false} SetAtStep(json: Json, key: string, rest: seq<string>, value: Json)
    requires json.Object? && rest != []
    ensures SetAt(json, [key] + rest, value) == WithField(json, key, SetAt(EnsuredRecord(json, key), rest, value))
  {
    assert ([key] + rest)[1..] == rest;
  }

  lemma {:induction false} SetAtLast(json: Json, key: string, value: Json)
    requires json.Object?
    ensures SetAt(json, [key], value) == WithField(json, key, value)
  {
  }

  lemma {:induction false} RecordAtStep(json: Json, key: string, rest: seq<string>)
    requires json.Object? && rest != []
    ensures RecordAt(json, [key] + rest) == RecordAt(EnsuredRecord(json, key), rest)
  {
    assert ([key] + rest)[1..] == rest;
    if key in json.fields && json.fields[key].Leaf? {
      assert At(json.fields[key], rest) == None;
    }
  }

  lemma {:induction false} RecordAtLast(json: Json, key: string)
    requires json.Object?
    ensures RecordAt(json, [key]) == GetRecord(json, key)
  {
    assert [key][1..] == [];
    if key in json.fields {
      assert At(json, [key]) == At(json.fields[key], []) == Some(json.fields[key]);
    }
  }

  /** The migration: records along the path are made where they are missing. */
  method MigrateLegacyConfig(rules: Rules, raw: Json) returns (config: Json)
    ensures config == Migrate(rules, raw)
  {
    var legacy := LegacyDiscovery(raw);
    if legacy.None? {
      return raw;
    }
    var models := Object(raw.fields[MODELS].fields - {DISCOVERY});
    var nextRoot := if models.fields == map[] then Object(raw.fields - {MODELS}) else WithField(raw, MODELS, models);
    assert nextRoot == WithoutLegacy(raw);
    if legacy.value.fields == map[] {
      return nextRoot;
    }
    config := SetDiscovery(rules, nextRoot, legacy.value);
  }

  method SetDiscovery(rules: Rules, root: Json, legacy: Json) returns (r: Json)
    requires root.Object? && legacy.Object?
    ensures r == SetAt(root, TARGET_PATH,
                       match RecordAt(root, TARGET_PATH) {
                         case None => legacy
                         case Some(existing) => Merge(rules, existing, legacy)
                       })
  {
    var plugins := EnsureRecord(root, "plugins");
    var entries := EnsureRecord(plugins, "entries");
    var entry := EnsureRecord(entries, "amazon-bedrock");
    var config := EnsureRecord(entry, "config");
    var existing := GetRecord(config, "discovery");
    var discovery := if existing.Some? then Merge(rules, existing.value, legacy) else legacy;
    TargetPathUnfolds(root, plugins, entries, entry, config, discovery);
    config := WithField(config, "discovery", discovery);
    entry := WithField(entry, "config", config);
    entries := WithField(entries, "amazon-bedrock", entry);
    plugins := WithField(plugins, "entries", entries);
    r := WithField(root, "plugins", plugins);
  }

  lemma {:induction false} TargetPathUnfolds(
      root: Json, plugins: Json, entries: Json, entry: Json, config: Json, discovery: Json)
    requires root.Object? && plugins == EnsuredRecord(root, "plugins") && entries == EnsuredRecord(plugins, "entries")
    requires entry == EnsuredRecord(entries, "amazon-bedrock") && config == EnsuredRecord(entry, "config")
    ensures RecordAt(root, TARGET_PATH) == GetRecord(config, "discovery")
    ensures SetAt(root, TARGET_PATH, discovery) ==
            WithField(root, "plugins", WithField(plugins, "entries", WithField(entries, "amazon-bedrock",
              WithField(entry, "config", WithField(config, "discovery", discovery)))))
  {
    var p4 := ["discovery"];
    var p3 := ["config"] + p4;
    var p2 := ["amazon-bedrock"] + p3;
    var p1 := ["entries"] + p2;
    assert TARGET_PATH == ["plugins"] + p1;
    SetAtStep(root, "plugins", p1, discovery);
    SetAtStep(plugins, "entries", p2, discovery);
    SetAtStep(entries, "amazon-bedrock", p3, discovery);
    SetAtStep(entry, "config", p4, discovery);
    SetAtLast(config, "discovery", discovery);
    RecordAtStep(root, "plugins", p1);
    RecordAtStep(plugins, "entries", p2);
    RecordAtStep(entries, "amazon-bedrock", p3);
    RecordAtStep(entry, "config", p4);
    RecordAtLast(config, "discovery");
  }
}
