/** Moving the legacy Bedrock discovery settings to their new place, without changing what they mean. */
module BedrockConfig {

  /** A configuration value; lists count as atoms. A field may be present with the value `undefined`. */
  datatype Json = Undefined | Atom(value: string) | Record(fields: map<string, Json>)

  type Path = seq<string>

  const EMPTY := Record(map[])
  const BLOCKED_OBJECT_KEYS: set<string> := {"__proto__", "prototype", "constructor"}

  /** `record[key]`. */
  function Read(r: Json, key: string): Json {
    if r.Record? && key in r.fields then r.fields[key] else Undefined
  }

  function ReadPath(r: Json, path: Path): Json
    decreases |path|
  {
    if path == [] then r else ReadPath(Read(r, path[0]), path[1..])
  }

  function Set(r: Json, key: string, value: Json): Json
    requires r.Record?
  {
    Record(r.fields[key := value])
  }

  function Delete(r: Json, key: string): Json
    requires r.Record?
  {
    Record(r.fields - {key})
  }

  // ----- mergeMissing

  /** The fields taken over from the source: present, not blocked, and missing in the target. */
  predicate Fills(target: Json, source: Json, key: string) {
    Read(source, key) != Undefined && key !in BLOCKED_OBJECT_KEYS && Read(target, key) == Undefined
  }

  predicate Descends(target: Json, source: Json, key: string) {
    Read(source, key).Record? && key !in BLOCKED_OBJECT_KEYS && Read(target, key).Record?
  }

  function MergedField(target: Json, source: Json, key: string): Json
    requires target.Record? && source.Record?
    decreases source, 0
  {
    if Fills(target, source, key) then Read(source, key)
    else if Descends(target, source, key) then Merge(Read(target, key), Read(source, key))
    else Read(target, key)
  }

  function Merge(target: Json, source: Json): (r: Json)
    requires target.Record? && source.Record?
    ensures r.Record?
    decreases source, 1
  {
    Record(map key | key in target.fields.Keys + source.fields.Keys && (key in target.fields || Fills(target, source, key)) ::
             MergedField(target, source, key))
  }

  /** The loop over the source's fields; each is settled before the next, in any order. */
  method MergeMissing(target: Json, source: Json) returns (merged: Json)
    requires target.Record? && source.Record?
    ensures merged == Merge(target, source)
    decreases source
  {
    merged := target;
    var keys := source.fields.Keys;
    while keys != {}
      invariant keys <= source.fields.Keys && merged.Record?
      invariant forall k :: k in merged.fields <==> k in target.fields || (k !in keys && Fills(target, source, k))
      invariant forall k :: k in merged.fields ==>
        merged.fields[k] == if k in keys then Read(target, k) else MergedField(target, source, k)
    {
      var key :| key in keys;
      keys := keys - {key};
      var value := source.fields[key];
      if value == Undefined || key in BLOCKED_OBJECT_KEYS {
        continue;
      }
      var existing := Read(merged, key);
      if existing == Undefined {
        merged := Set(merged, key, value);
        continue;
      }
      if existing.Record? && value.Record? {
        var nested := MergeMissing(existing, value);
        merged := Set(merged, key, nested);
      }
    }
  }

  lemma ReadMerge(target: Json, source: Json, key: string)
    requires target.Record? && source.Record?
    ensures Read(Merge(target, source), key) == MergedField(target, source, key)
  {
  }

  /** A merge, field by field: a blocked field, or one the source does not have, stays as it is; one that is missing
      is taken over whole; two records are merged; any other field keeps its value. No other field appears. */
  lemma MergeFieldByField(target: Json, source: Json, key: string)
    requires target.Record? && source.Record?
    ensures key in BLOCKED_OBJECT_KEYS || Read(source, key) == Undefined ==>
      Read(Merge(target, source), key) == Read(target, key) && (key in Merge(target, source).fields <==> key in target.fields)
    ensures key !in BLOCKED_OBJECT_KEYS && Read(source, key) != Undefined ==>
      && key in Merge(target, source).fields
      && Read(Merge(target, source), key) ==
           (if Read(target, key) == Undefined then Read(source, key)
            else if Read(target, key).Record? && Read(source, key).Record? then Merge(Read(target, key), Read(source, key))
            else Read(target, key))
  {
    ReadMerge(target, source, key);
  }

  /** What a path leads to when it ends at a value that is there and is not a record. */
  predicate IsLeaf(j: Json) {
    j.Atom?
  }

  /** Some proper part of the path, or the path itself, ends at a defined value that is no record. */
  predicate Shadowed(target: Json, path: Path)
    decreases |path|
  {
    target.Atom? || (path != [] && Shadowed(Read(target, path[0]), path[1..]))
  }

  predicate Unblocked(path: Path) {
    forall i :: 0 <= i < |path| ==> path[i] !in BLOCKED_OBJECT_KEYS
  }

  /** Merging never changes a value that is already set. */
  lemma {:induction false} MergeKeepsLeaves(target: Json, source: Json, path: Path)
    requires target.Record? && source.Record? && IsLeaf(ReadPath(target, path))
    ensures ReadPath(Merge(target, source), path) == ReadPath(target, path)
    decreases |path|
  {
    if path != [] {
      ReadMerge(target, source, path[0]);
      if Descends(target, source, path[0]) {
        MergeKeepsLeaves(Read(target, path[0]), Read(source, path[0]), path[1..]);
      } else if Fills(target, source, path[0]) {
        UndefinedPath(path[1..]);
      }
    }
  }

  lemma {:induction false} UndefinedPath(path: Path)
    ensures ReadPath(Undefined, path) == Undefined
  {
    if path != [] {
      UndefinedPath(path[1..]);
    }
  }

  lemma {:induction false} AtomPath(j: Json, path: Path)
    requires !j.Record? && path != []
    ensures ReadPath(j, path) == Undefined
  {
    UndefinedPath(path[1..]);
  }

  /** Merging brings in every value of the source, along unblocked keys, unless the target has a value there
      or on the way. */
  lemma {:induction false} MergeFillsLeaves(target: Json, source: Json, path: Path)
    requires target.Record? && source.Record? && Unblocked(path) && IsLeaf(ReadPath(source, path))
    ensures ReadPath(Merge(target, source), path) ==
      if Shadowed(target, path) || ReadPath(target, path).Record? then ReadPath(target, path) else ReadPath(source, path)
    decreases |path|
  {
    if path != [] {
      var key, rest := path[0], path[1..];
      ReadMerge(target, source, key);
      if Read(source, key) == Undefined {
        UndefinedPath(rest);
      } else if Read(target, key).Record? {
        if rest != [] {
          if !Read(source, key).Record? {
            AtomPath(Read(source, key), rest);
          } else {
            MergeFillsLeaves(Read(target, key), Read(source, key), rest);
            assert Shadowed(target, path) <==> Shadowed(Read(target, key), rest);
          }
        } else {
          assert ReadPath(source, path) == Read(source, key) && ReadPath(target, path) == Read(target, key);
        }
      } else if Read(target, key) == Undefined {
        NotShadowed(rest);
        UndefinedPath(rest);
      }
    }
  }

  lemma {:induction false} NotShadowed(path: Path)
    ensures !Shadowed(Undefined, path)
  {
    if path != [] {
      NotShadowed(path[1..]);
    }
  }

  /** Merging the same source again changes nothing. */
  lemma {:induction false} MergeIdempotent(target: Json, source: Json)
    requires target.Record? && source.Record?
    ensures Merge(Merge(target, source), source) == Merge(target, source)
    decreases source
  {
    var once := Merge(target, source);
    forall key | key in once.fields ensures MergedField(once, source, key) == once.fields[key] {
      ReadMerge(target, source, key);
      if Descends(target, source, key) {
        MergeIdempotent(Read(target, key), Read(source, key));
      } else if Fills(target, source, key) && Read(source, key).Record? {
        MergeSelf(Read(source, key));
      }
    }
  }

  lemma {:induction false} MergeSelf(r: Json)
    requires r.Record?
    ensures Merge(r, r) == r
    decreases r
  {
    forall key | key in r.fields ensures MergedField(r, r, key) == r.fields[key] {
      if Descends(r, r, key) {
        MergeSelf(Read(r, key));
      }
    }
  }

  /** The target has every field that merging would take over, at every depth where both have records. */
  predicate Covered(target: Json, source: Json)
    requires target.Record? && source.Record?
    decreases source
  {
    forall key :: key in source.fields ==>
      !Fills(target, source, key) && (Descends(target, source, key) ==> Covered(Read(target, key), Read(source, key)))
  }

  /** Merging changes nothing exactly when there is nothing to take over. */
  lemma {:induction false} MergeChangesNothing(target: Json, source: Json)
    requires target.Record? && source.Record?
    ensures Merge(target, source) == target <==> Covered(target, source)
    decreases source
  {
    forall key | key in source.fields && Descends(target, source, key)
      ensures Merge(Read(target, key), Read(source, key)) == Read(target, key) <==> Covered(Read(target, key), Read(source, key))
    {
      MergeChangesNothing(Read(target, key), Read(source, key));
    }
    var merged := Merge(target, source);
    if Covered(target, source) {
      forall key ensures key in merged.fields <==> key in target.fields {
      }
      forall key | key in target.fields ensures merged.fields[key] == target.fields[key] {
        ReadMerge(target, source, key);
      }
    }
    if merged == target {
      forall key | key in source.fields
        ensures !Fills(target, source, key) && (Descends(target, source, key) ==> Covered(Read(target, key), Read(source, key)))
      {
        ReadMerge(target, source, key);
      }
    }
  }

  // ----- the migration

  const LEGACY: Path := ["models", "bedrockDiscovery"]
  const TARGET: Path := ["plugins", "entries", "amazon-bedrock", "config", "discovery"]

  function EnsureRecord(r: Json, key: string): Json {
    if Read(r, key).Record? then Read(r, key) else EMPTY
  }

  /** The root with the value written at the path, through records made where there are none. */
  function Write(root: Json, path: Path, value: Json): Json
    requires root.Record? && path != []
    decreases |path|
  {
    if |path| == 1 then Set(root, path[0], value)
    else Set(root, path[0], Write(EnsureRecord(root, path[0]), path[1..], value))
  }

  /** `models.bedrockDiscovery`. */
  function Legacy(root: Json): Json {
    Read(Read(root, "models"), "bedrockDiscovery")
  }

  function RemoveLegacy(root: Json): (r: Json)
    requires root.Record? && Read(root, "models").Record?
    ensures r.Record?
  {
    var models := Delete(Read(root, "models"), "bedrockDiscovery");
    if models.fields == map[] then Delete(root, "models") else Set(root, "models", models)
  }

  function Migrate(root: Json): Json {
    var legacy := Legacy(root);
    if !legacy.Record? then root
    else
      var next := RemoveLegacy(root);
      if legacy.fields == map[] then next
      else
        var existing := ReadPath(next, TARGET);
        Write(next, TARGET, if existing.Record? then Merge(existing, legacy) else legacy)
  }

  /** The migration as it goes: clone, take the legacy settings out, make way for the new ones, merge. */
  method MigrateAmazonBedrockLegacyConfig(raw: Json) returns (config: Json, changed: bool)
    ensures config == Migrate(raw) && (changed <==> Legacy(raw).Record?)
  {
    if !raw.Record? || !Read(raw, "models").Record? || !Legacy(raw).Record? {
      return raw, false;
    }
    var legacy := Legacy(raw);
    var models := Delete(Read(raw, "models"), "bedrockDiscovery");
    config := if models.fields == map[] then Delete(raw, "models") else Set(raw, "models", models);
    if legacy.fields == map[] {
      return config, true;
    }
    var plugins := EnsureRecord(config, "plugins");
    var entries := EnsureRecord(plugins, "entries");
    var entry := EnsureRecord(entries, "amazon-bedrock");
    var pluginConfig := EnsureRecord(entry, "config");
    var discovery := legacy;
    if Read(pluginConfig, "discovery").Record? {
      discovery := MergeMissing(Read(pluginConfig, "discovery"), legacy);
    }
    TargetSteps(config, discovery);
    pluginConfig := Set(pluginConfig, "discovery", discovery);
    config := Set(config, "plugins", Set(plugins, "entries", Set(entries, "amazon-bedrock", Set(entry, "config", pluginConfig))));
    changed := true;
  }

  lemma TargetSteps(root: Json, value: Json)
    requires root.Record?
    ensures var plugins := EnsureRecord(root, "plugins");
      var entries := EnsureRecord(plugins, "entries");
      var entry := EnsureRecord(entries, "amazon-bedrock");
      var config := EnsureRecord(entry, "config");
      && Write(root, TARGET, value) == Set(root, "plugins", Set(plugins, "entries",
           Set(entries, "amazon-bedrock", Set(entry, "config", Set(config, "discovery", value)))))
      && (Read(config, "discovery").Record? ==> ReadPath(root, TARGET) == Read(config, "discovery"))
      && (ReadPath(root, TARGET).Record? ==> ReadPath(root, TARGET) == Read(config, "discovery"))
  {
    assert TARGET[1..] == ["entries", "amazon-bedrock", "config", "discovery"];
    assert TARGET[1..][1..] == ["amazon-bedrock", "config", "discovery"];
    assert TARGET[1..][1..][1..] == ["config", "discovery"];
    assert TARGET[1..][1..][1..][1..] == ["discovery"];
    ReadFive(root, "plugins", "entries", "amazon-bedrock", "config", "discovery");
    WriteFive(root, "plugins", "entries", "amazon-bedrock", "config", "discovery", value);
  }

  lemma ReadFive(root: Json, a: string, b: string, c: string, d: string, e: string)
    ensures ReadPath(root, [a, b, c, d, e]) == Read(Read(Read(Read(Read(root, a), b), c), d), e)
  {
    assert [a, b, c, d, e][1..] == [b, c, d, e] && [b, c, d, e][1..] == [c, d, e];
    assert [c, d, e][1..] == [d, e] && [d, e][1..] == [e] && [e][1..] == [];
    var x := Read(Read(Read(root, a), b), c);
    assert ReadPath(x, [d, e]) == ReadPath(Read(x, d), [e]) == ReadPath(Read(Read(x, d), e), []);
    assert ReadPath(root, [a, b, c, d, e]) == ReadPath(Read(root, a), [b, c, d, e]);
    assert ReadPath(Read(root, a), [b, c, d, e]) == ReadPath(Read(Read(root, a), b), [c, d, e]);
  }

  lemma WriteFive(root: Json, a: string, b: string, c: string, d: string, e: string, value: Json)
    requires root.Record?
    ensures var x := EnsureRecord(root, a);
      var y := EnsureRecord(x, b);
      var z := EnsureRecord(y, c);
      var w := EnsureRecord(z, d);
      Write(root, [a, b, c, d, e], value) == Set(root, a, Set(x, b, Set(y, c, Set(z, d, Set(w, e, value)))))
  {
    assert [a, b, c, d, e][1..] == [b, c, d, e] && [b, c, d, e][1..] == [c, d, e];
    assert [c, d, e][1..] == [d, e] && [d, e][1..] == [e];
    var x := EnsureRecord(root, a);
    var y := EnsureRecord(x, b);
    var z := EnsureRecord(y, c);
    var w := EnsureRecord(z, d);
    assert Write(w, [e], value) == Set(w, e, value);
    assert Write(z, [d, e], value) == Set(z, d, Set(w, e, value));
    assert Write(y, [c, d, e], value) == Set(y, c, Set(z, d, Set(w, e, value)));
    assert Write(x, [b, c, d, e], value) == Set(x, b, Set(y, c, Set(z, d, Set(w, e, value))));
  }

  lemma {:induction false} ReadWritten(root: Json, path: Path, value: Json)
    requires root.Record? && path != []
    ensures Write(root, path, value).Record? && ReadPath(Write(root, path, value), path) == value
    decreases |path|
  {
    if |path| == 1 {
      assert path[1..] == [];
    } else {
      ReadWritten(EnsureRecord(root, path[0]), path[1..], value);
    }
  }

  /** The paths part at some key: neither leads on to the other. */
  predicate Apart(p: Path, q: Path)
    decreases |p|
  {
    p != [] && q != [] && (p[0] != q[0] || Apart(p[1..], q[1..]))
  }

  /** A write shows at no path apart from the one written. */
  lemma {:induction false} ReadApart(root: Json, path: Path, value: Json, q: Path)
    requires root.Record? && path != [] && Apart(path, q)
    ensures ReadPath(Write(root, path, value), q) == ReadPath(root, q)
    decreases |path|
  {
    if q[0] == path[0] {
      ReadApart(EnsureRecord(root, path[0]), path[1..], value, q[1..]);
      if !Read(root, path[0]).Record? {
        AtomPath(Read(root, path[0]), q[1..]);
        EmptyRecordPath(q[1..]);
      }
    }
  }

  lemma EmptyRecordPath(path: Path)
    requires path != []
    ensures ReadPath(EMPTY, path) == Undefined
  {
    UndefinedPath(path[1..]);
  }

  lemma ReadLegacy(root: Json)
    ensures ReadPath(root, LEGACY) == Legacy(root)
  {
    assert LEGACY[1..] == ["bedrockDiscovery"];
    assert ReadPath(Read(root, "models"), ["bedrockDiscovery"]) == ReadPath(Legacy(root), ["bedrockDiscovery"][1..]);
  }

  /** Removing the legacy settings shows at no path apart from theirs. */
  lemma RemoveApart(root: Json, q: Path)
    requires root.Record? && Read(root, "models").Record? && Apart(LEGACY, q)
    ensures ReadPath(RemoveLegacy(root), q) == ReadPath(root, q)
  {
    if q[0] == "models" {
      assert Apart(LEGACY[1..], q[1..]);
      var models := Delete(Read(root, "models"), "bedrockDiscovery");
      if models.fields == map[] {
        UndefinedPath(q[1..]);
        assert q[1] !in models.fields;
        UndefinedPath(q[1..][1..]);
      }
    }
  }

  lemma LegacyGone(root: Json)
    requires root.Record? && Read(root, "models").Record?
    ensures Legacy(RemoveLegacy(root)) == Undefined
  {
  }

  lemma LegacyApart()
    ensures Apart(TARGET, LEGACY)
  {
    assert TARGET[0] != LEGACY[0];
  }

  /** After a migration there are no legacy settings, so a second one changes nothing; nothing moves at any
      path apart from the old place and the new one. */
  lemma MigrationIsOnceAndLocal(root: Json, q: Path)
    ensures Migrate(Migrate(root)) == Migrate(root)
    ensures !Legacy(Migrate(root)).Record?
    ensures Apart(LEGACY, q) && Apart(TARGET, q) ==> ReadPath(Migrate(root), q) == ReadPath(root, q)
  {
    var legacy := Legacy(root);
    if legacy.Record? {
      var next := RemoveLegacy(root);
      LegacyGone(root);
      LegacyApart();
      var existing := ReadPath(next, TARGET);
      var value := if existing.Record? then Merge(existing, legacy) else legacy;
      ReadApart(next, TARGET, value, LEGACY);
      ReadLegacy(next);
      ReadLegacy(Write(next, TARGET, value));
      if Apart(LEGACY, q) && Apart(TARGET, q) {
        RemoveApart(root, q);
        ReadApart(next, TARGET, value, q);
      }
    }
  }

  /** What the migration makes of the old place and the new one, from what it starts with: the legacy settings are
      gone, and `models` with them when they were all it held; they are in the new place, merged into what is there,
      unless they are empty. */
  lemma MigrationPlaces(root: Json)
    ensures !Legacy(root).Record? ==> Migrate(root) == root
    ensures Legacy(root).Record? ==>
      var models, was := Read(root, "models").fields - {"bedrockDiscovery"}, ReadPath(root, TARGET);
      && Migrate(root).Record?
      && ("models" in Migrate(root).fields <==> models != map[])
      && (models != map[] ==> Read(Migrate(root), "models") == Record(models))
      && ReadPath(Migrate(root), TARGET) ==
           (if Legacy(root).fields == map[] then was else if was.Record? then Merge(was, Legacy(root)) else Legacy(root))
  {
    if Legacy(root).Record? {
      var next := RemoveLegacy(root);
      TargetUntouched(root);
      if Legacy(root).fields != map[] {
        var was := ReadPath(next, TARGET);
        var value := if was.Record? then Merge(was, Legacy(root)) else Legacy(root);
        ReadWritten(next, TARGET, value);
        assert TARGET[0] == "plugins" && |TARGET| == 5;
        assert Write(next, TARGET, value) == Set(next, "plugins", Write(EnsureRecord(next, "plugins"), TARGET[1..], value));
      }
    }
  }

  /** The migration touches no field of the root but `models`, and `plugins` when there are settings to move. */
  lemma MigrationKeepsFields(root: Json, key: string)
    requires key != "models" && (key == "plugins" ==> !Legacy(root).Record? || Legacy(root).fields == map[])
    ensures Read(Migrate(root), key) == Read(root, key)
    ensures root.Record? ==> (key in Migrate(root).fields <==> key in root.fields)
  {
    if Legacy(root).Record? && Legacy(root).fields != map[] {
      var next := RemoveLegacy(root);
      var was := ReadPath(next, TARGET);
      var value := if was.Record? then Merge(was, Legacy(root)) else Legacy(root);
      assert TARGET[0] == "plugins" && |TARGET| == 5;
      assert Write(next, TARGET, value) == Set(next, "plugins", Write(EnsureRecord(next, "plugins"), TARGET[1..], value));
    }
  }

  // ----- the effective settings

  /** The settings the provider works with: the legacy ones overlaid, field by field, with the plugin's. */
  function Effective(root: Json, key: string): Json {
    var plugin := ReadPath(root, TARGET);
    if plugin.Record? && key in plugin.fields then plugin.fields[key] else Read(Legacy(root), key)
  }

  /** A field means the same after the migration as before: the plugin has set it, and a record of its has all
      that the legacy record has; or nobody has it; or the legacy value may be moved. */
  predicate MovesSafely(plugin: Json, legacy: Json, key: string)
    requires plugin.Record? && legacy.Record?
  {
    if key in plugin.fields && plugin.fields[key] != Undefined then
      Descends(plugin, legacy, key) ==> Covered(Read(plugin, key), Read(legacy, key))
    else if key in plugin.fields then Read(legacy, key) == Undefined || key in BLOCKED_OBJECT_KEYS
    else Read(legacy, key) == Undefined || key !in BLOCKED_OBJECT_KEYS
  }

  lemma TargetUntouched(root: Json)
    requires root.Record? && Read(root, "models").Record?
    ensures ReadPath(RemoveLegacy(root), TARGET) == ReadPath(root, TARGET)
  {
    LegacyApart();
    RemoveApart(root, TARGET);
  }

  /** The effective value of a field survives the migration exactly when the field moves safely; with no
      plugin settings to merge into, always. */
  lemma MigrationPreserves(root: Json, key: string)
    ensures Effective(Migrate(root), key) == Effective(root, key) <==>
      (Legacy(root).Record? && Legacy(root).fields != map[] && ReadPath(root, TARGET).Record? ==>
         MovesSafely(ReadPath(root, TARGET), Legacy(root), key))
  {
    var legacy, plugin := Legacy(root), ReadPath(root, TARGET);
    if legacy.Record? {
      LegacyGone(root);
      TargetUntouched(root);
      LegacyApart();
      var next := RemoveLegacy(root);
      if legacy.fields != map[] {
        var value := if plugin.Record? then Merge(plugin, legacy) else legacy;
        ReadWritten(next, TARGET, value);
        ReadApart(next, TARGET, value, LEGACY);
        ReadLegacy(next);
        ReadLegacy(Write(next, TARGET, value));
        if plugin.Record? {
          ReadMerge(plugin, legacy, key);
          if Descends(plugin, legacy, key) {
            MergeChangesNothing(Read(plugin, key), Read(legacy, key));
          }
        }
      }
    }
  }

  /** Flat settings without undefined fields and blocked keys always keep their meaning. */
  lemma FlatSettingsKeepMeaning(root: Json, key: string)
    requires forall k :: Read(ReadPath(root, TARGET), k) == Undefined ==>
      !(ReadPath(root, TARGET).Record? && k in ReadPath(root, TARGET).fields)
    requires forall k :: !(Read(ReadPath(root, TARGET), k).Record? && Read(Legacy(root), k).Record?)
    requires forall k :: k in BLOCKED_OBJECT_KEYS ==> Read(Legacy(root), k) == Undefined
    ensures Effective(Migrate(root), key) == Effective(root, key)
  {
    MigrationPreserves(root, key);
  }

  /** The plugin and the legacy settings both hold a record under "filter", and only the legacy one says "b". */
  function BothRecords(): Json {
    Record(map[
      "models" := Record(map["bedrockDiscovery" := LEGACY_FILTER]),
      "plugins" := Record(map["entries" := Record(map["amazon-bedrock" := Record(map["config" := Record(map["discovery" := PLUGIN_FILTER])])])])])
  }

  const PLUGIN_FILTER := Record(map["filter" := Record(map["a" := Atom("1")])])
  const LEGACY_FILTER := Record(map["filter" := Record(map["b" := Atom("2")])])

  /** Before the migration the plugin's record hides the legacy one; afterwards it has the legacy field too. */
  lemma RecordsChangeMeaning()
    ensures Read(Effective(BothRecords(), "filter"), "b") == Undefined
    ensures Effective(Migrate(BothRecords()), "filter") != Effective(BothRecords(), "filter")
  {
    var root := BothRecords();
    ReadFive(root, "plugins", "entries", "amazon-bedrock", "config", "discovery");
    assert ReadPath(root, TARGET) == PLUGIN_FILTER && Legacy(root) == LEGACY_FILTER;
    assert Fills(Read(PLUGIN_FILTER, "filter"), Read(LEGACY_FILTER, "filter"), "b");
    assert !MovesSafely(PLUGIN_FILTER, LEGACY_FILTER, "filter");
    MigrationPreserves(root, "filter");
  }
}
