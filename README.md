# Configuration loading: flattening and plugin resolution

This project models the core of the configuration object `Config` in
`config/config.py`. The object reads a YAML document and turns it into instance
attributes. Then it replaces the plugin names listed under `plugins` with the
plugin modules that the plugin source loads.

Two operations form the core.

- `__set_property` flattens the document into attributes. A nested key becomes
  `parent_child`. A mapping is descended into while the remaining depth is above 1;
  anything else is bound whole with `setattr`. As written, the depth is looked
  up once, in the table `fields_depth` (`{'plugins': 1}`), for the first
  top-level key, and it falls back to `sys.maxsize` when that key is not listed.
  That one depth is then reused for every later top-level key. For example, when
  `plugins` comes first, every top-level key is bound whole at depth 1. The
  table's comment says each field gets its own depth; see Findings for that
  per-key behaviour.
- `__load_plugins` walks the `plugins` mapping in place. Each plugin name,
  whether a single string or a list of strings, is checked against
  `list_plugins()`. A listed name is replaced by the module `load_plugin` returns.
  A nested mapping is walked recursively. An unknown name raises and stops the walk.

The model has four modules.

- `Values` holds the parsed document as a `Value` datatype and Python truthiness.
  A mapping keeps its insertion order. A loaded module is `Plugin(handle)`.
  None, numbers and booleans matter only for their truth value, so they are `Other`.
- `Flattening` describes a walk as the sequence of `setattr` calls it makes
  (`Bindings`, `EntryBindings`). `Apply` replays those calls on a namespace, so a
  later call on the same name overwrites an earlier one. Two functions each make
  one call on a whole document:
  - `FlattenAsWritten` follows the code: the depth of the first key is reused
    for every later key.
  - `Flatten` is the corrected walk: each top-level key gets its own depth (see
    Findings). The rest of the model uses this one.
- `Plugins` has the specification function `Resolve` (with `ResolvePrefix` and
  `ResolveEntry`). It gives:
  - the state the mapping is left in, including after a failure part-way through;
  - the error raised;
  - the names `load_plugin` was called with, in order.

  The method `LoadPlugins` is the nested loop of the source, and it is proved
  equal to `Resolve`. The lemmas compare `Resolve` with an all-or-nothing
  reference: `AllKnown` holds when every name is listed, `Resolved` is the fully
  replaced tree and `Mentions` lists every reference.
- `Configuration` has the class `Config`. Its field `attrs` is the attribute
  namespace, and its methods update that field in place. `SetProperty` is the
  recursive loop of `__set_property`. `PreLoadPlugins` resolves the `plugins`
  attribute. `Load` performs those two steps in the order the constructor does.

The model follows the code as written in these places:

- A truthy document or plugins spec that is not a mapping fails. Its `.items()`
  does not exist, and this becomes the errors `RootNotMapping` and `NoItems`.
  A falsy one is treated as empty (`properties or {}`, `if plugins:`).
- For a list of plugin names, the names before an unknown one are loaded before
  the error is raised. The list itself is left unreplaced.
- Only string and list values, and nested mappings, are resolved. Any other
  value under `plugins` is left alone.

## Model

| member | source | states |
|---|---|---|
| Configuration.Config.constructor | config/config.py:28-34 | `plugins` starts as None and the depth table binds the `plugins` branch at depth 1 |
| Configuration.Config.SetProperty | config/config.py:64-83 | a falsy value binds nothing; a truthy value that is not a mapping fails and binds nothing; a mapping leaves exactly the namespace produced by replaying its walk's `setattr` calls in order, where each entry uses the depth handed down or else its own depth from the table (the corrected lookup, see Findings); `plugins` stays bound |
| Configuration.Config.PreLoadPlugins | config/config.py:120-129 | the `plugins` attribute is replaced by the resolved tree, also when resolution fails part-way; no other attribute changes; the error and the load calls are those of `Resolve` |
| Configuration.Config.Load | config/config.py:35 | line 35's flattening followed by line 38's plugin resolution (lines 36-37 are left out): a document that is not a mapping and is truthy fails with nothing bound or loaded; otherwise the namespace is the document flattened with the corrected per-key lookup, with `plugins` resolved, and a resolution error is reported as a plugin error |
| Flattening.ApplyOrigin | config/config.py:81 | after the `setattr` calls, a name exists exactly when it existed before or some call wrote it; a name no call writes keeps its value; every value comes from the old namespace or from a call |
| Flattening.ApplyLastWins | config/config.py:81 | the last `setattr` on a name decides its value |
| Flattening.ShallowBindsVerbatim | config/config.py:78-81 | at depth 1 or less every entry is bound whole under its qualified name, one call per entry, in order |
| Flattening.BoundVerbatim | config/config.py:78-81 | an entry that is not a mapping, or is a mapping at depth 1 or less, is bound verbatim under its qualified name |
| Flattening.NamesUnderPrefix | config/config.py:74-79 | under a prefix every bound name starts with the prefix and `_` and is never the prefix itself |
| Flattening.NestedWithinBindsLeaves | config/config.py:76-79 | when every nested mapping lies within the depth, no mapping is bound whole |
| Flattening.FlattenAsWritten | config/config.py:64-83 | the walk as the loader's call of `__set_property` makes it, with the first key's depth reused: it fails exactly for a truthy document that is not a mapping; otherwise no attribute is removed, and a falsy document leaves the namespace unchanged |
| Flattening.FlattenAgreement | config/config.py:75-76 | the as-written and corrected walks give the same namespace whenever the table gives every top-level key the first key's depth, for example when no top-level key is listed |
| Flattening.PluginsFirstBindsAllWhole | config/config.py:75-76 | as written: if `plugins` is the first key, the depth is 1 for all top-level keys, so each one is bound whole |
| Flattening.PluginsFirstBindsPlugins | config/config.py:75-81 | as written: if `plugins` is the first key, the `plugins` attribute holds the raw plugins mapping |
| Flattening.PluginsMappingOnlyIfFirst | config/config.py:75-81 | as written: after flattening, `plugins` holds a mapping only if `plugins` is the document's first key |
| Flattening.FirstKeyDepthCounterexample | config/config.py:75-76 | the document `{log: {level: debug}, plugins: {parse: [p1]}}` binds `log_level` and `plugins_parse`, and `plugins` stays None |
| Flattening.PluginsBoundWhole | config/config.py:31-32 | corrected: once the corrected walk has passed the `plugins` key, that attribute holds the raw plugins mapping, because later keys (distinct and non-empty) never bind that name |
| Flattening.FlattenBindsPluginsWhole | config/config.py:31-32 | corrected: flattening binds `plugins` to the raw plugins mapping wherever `plugins` stands among distinct non-empty top-level keys |
| Plugins.FirstUnknown | config/config.py:143-146 | the index of the first list item that is not a listed name: every item before it is listed, and the item at it is not |
| Plugins.ResolvePrefix | config/config.py:140-154 | visiting keys never adds, removes or reorders keys, and keys not yet visited keep their values |
| Plugins.FailureSticks | config/config.py:140-152 | once a name is unknown, later keys are never visited |
| Plugins.EntryShape | config/config.py:141-154 | resolving a value keeps its shape: same keys; a list keeps its length, and each item is kept or is a name replaced by a module; a single name is kept or replaced by a module; anything else is kept; only listed names are loaded |
| Plugins.PrefixShape | config/config.py:140-154 | the same for the first `n` keys of a mapping |
| Plugins.EntryOutcome | config/config.py:141-154 | a value resolves without error exactly when all its references are listed, and it then becomes the all-or-nothing result with every reference loaded in order; otherwise the outcome is exactly the stopped tree (`Stopped`), an error naming the culprit (`Culprit`) and the names loaded before it (`LoadedBefore`) |
| Plugins.PrefixOutcome | config/config.py:140-154 | the first `n` keys resolve without error exactly when none of them holds an unknown name; on error the walk stopped at the first such key: earlier keys are resolved, later ones untouched, that key's value is stopped at its culprit, and the loads are the earlier keys' references followed by those before the culprit |
| Plugins.ResolveSucceedsIff | config/config.py:139-154 | resolving a mapping succeeds exactly when every referenced name is listed; it then yields the fully replaced tree and loads each reference once, in walk order |
| Plugins.ResolveKeepsShape | config/config.py:139-154 | whatever the outcome, the spec keeps its shape and `load_plugin` is only called on listed names |
| Plugins.ResolvePartialFailure | config/config.py:140-154 | on an unknown name: keys before the first bad key are fully replaced; later keys are untouched; a failing list or string keeps its value; a failing nested mapping is left stopped in turn; the error names the first unlisted reference in walk order; the loads are every reference of the earlier keys, then those of the failing value before its culprit |
| Plugins.CulpritFirst | config/config.py:143-150 | the reported reference is the first unlisted one in walk order: it is not listed, every name loaded before it is listed, and those names followed by it begin the references of the spec |
| Plugins.LoadPlugins | config/config.py:131-154 | the nested loop gives the tree, error and load calls of `Resolve`, including the partial state when it stops |

## Left out

- Reading the file (`__load_config`, lines 48-62) and YAML parsing are left out. The parsed document is a parameter of `Load`, and mapping keys are strings.
- `__load_args`, `get_timestamp`, `__logger_config`, `StrTimeParseAction` and the script entry point are not part of this model. They cover command-line parsing, clock-based timestamps and logger setup.
- Plugin discovery with `PluginBase` (lines 125-127) is replaced by a `Registry` parameter. It holds the listed names and a total `load` function. A failure inside `load_plugin` is not modelled.
- The attributes `logger` and `fields_depth`, and those set by `__load_args`, are not entries of `attrs`. The depth table is a separate constant, `fieldsDepth`. A document key named `fields_depth` is bound like any other attribute and never replaces the table. In the code as written the table is read only before the first `setattr`, so such a key has no effect there either.
- Plugins.LoadPlugins: it returns the resolved mapping as a value. The source mutates the shared Python dict in place, and aliasing between that dict and other references to it is not modelled. This includes aliasing inside the plugins tree. A YAML alias (`x: &c {s: p1}`, `y: *c`) makes the code reach one mapping twice. The code resolves that mapping once and finds modules on the second visit, which it leaves alone. The model resolves both copies, so it loads `p1` twice.
- Plugins.LoadPlugins: the text of the `ValueError` message is not modelled. The error carries the offending value.
- `MaxSize` is `sys.maxsize` of a 64-bit interpreter.
- Configuration.Config.Load: flattens with the corrected per-key depth lookup, not with the constructor's lookup as written. Two results differ from the code. When `plugins` is the first key, later top-level mappings such as `{log: {level: debug}}` are flattened into `log_level`, whereas the code binds `log` whole. When `plugins` is not the first key, the code leaves `plugins` None and loads nothing, whereas `Load` resolves the plugins mapping. The code's result is `Flattening.FlattenAsWritten`.
- Configuration.Config.SetProperty: looks the depth up for each top-level key, which is the corrected behaviour described under Findings. The code as written, which uses the first key's depth for every key, is `Flattening.FlattenAsWritten` together with the lemmas about it.
- The model keeps these behaviours of the code:
  - A falsy root binds nothing instead of raising a dedicated error.
  - A non-mapping plugins spec fails if truthy and does nothing if falsy.
  - A failing list still loads the names before the unknown one.

## Findings

| source | as written | input that shows it | evidently intended | confidence | as-written member | corrected member |
|---|---|---|---|---|---|---|
| config/config.py:75-76 | `depth` is looked up in `fields_depth` only while it is None, which is for the first top-level key only. That depth is reused for every later key. | `{log: {level: debug}, plugins: {parse: [p1]}}`: `log` gets `sys.maxsize`, so `plugins` is flattened into `plugins_parse`, `plugins` stays None and no plugin is loaded | one lookup per top-level key, as the comment on `fields_depth` (line 31) says, so `plugins` is always bound whole | high (not executed) | Flattening.FirstKeyDepthCounterexample | Flattening.FlattenBindsPluginsWhole |

Both walks share one definition, `Flattening.Bindings`. In `Bindings`, a walk
with no depth handed down looks each top-level key up in the table. This is the
corrected walk, used by `Flatten`, `Config.SetProperty` and `Config.Load`.
`FlattenAsWritten` instead hands the first key's depth (`Flattening.FirstKeyDepth`)
down to every key, as the code does.
`Config.SetProperty` and `Config.Load` use the corrected lookup.
